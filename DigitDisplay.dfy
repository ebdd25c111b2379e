/**
 * The digit display engine: a per-character file list memo (`imageFiles`), a
 * per-slot resolved-path cache (`digitCache`) keyed by "<type>_<index>", and
 * the fingerprint of the fields last shown (`currentFullTime`). Display
 * markup is modelled as a sequence of pieces instead of DOM nodes.
 */
module DigitDisplay {
  import opened Decimal
  import opened Clock

  datatype Option<T> = None | Some(value: T)

  /** Root of the image folders; each character has its own sub-folder. */
  const ResourcesPath: string := "resources/"

  /** The kinds of display slot the page renders into. */
  datatype SlotType = Year | Month | Day | Hour | Minute | Second | Countdown | Ten1 | Ten2 | Wan

  /** The type name used in the cache key; none contains the separator '_'. */
  function TypeName(t: SlotType): (name: string)
    ensures |name| > 0 && '_' !in name
  {
    match t
    case Year => "year"
    case Month => "month"
    case Day => "day"
    case Hour => "hour"
    case Minute => "minute"
    case Second => "second"
    case Countdown => "countdown"
    case Ten1 => "ten1"
    case Ten2 => "ten2"
    case Wan => "wan"
  }

  /** The cache key `${type}_${index}` of one display slot. */
  function SlotKey(t: SlotType, index: nat): string
  {
    TypeName(t) + "_" + NatToString(index)
  }

  /** A key is the type name, the separator and the index numeral, in that order. */
  lemma SlotKeyParts(t: SlotType, index: nat)
    ensures var k, n := SlotKey(t, index), |TypeName(t)|;
      && |k| == n + 1 + |NatToString(index)|
      && k[..n] == TypeName(t) && k[n] == '_' && k[n + 1..] == NatToString(index)
  {
  }

  lemma TypeNameInjective(t: SlotType, u: SlotType)
    requires TypeName(t) == TypeName(u)
    ensures t == u
  {
  }

  /** A separator-free head decides where the first '_' of a key falls. */
  lemma SeparatorPosition(a: string, x: string, b: string, y: string)
    requires '_' !in b && |a| < |b|
    ensures a + "_" + x != b + "_" + y
  {
    assert (a + "_" + x)[|a|] == '_';
    assert (b + "_" + y)[|a|] == b[|a|];
  }

  /** Distinct slots never share a cache entry. */
  lemma SlotKeyInjective(t: SlotType, i: nat, u: SlotType, j: nat)
    requires SlotKey(t, i) == SlotKey(u, j)
    ensures t == u && i == j
  {
    var k, a, b := SlotKey(t, i), TypeName(t), TypeName(u);
    if |a| < |b| {
      SeparatorPosition(a, NatToString(i), b, NatToString(j));
    } else if |b| < |a| {
      SeparatorPosition(b, NatToString(j), a, NatToString(i));
    }
    assert a == k[..|a|] == b;
    TypeNameInjective(t, u);
    assert NatToString(i) == k[|a| + 1..] == NatToString(j);
    NatToStringInjective(i, j);
  }

  /** The contrapositive: distinct slots have distinct keys. */
  lemma SlotKeysDistinct(t: SlotType, i: nat, u: SlotType, j: nat)
    requires t != u || i != j
    ensures SlotKey(t, i) != SlotKey(u, j)
  {
    if SlotKey(t, i) == SlotKey(u, j) {
      SlotKeyInjective(t, i, u, j);
    }
  }

  /** A cache entry: the character a slot last showed and the path resolved for it. */
  datatype Entry = Entry(digit: char, imgPath: string)

  /** The one image file each character's folder holds. */
  function FileName(c: char): string
  {
    [c] + "-1.png"
  }

  /** The path a character resolves to: "resources/<c>/<c>-1.png". */
  function ImagePath(c: char): string
  {
    ResourcesPath + [c] + "/" + FileName(c)
  }

  /**
   * The path is the resources folder, the character's folder and its file
   * name; the character can be read back from it, so distinct characters get
   * distinct paths.
   */
  lemma ImagePathNamesCharacter(c: char, d: char)
    ensures var p, n := ImagePath(c), |ResourcesPath|;
      && |p| == n + 9 && p[..n] == ResourcesPath
      && p[n] == c && p[n + 1] == '/' && p[n + 2..] == FileName(c)
    ensures FileName(c)[0] == c && FileName(c)[1..] == "-1.png"
    ensures ImagePath(c) == ImagePath(d) ==> c == d
  {
  }

  /** Whether the cache already holds character `c` for the slot with key `key`. */
  predicate Hit(cache: map<string, Entry>, key: string, c: char)
  {
    key in cache && cache[key].digit == c
  }

  /** One resolution: the key of the slot and the character resolved there. */
  type Resolution = (string, char)

  /** The cache after the given resolutions, performed first to last. */
  function Apply(cache: map<string, Entry>, log: seq<Resolution>): map<string, Entry>
    decreases |log|
  {
    if log == [] then cache
    else
      var last := log[|log| - 1];
      Apply(cache, log[..|log| - 1])[last.0 := Entry(last.1, ImagePath(last.1))]
  }

  /** A single resolution writes its slot's entry. */
  lemma ApplyOne(cache: map<string, Entry>, key: string, c: char)
    ensures Apply(cache, [(key, c)]) == cache[key := Entry(c, ImagePath(c))]
    ensures Chars([(key, c)]) == {c}
  {
    assert [(key, c)][..0] == [];
  }

  /** The characters that the given resolutions touch. */
  function Chars(log: seq<Resolution>): set<char>
    decreases |log|
  {
    if log == [] then {} else Chars(log[..|log| - 1]) + {log[|log| - 1].1}
  }

  /** Resolutions only ever add keys, and the last one decides its slot's entry. */
  lemma {:induction false} ApplyLastWins(cache: map<string, Entry>, log: seq<Resolution>)
    ensures cache.Keys <= Apply(cache, log).Keys
    ensures log != [] ==>
      var last := log[|log| - 1];
      Apply(cache, log)[last.0] == Entry(last.1, ImagePath(last.1))
    decreases |log|
  {
    if log != [] {
      ApplyLastWins(cache, log[..|log| - 1]);
    }
  }

  /** Resolving one sequence of slots and then another is resolving both in order. */
  lemma {:induction false} ApplyAppend(cache: map<string, Entry>, a: seq<Resolution>, b: seq<Resolution>)
    ensures Apply(cache, a + b) == Apply(Apply(cache, a), b)
    decreases |b|
  {
    if b == [] {
      assert a + b == a;
    } else {
      assert (a + b)[..|a + b| - 1] == a + b[..|b| - 1];
      assert (a + b)[|a + b| - 1] == b[|b| - 1];
      ApplyAppend(cache, a, b[..|b| - 1]);
    }
  }

  /** The resolutions of the characters of `text` at slots (t, 0), (t, 1), ... left to right. */
  function SlotLog(t: SlotType, text: string): (log: seq<Resolution>)
    ensures |log| == |text|
    decreases |text|
  {
    if text == [] then [] else SlotLog(t, text[..|text| - 1]) + [(SlotKey(t, |text| - 1), text[|text| - 1])]
  }

  /** Resolution i of `text` is character i at slot (t, i). */
  lemma {:induction false} SlotLogAt(t: SlotType, text: string, i: nat)
    requires i < |text|
    ensures SlotLog(t, text)[i] == (SlotKey(t, i), text[i])
    decreases |text|
  {
    var n := |text| - 1;
    if i < n {
      SlotLogAt(t, text[..n], i);
    }
  }

  /** The keys of the first `n` slots of type `t`. */
  function SlotKeys(t: SlotType, n: nat): set<string>
  {
    set i | 0 <= i < n :: SlotKey(t, i)
  }

  /** Resolving one more character appends one resolution. */
  lemma SlotLogSnoc(t: SlotType, text: string, i: nat)
    requires i < |text|
    ensures SlotLog(t, text[..i + 1]) == SlotLog(t, text[..i]) + [(SlotKey(t, i), text[i])]
  {
    assert text[..i + 1][..i] == text[..i];
  }

  /** After resolving `text` at the slots of type `t`, slot i holds character i with its path. */
  lemma {:induction false} ApplySlotLogAt(cache: map<string, Entry>, t: SlotType, text: string, i: nat)
    requires i < |text|
    ensures var r := Apply(cache, SlotLog(t, text));
      SlotKey(t, i) in r && r[SlotKey(t, i)] == Entry(text[i], ImagePath(text[i]))
    decreases |text|
  {
    var n := |text| - 1;
    var log := SlotLog(t, text);
    assert log[..n] == SlotLog(t, text[..n]) && log[n] == (SlotKey(t, n), text[n]);
    var prev := Apply(cache, SlotLog(t, text[..n]));
    assert Apply(cache, log) == prev[SlotKey(t, n) := Entry(text[n], ImagePath(text[n]))];
    if i < n {
      ApplySlotLogAt(cache, t, text[..n], i);
      SlotKeysDistinct(t, i, t, n);
    }
  }

  /** Resolving `text` at the slots of type `t` leaves every other key as it was. */
  lemma {:induction false} ApplySlotLogElsewhere(cache: map<string, Entry>, t: SlotType, text: string, k: string)
    requires k !in SlotKeys(t, |text|)
    ensures var r := Apply(cache, SlotLog(t, text));
      (k in r <==> k in cache) && (k in cache ==> r[k] == cache[k])
    decreases |text|
  {
    if text != [] {
      var n := |text| - 1;
      assert SlotLog(t, text) == SlotLog(t, text[..n]) + [(SlotKey(t, n), text[n])];
      assert SlotLog(t, text)[..n] == SlotLog(t, text[..n]);
      assert k != SlotKey(t, n);
      assert k !in SlotKeys(t, n);
      ApplySlotLogElsewhere(cache, t, text[..n], k);
    }
  }

  /** Slots of different types never share a key, whatever their positions. */
  lemma SlotTypesDisjoint(t: SlotType, n: nat, u: SlotType, m: nat)
    requires t != u
    ensures SlotKeys(t, n) !! SlotKeys(u, m)
  {
    forall i, j | 0 <= i < n && 0 <= j < m
      ensures SlotKey(t, i) != SlotKey(u, j)
    {
      if SlotKey(t, i) == SlotKey(u, j) {
        SlotKeyInjective(t, i, u, j);
      }
    }
  }

  /** Re-resolving 'A' after 'B' at one slot misses and stores 'A' again. */
  lemma ResolveAgainAfterChange(cache: map<string, Entry>, key: string, a: char, b: char)
    requires a != b
    ensures var afterA := Apply(cache, [(key, a)]);
      var afterB := Apply(afterA, [(key, b)]);
      && Hit(afterA, key, a)
      && !Hit(afterB, key, a)
      && Apply(afterB, [(key, a)]) == afterA[key := Entry(a, ImagePath(a))]
  {
  }

  /** A piece of display markup: an image for one character, or literal text. */
  datatype Piece = Img(src: string, alt: char) | Text(s: string)

  /** One image per character of `text`, left to right, each showing its character. */
  function Imgs(text: string): (pieces: seq<Piece>)
    ensures |pieces| == |text|
    decreases |text|
  {
    if text == [] then [] else Imgs(text[..|text| - 1]) + [Img(ImagePath(text[|text| - 1]), text[|text| - 1])]
  }

  /** Image i of `text` is character i's image, with the character as its text. */
  lemma {:induction false} ImgsAt(text: string, i: nat)
    requires i < |text|
    ensures Imgs(text)[i] == Img(ImagePath(text[i]), text[i])
    decreases |text|
  {
    var n := |text| - 1;
    if i < n {
      ImgsAt(text[..n], i);
    }
  }

  /** Rendering one more character appends one image. */
  lemma ImgsSnoc(text: string, i: nat)
    requires i < |text|
    ensures Imgs(text[..i + 1]) == Imgs(text[..i]) + [Img(ImagePath(text[i]), text[i])]
  {
    assert text[..i + 1][..i] == text[..i];
  }

  /** The date block: year 年 month 月 day 日; `DateBlockLayout` locates each part. */
  function DateBlock(f: Fields): seq<Piece>
  {
    DatePieces(IntToString(f.year), Pad2(f.month), Pad2(f.day))
  }

  /** The images of the numerals y, m and d, each followed by its label 年, 月 or 日. */
  function DatePieces(y: string, m: string, d: string): seq<Piece>
  {
    Imgs(y) + [Text("年")] + Imgs(m) + [Text("月")] + Imgs(d) + [Text("日")]
  }

  /** The time block: hour:minute:second; `TimeBlockLayout` locates each part. */
  function TimeBlock(f: Fields): seq<Piece>
  {
    TimePieces(Pad2(f.hour), Pad2(f.minute), Pad2(f.second))
  }

  /** The images of the numerals h, m and s, separated by colons. */
  function TimePieces(h: string, m: string, s: string): seq<Piece>
  {
    Imgs(h) + [Text(":")] + Imgs(m) + [Text(":")] + Imgs(s)
  }

  /** The countdown block: "距离明年还剩" days "天"; `CountdownBlockLayout` locates each part. */
  function CountdownBlock(diffMs: int): seq<Piece>
  {
    [Text("距离明年还剩")] + Imgs(IntToString(DaysLeft(diffMs))) + [Text("天")]
  }

  /** Three runs of pieces separated by two single pieces, as the time block is laid out. */
  lemma Layout(a: seq<Piece>, x: Piece, b: seq<Piece>, y: Piece, c: seq<Piece>)
    ensures var w := a + [x] + b + [y] + c;
      && |w| == |a| + |b| + |c| + 2
      && w[..|a|] == a && w[|a|] == x
      && w[|a| + 1..|a| + 1 + |b|] == b && w[|a| + 1 + |b|] == y
      && w[|a| + 2 + |b|..] == c
  {
    var w := a + [x] + b + [y] + c;
    assert w == (a + [x]) + (b + [y]) + c;
  }

  /** The same with a closing piece, as the date block is laid out. */
  lemma ClosedLayout(a: seq<Piece>, x: Piece, b: seq<Piece>, y: Piece, c: seq<Piece>, z: Piece)
    ensures var w := a + [x] + b + [y] + c + [z];
      && |w| == |a| + |b| + |c| + 3
      && w[..|a|] == a && w[|a|] == x
      && w[|a| + 1..|a| + 1 + |b|] == b && w[|a| + 1 + |b|] == y
      && w[|a| + 2 + |b|..|w| - 1] == c && w[|w| - 1] == z
  {
    var w := a + [x] + b + [y] + c + [z];
    assert w == (a + [x]) + (b + [y]) + (c + [z]);
  }

  /** `b` is the images of y, 年, the images of m, 月, the images of d, 日, each part at its place. */
  predicate DateLaidOut(b: seq<Piece>, y: string, m: string, d: string)
  {
    && |b| == |y| + |m| + |d| + 3
    && b[..|y|] == Imgs(y) && b[|y|] == Text("年")
    && b[|y| + 1..|y| + 1 + |m|] == Imgs(m) && b[|y| + 1 + |m|] == Text("月")
    && b[|y| + 2 + |m|..|b| - 1] == Imgs(d) && b[|b| - 1] == Text("日")
  }

  /** `b` is the images of h, ':', the images of m, ':', the images of s, each part at its place. */
  predicate TimeLaidOut(b: seq<Piece>, h: string, m: string, s: string)
  {
    && |b| == |h| + |m| + |s| + 2
    && b[..|h|] == Imgs(h) && b[|h|] == Text(":")
    && b[|h| + 1..|h| + 1 + |m|] == Imgs(m) && b[|h| + 1 + |m|] == Text(":")
    && b[|h| + 2 + |m|..] == Imgs(s)
  }

  /** The date pieces of any numerals y, m and d are laid out as `DateLaidOut` says. */
  lemma DateLayout(y: string, m: string, d: string)
    ensures DateLaidOut(DatePieces(y, m, d), y, m, d)
  {
    var iy, im, id := Imgs(y), Imgs(m), Imgs(d);
    assert |iy| == |y| && |im| == |m| && |id| == |d|;
    ClosedLayout(iy, Text("年"), im, Text("月"), id, Text("日"));
    var b := iy + [Text("年")] + im + [Text("月")] + id + [Text("日")];
    assert b[|y| + 1..|y| + 1 + |m|] == b[|iy| + 1..|iy| + 1 + |im|] == im;
  }

  /** The time pieces of any numerals h, m and s are laid out as `TimeLaidOut` says. */
  lemma TimeLayout(h: string, m: string, s: string)
    ensures TimeLaidOut(TimePieces(h, m, s), h, m, s)
  {
    var ih, im := Imgs(h), Imgs(m);
    assert |ih| == |h| && |im| == |m|;
    Layout(ih, Text(":"), im, Text(":"), Imgs(s));
    var b := ih + [Text(":")] + im + [Text(":")] + Imgs(s);
    assert b[|h| + 1..|h| + 1 + |m|] == b[|ih| + 1..|ih| + 1 + |im|] == im;
  }

  /** `DateBlock(f)`: the unpadded year's images, 年, the padded month's, 月, the padded day's, 日. */
  lemma DateBlockLayout(f: Fields)
    ensures DateLaidOut(DateBlock(f), IntToString(f.year), Pad2(f.month), Pad2(f.day))
  {
    DateLayout(IntToString(f.year), Pad2(f.month), Pad2(f.day));
  }

  /** `TimeBlock(f)`: the padded hour's images, ':', the padded minute's, ':', the padded second's. */
  lemma TimeBlockLayout(f: Fields)
    ensures TimeLaidOut(TimeBlock(f), Pad2(f.hour), Pad2(f.minute), Pad2(f.second))
  {
    TimeLayout(Pad2(f.hour), Pad2(f.minute), Pad2(f.second));
  }

  /** The countdown block is its label, the day count's images, then 天. */
  lemma CountdownBlockLayout(diffMs: int)
    ensures var b, n := CountdownBlock(diffMs), IntToString(DaysLeft(diffMs));
      && |b| == |n| + 2 && b[0] == Text("距离明年还剩")
      && b[1..|b| - 1] == Imgs(n) && b[|b| - 1] == Text("天")
  {
  }

  /** What a rebuilding tick writes into the date, time and countdown elements. */
  datatype Blocks = Blocks(date: seq<Piece>, time: seq<Piece>, countdown: seq<Piece>)

  /** The slots the date block resolves, in order. */
  function DateLog(f: Fields): seq<Resolution>
  {
    SlotLog(Year, IntToString(f.year)) + SlotLog(Month, Pad2(f.month)) + SlotLog(Day, Pad2(f.day))
  }

  /** The slots the time block resolves, in order. */
  function TimeLog(f: Fields): seq<Resolution>
  {
    SlotLog(Hour, Pad2(f.hour)) + SlotLog(Minute, Pad2(f.minute)) + SlotLog(Second, Pad2(f.second))
  }

  /** The slots the countdown block resolves. */
  function CountdownLog(diffMs: int): seq<Resolution>
  {
    SlotLog(Countdown, IntToString(DaysLeft(diffMs)))
  }

  /** The slots a rebuilding tick resolves, in the order it resolves them. */
  function BlocksLog(f: Fields, diffMs: int): seq<Resolution>
  {
    DateLog(f) + TimeLog(f) + CountdownLog(diffMs)
  }

  /** The three fixed glyph slots every tick resolves: 十 twice and 万 once. */
  function FixedLog(): seq<Resolution>
  {
    [(SlotKey(Ten1, 0), '十'), (SlotKey(Ten2, 0), '十'), (SlotKey(Wan, 0), '万')]
  }

  /**
   * The fixed slots' resolutions, one at a time. The second clause only
   * regroups a concatenation, stated here to keep the callers' proofs cheap.
   */
  lemma FixedLogEffect(cache: map<string, Entry>, log: seq<Resolution>)
    ensures var e1, e2 := Entry('十', ImagePath('十')), Entry('万', ImagePath('万'));
      Apply(cache, FixedLog()) == cache[SlotKey(Ten1, 0) := e1][SlotKey(Ten2, 0) := e1][SlotKey(Wan, 0) := e2]
    ensures log + [(SlotKey(Ten1, 0), '十')] + [(SlotKey(Ten2, 0), '十')] + [(SlotKey(Wan, 0), '万')] == log + FixedLog()
    ensures Chars(FixedLog()) == {'十', '万'}
  {
    var l := FixedLog();
    var e1, e2 := Entry('十', ImagePath('十')), Entry('万', ImagePath('万'));
    assert l[..2][..1] == [(SlotKey(Ten1, 0), '十')];
    assert l[..2] == [(SlotKey(Ten1, 0), '十'), (SlotKey(Ten2, 0), '十')];
    ApplyOne(cache, SlotKey(Ten1, 0), '十');
    assert Apply(cache, l[..2]) == cache[SlotKey(Ten1, 0) := e1][SlotKey(Ten2, 0) := e1];
    assert Chars(l[..2][..1]) == {'十'} by {
      assert l[..2][..1][..0] == [];
    }
    assert Chars(l[..2]) == {'十'};
  }

  /** Whatever a tick resolved before, the fixed slots end up holding their glyphs. */
  lemma FixedSlotsAfterTick(cache: map<string, Entry>, before: seq<Resolution>)
    ensures var r := Apply(cache, before + FixedLog());
      && Hit(r, SlotKey(Ten1, 0), '十') && r[SlotKey(Ten1, 0)].imgPath == ImagePath('十')
      && Hit(r, SlotKey(Ten2, 0), '十') && r[SlotKey(Ten2, 0)].imgPath == ImagePath('十')
      && Hit(r, SlotKey(Wan, 0), '万') && r[SlotKey(Wan, 0)].imgPath == ImagePath('万')
  {
    ApplyAppend(cache, before, FixedLog());
    FixedLogEffect(Apply(cache, before), []);
  }

  /** The characters of two runs of resolutions are those of each. */
  lemma {:induction false} CharsAppend(a: seq<Resolution>, b: seq<Resolution>)
    ensures Chars(a + b) == Chars(a) + Chars(b)
    decreases |b|
  {
    if b == [] {
      assert a + b == a;
    } else {
      assert (a + b)[..|a + b| - 1] == a + b[..|b| - 1];
      CharsAppend(a, b[..|b| - 1]);
    }
  }

  /**
   * Running `done` and then `next` from a cache and a memo key set is running
   * `done + next` from them. The first clause only regroups a concatenation;
   * stating it here, with `log` and `keys` as parameters, spares the solver
   * from rediscovering it in every loop step and method that appends to the log.
   */
  lemma Extend(cache: map<string, Entry>, log: seq<Resolution>, keys: set<char>, done: seq<Resolution>, next: seq<Resolution>)
    ensures log + done + next == log + (done + next)
    ensures Apply(Apply(cache, done), next) == Apply(cache, done + next)
    ensures keys + Chars(done) + Chars(next) == keys + Chars(done + next)
  {
    ApplyAppend(cache, done, next);
    CharsAppend(done, next);
  }

  class Engine {
    /** Memo of the file list of each character's folder. */
    var imageFiles: map<char, seq<string>>
    /** Per slot key: the character last shown there and its path. */
    var digitCache: map<string, Entry>
    /** Fingerprint of the fields the blocks were last built from. */
    var currentFullTime: string
    /** Every slot resolution so far, in call order (a modelling device). */
    ghost var log: seq<Resolution>

    /**
     * Every memoised list is the one-file list of its character, and every
     * cached path is the path of its character, whose list is memoised.
     */
    ghost predicate Valid()
      reads this`imageFiles, this`digitCache
    {
      && (forall c :: c in imageFiles ==> imageFiles[c] == [FileName(c)])
      && (forall k :: k in digitCache ==>
            digitCache[k].imgPath == ImagePath(digitCache[k].digit) && digitCache[k].digit in imageFiles)
    }

    /** The page-load state: both caches empty, nothing shown yet. */
    constructor ()
      ensures Valid()
      ensures imageFiles == map[] && digitCache == map[] && currentFullTime == "" && log == []
    {
      imageFiles := map[];
      digitCache := map[];
      currentFullTime := "";
      log := [];
    }

    /** The file list of character `c`'s folder, memoised on first use. */
    method GetImageFiles(c: char) returns (files: seq<string>)
      requires Valid()
      modifies this`imageFiles
      ensures Valid()
      ensures files == [FileName(c)]
      ensures imageFiles == old(imageFiles)[c := [FileName(c)]]
      ensures c in old(imageFiles) ==> imageFiles == old(imageFiles)
    {
      if c in imageFiles {
        return imageFiles[c];
      }
      files := [FileName(c)];
      imageFiles := imageFiles[c := files];
    }

    /**
     * The image path of character `c` at slot (t, index): the cached path when
     * the slot already shows `c`, otherwise a freshly built path that replaces
     * that slot's entry only.
     */
    method GetImagePath(c: char, t: SlotType, index: nat) returns (path: string)
      requires Valid()
      modifies this`imageFiles, this`digitCache, this`log
      ensures Valid()
      ensures path == ImagePath(c)
      ensures old(Hit(digitCache, SlotKey(t, index), c)) ==>
        digitCache == old(digitCache) && imageFiles == old(imageFiles)
      ensures digitCache == old(digitCache)[SlotKey(t, index) := Entry(c, path)]
      ensures imageFiles == old(imageFiles)[c := [FileName(c)]]
      ensures imageFiles.Keys == old(imageFiles).Keys + {c}
      ensures log == old(log) + [(SlotKey(t, index), c)]
    {
      var key := SlotKey(t, index);
      log := log + [(key, c)];
      if key in digitCache && digitCache[key].digit == c {
        path := digitCache[key].imgPath;
        assert digitCache == digitCache[key := Entry(c, path)];
        assert imageFiles == imageFiles[c := [FileName(c)]];
        return;
      }
      var files := GetImageFiles(c);
      if |files| == 0 {
        // script.js caches an empty path here (lines 40-47); a list never comes back empty.
        assert false;
      }
      // Math.floor(Math.random() * files.length) with a one-element list.
      var randomIndex := 0;
      path := ResourcesPath + [c] + "/" + files[randomIndex];
      digitCache := digitCache[key := Entry(c, path)];
    }

    /**
     * The images of `text` (a value's decimal string), its i-th character
     * resolved at slot (t, i), left to right.
     */
    method NumberToImages(text: string, t: SlotType) returns (pieces: seq<Piece>)
      requires Valid()
      modifies this`imageFiles, this`digitCache, this`log
      ensures Valid()
      ensures pieces == Imgs(text)
      ensures log == old(log) + SlotLog(t, text)
      ensures digitCache == Apply(old(digitCache), SlotLog(t, text))
      ensures imageFiles.Keys == old(imageFiles).Keys + Chars(SlotLog(t, text))
    {
      ghost var cache0, log0, keys0 := digitCache, log, imageFiles.Keys;
      pieces := [];
      var i := 0;
      while i < |text|
        invariant 0 <= i <= |text|
        invariant Valid()
        invariant pieces == Imgs(text[..i])
        invariant log == log0 + SlotLog(t, text[..i])
        invariant digitCache == Apply(cache0, SlotLog(t, text[..i]))
        invariant imageFiles.Keys == keys0 + Chars(SlotLog(t, text[..i]))
      {
        ghost var done, next := SlotLog(t, text[..i]), [(SlotKey(t, i), text[i])];
        ghost var cache1 := digitCache;
        var path := GetImagePath(text[i], t, i);
        pieces := pieces + [Img(path, text[i])];
        ApplyOne(cache1, SlotKey(t, i), text[i]);
        Extend(cache0, log0, keys0, done, next);
        SlotLogSnoc(t, text, i);
        ImgsSnoc(text, i);
        i := i + 1;
      }
      assert text[..i] == text;
    }

    /** Re-resolve the fixed 十, 十 and 万 slots. */
    method EnsureSpecialImagesLoaded() returns (special: seq<Piece>)
      requires Valid()
      modifies this`imageFiles, this`digitCache, this`log
      ensures Valid()
      ensures special == [Img(ImagePath('十'), '十'), Img(ImagePath('十'), '十'), Img(ImagePath('万'), '万')]
      ensures log == old(log) + FixedLog()
      ensures digitCache == Apply(old(digitCache), FixedLog())
      ensures imageFiles.Keys == old(imageFiles).Keys + Chars(FixedLog())
    {
      ghost var cache0, log0 := digitCache, log;
      var p1 := GetImagePath('十', Ten1, 0);
      var p2 := GetImagePath('十', Ten2, 0);
      var p3 := GetImagePath('万', Wan, 0);
      special := [Img(p1, '十'), Img(p2, '十'), Img(p3, '万')];
      FixedLogEffect(cache0, log0);
    }

    /** Build the date block: year 年 month 月 day 日. */
    method RenderDate(f: Fields) returns (pieces: seq<Piece>)
      requires Valid()
      modifies this`imageFiles, this`digitCache, this`log
      ensures Valid()
      ensures pieces == DateBlock(f)
      ensures log == old(log) + DateLog(f)
      ensures digitCache == Apply(old(digitCache), DateLog(f))
      ensures imageFiles.Keys == old(imageFiles).Keys + Chars(DateLog(f))
    {
      ghost var cache0, log0, keys0 := digitCache, log, imageFiles.Keys;
      ghost var a, b, c := SlotLog(Year, IntToString(f.year)), SlotLog(Month, Pad2(f.month)), SlotLog(Day, Pad2(f.day));
      var v1 := NumberToImages(IntToString(f.year), Year);
      var v2 := NumberToImages(Pad2(f.month), Month);
      Extend(cache0, log0, keys0, a, b);
      var v3 := NumberToImages(Pad2(f.day), Day);
      Extend(cache0, log0, keys0, a + b, c);
      pieces := v1 + [Text("年")] + v2 + [Text("月")] + v3 + [Text("日")];
    }

    /** Build the time block: hour:minute:second. */
    method RenderTime(f: Fields) returns (pieces: seq<Piece>)
      requires Valid()
      modifies this`imageFiles, this`digitCache, this`log
      ensures Valid()
      ensures pieces == TimeBlock(f)
      ensures log == old(log) + TimeLog(f)
      ensures digitCache == Apply(old(digitCache), TimeLog(f))
      ensures imageFiles.Keys == old(imageFiles).Keys + Chars(TimeLog(f))
    {
      ghost var cache0, log0, keys0 := digitCache, log, imageFiles.Keys;
      ghost var a, b, c := SlotLog(Hour, Pad2(f.hour)), SlotLog(Minute, Pad2(f.minute)), SlotLog(Second, Pad2(f.second));
      var v1 := NumberToImages(Pad2(f.hour), Hour);
      var v2 := NumberToImages(Pad2(f.minute), Minute);
      Extend(cache0, log0, keys0, a, b);
      var v3 := NumberToImages(Pad2(f.second), Second);
      Extend(cache0, log0, keys0, a + b, c);
      pieces := v1 + [Text(":")] + v2 + [Text(":")] + v3;
    }

    /** Build the countdown block from the milliseconds left until next New Year. */
    method RenderCountdown(diffMs: int) returns (pieces: seq<Piece>)
      requires Valid()
      modifies this`imageFiles, this`digitCache, this`log
      ensures Valid()
      ensures pieces == CountdownBlock(diffMs)
      ensures log == old(log) + CountdownLog(diffMs)
      ensures digitCache == Apply(old(digitCache), CountdownLog(diffMs))
      ensures imageFiles.Keys == old(imageFiles).Keys + Chars(CountdownLog(diffMs))
    {
      var diffDays := DaysLeft(diffMs);
      var days := NumberToImages(IntToString(diffDays), Countdown);
      pieces := [Text("距离明年还剩")] + days + [Text("天")];
    }

    /** Rebuild the date, time and countdown blocks, in that order. */
    method RebuildBlocks(f: Fields, diffMs: int) returns (blocks: Blocks)
      requires Valid()
      modifies this`imageFiles, this`digitCache, this`log
      ensures Valid()
      ensures blocks == Blocks(DateBlock(f), TimeBlock(f), CountdownBlock(diffMs))
      ensures log == old(log) + BlocksLog(f, diffMs)
      ensures digitCache == Apply(old(digitCache), BlocksLog(f, diffMs))
      ensures imageFiles.Keys == old(imageFiles).Keys + Chars(BlocksLog(f, diffMs))
    {
      ghost var cache0, log0, keys0 := digitCache, log, imageFiles.Keys;
      var date := RenderDate(f);
      var time := RenderTime(f);
      Extend(cache0, log0, keys0, DateLog(f), TimeLog(f));
      var countdown := RenderCountdown(diffMs);
      Extend(cache0, log0, keys0, DateLog(f) + TimeLog(f), CountdownLog(diffMs));
      blocks := Blocks(date, time, countdown);
    }

    /**
     * The dirty check: rebuild the blocks only when the fingerprint of `f`
     * differs from the one last shown, and remember the new fingerprint.
     */
    method RefreshBlocks(f: Fields, diffMs: int) returns (blocks: Option<Blocks>)
      requires Valid()
      modifies this
      ensures Valid()
      ensures currentFullTime == FullTime(f)
      ensures blocks.Some? <==> FullTime(f) != old(currentFullTime)
      ensures blocks.Some? ==>
        && blocks.value == Blocks(DateBlock(f), TimeBlock(f), CountdownBlock(diffMs))
        && log == old(log) + BlocksLog(f, diffMs)
        && digitCache == Apply(old(digitCache), BlocksLog(f, diffMs))
        && imageFiles.Keys == old(imageFiles).Keys + Chars(BlocksLog(f, diffMs))
      ensures blocks.None? ==> log == old(log) && digitCache == old(digitCache) && imageFiles == old(imageFiles)
    {
      var fullTime := FullTime(f);
      blocks := None;
      if fullTime != currentFullTime {
        currentFullTime := fullTime;
        var rebuilt := RebuildBlocks(f, diffMs);
        blocks := Some(rebuilt);
      }
    }

    /**
     * One clock tick with the given fields and milliseconds to next New Year:
     * the blocks are rebuilt only when the fingerprint changed; the fixed
     * glyph slots are re-resolved either way.
     */
    method UpdateDateTime(f: Fields, diffMs: int) returns (blocks: Option<Blocks>, special: seq<Piece>)
      requires Valid()
      modifies this
      ensures Valid()
      ensures currentFullTime == FullTime(f)
      ensures blocks.Some? <==> FullTime(f) != old(currentFullTime)
      ensures blocks.Some? ==> blocks.value == Blocks(DateBlock(f), TimeBlock(f), CountdownBlock(diffMs))
      ensures special == [Img(ImagePath('十'), '十'), Img(ImagePath('十'), '十'), Img(ImagePath('万'), '万')]
      ensures blocks.Some? ==>
        && log == old(log) + BlocksLog(f, diffMs) + FixedLog()
        && digitCache == Apply(old(digitCache), BlocksLog(f, diffMs) + FixedLog())
        && imageFiles.Keys == old(imageFiles).Keys + Chars(BlocksLog(f, diffMs) + FixedLog())
      ensures blocks.None? ==>
        && log == old(log) + FixedLog()
        && digitCache == Apply(old(digitCache), FixedLog())
        && imageFiles.Keys == old(imageFiles).Keys + Chars(FixedLog())
    {
      ghost var cache0, log0, keys0 := digitCache, log, imageFiles.Keys;
      blocks := RefreshBlocks(f, diffMs);
      special := EnsureSpecialImagesLoaded();
      if blocks.Some? {
        Extend(cache0, log0, keys0, BlocksLog(f, diffMs), FixedLog());
      }
    }
  }

  /**
   * Page load followed by two ticks within one second: the first tick builds
   * the blocks (the initial fingerprint is empty), the second rebuilds
   * nothing, and both re-resolve the fixed glyphs.
   */
  method LoadAndTickTwice(f: Fields, diffMs: int, laterMs: int)
    returns (first: Option<Blocks>, second: Option<Blocks>, special1: seq<Piece>, special2: seq<Piece>)
    ensures first == Some(Blocks(DateBlock(f), TimeBlock(f), CountdownBlock(diffMs)))
    ensures second == None
    ensures special1 == [Img(ImagePath('十'), '十'), Img(ImagePath('十'), '十'), Img(ImagePath('万'), '万')]
    ensures special2 == special1
  {
    var engine := new Engine();
    first, special1 := engine.UpdateDateTime(f, diffMs);
    second, special2 := engine.UpdateDateTime(f, laterMs);
  }
}
