/**
 * The per-tick clock fields, the fingerprint string that decides whether the
 * date, time and countdown blocks are rebuilt, and the days-left countdown.
 * The host clock is not modelled: the fields and the millisecond distance to
 * the next New Year's midnight are inputs.
 */
module Clock {
  import opened Decimal

  /** What one reading of the host clock yields (month is 1-based). */
  datatype Fields = Fields(year: int, month: int, day: int, hour: int, minute: int, second: int)

  /** The fields that are padded to two characters fit in two digits. */
  predicate TwoDigitFields(f: Fields)
  {
    && 0 <= f.month <= 99 && 0 <= f.day <= 99
    && 0 <= f.hour <= 99 && 0 <= f.minute <= 99 && 0 <= f.second <= 99
  }

  /** The fingerprint: the unpadded year followed by the five padded fields. */
  function FullTime(f: Fields): (r: string)
    ensures |r| >= 11
  {
    IntToString(f.year) + Pad2(f.month) + Pad2(f.day) + Pad2(f.hour) + Pad2(f.minute) + Pad2(f.second)
  }

  /** Two concatenations with equally long tails are equal piece by piece. */
  lemma ConcatCancel(a: string, p: string, b: string, q: string)
    requires a + p == b + q && |p| == |q|
    ensures a == b && p == q
  {
    assert a == (a + p)[..|a|];
    assert b == (b + q)[..|b|];
    assert p == (a + p)[|a|..];
    assert q == (b + q)[|b|..];
  }

  /** Equal fingerprints mean equal clock fields. */
  lemma FullTimeInjective(f: Fields, g: Fields)
    requires TwoDigitFields(f) && TwoDigitFields(g)
    requires FullTime(f) == FullTime(g)
    ensures f == g
  {
    Pad2Width(f.month); Pad2Width(f.day); Pad2Width(f.hour); Pad2Width(f.minute); Pad2Width(f.second);
    Pad2Width(g.month); Pad2Width(g.day); Pad2Width(g.hour); Pad2Width(g.minute); Pad2Width(g.second);
    var y, y' := IntToString(f.year), IntToString(g.year);
    var mo, mo' := y + Pad2(f.month), y' + Pad2(g.month);
    var d, d' := mo + Pad2(f.day), mo' + Pad2(g.day);
    var h, h' := d + Pad2(f.hour), d' + Pad2(g.hour);
    var mi, mi' := h + Pad2(f.minute), h' + Pad2(g.minute);
    ConcatCancel(mi, Pad2(f.second), mi', Pad2(g.second));
    ConcatCancel(h, Pad2(f.minute), h', Pad2(g.minute));
    ConcatCancel(d, Pad2(f.hour), d', Pad2(g.hour));
    ConcatCancel(mo, Pad2(f.day), mo', Pad2(g.day));
    ConcatCancel(y, Pad2(f.month), y', Pad2(g.month));
    IntToStringInjective(f.year, g.year);
    Pad2Injective(f.month, g.month);
    Pad2Injective(f.day, g.day);
    Pad2Injective(f.hour, g.hour);
    Pad2Injective(f.minute, g.minute);
    Pad2Injective(f.second, g.second);
  }

  /** A tick rebuilds the blocks exactly when its fields differ from the ones last shown. */
  lemma FingerprintChangesIffFieldsChange(shown: Fields, now: Fields)
    requires TwoDigitFields(shown) && TwoDigitFields(now)
    ensures FullTime(now) != FullTime(shown) <==> now != shown
  {
    if FullTime(now) == FullTime(shown) {
      FullTimeInjective(now, shown);
    }
  }

  const MsPerDay: int := 1000 * 60 * 60 * 24

  /** `Math.ceil(d / m)` for integers, `m` positive: the least `r` with `d <= r * m`. */
  function CeilDiv(d: int, m: int): (r: int)
    requires m > 0
    ensures (r - 1) * m < d <= r * m
  {
    var q := (d + m - 1) / m;
    assert d + m - 1 == q * m + (d + m - 1) % m;
    assert (q - 1) * m == q * m - m;
    q
  }

  /** The bracket of `CeilDiv` has one solution only. */
  lemma CeilDivUnique(d: int, m: int, r: int)
    requires m > 0
    requires (r - 1) * m < d <= r * m
    ensures r == CeilDiv(d, m)
  {
  }

  /** The countdown: whole days, rounded up, from now to next New Year's midnight. */
  function DaysLeft(diffMs: int): int
  {
    CeilDiv(diffMs, MsPerDay)
  }

  /** Less than a full day before New Year (e.g. 23:59:59 on Dec 31) shows 1. */
  lemma DaysLeftLastDay(diffMs: int)
    requires 0 < diffMs <= MsPerDay
    ensures DaysLeft(diffMs) == 1
  {
  }

  /** The countdown never shows fewer days than remain, nor a whole day more. */
  lemma DaysLeftBracket(diffMs: int)
    ensures (DaysLeft(diffMs) - 1) * MsPerDay < diffMs <= DaysLeft(diffMs) * MsPerDay
    ensures diffMs > 0 ==> DaysLeft(diffMs) >= 1
  {
  }
}
