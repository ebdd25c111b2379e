/**
 * Decimal numerals as the display produces them: `String(n)` for an integer
 * and `padStart(width, fill)` on the resulting string, together with a
 * parser that reads a numeral back so that the round trips can be stated.
 */
module Decimal {

  /** The numeral character for a single decimal digit. */
  function DigitChar(d: nat): (c: char)
    requires d < 10
    ensures '0' <= c <= '9'
    ensures DigitValue(c) == d
  {
    (('0' as int) + d) as char
  }

  /** The value of a numeral character. */
  function DigitValue(c: char): nat
    requires '0' <= c <= '9'
  {
    c as int - '0' as int
  }

  predicate IsDigits(s: string)
  {
    forall i :: 0 <= i < |s| ==> '0' <= s[i] <= '9'
  }

  /**
   * `String(n)` for a non-negative integer: the shortest decimal numeral,
   * most significant digit first, with no leading zero.
   */
  function NatToString(n: nat): (s: string)
    ensures |s| >= 1 && IsDigits(s)
    ensures |s| == 1 <==> n < 10
    ensures s[0] == '0' ==> n == 0
    decreases n
  {
    if n < 10 then [DigitChar(n)] else NatToString(n / 10) + [DigitChar(n % 10)]
  }

  /** The value denoted by a string of digits (leading zeros allowed). */
  function ParseDigits(s: string): nat
    requires IsDigits(s)
    decreases |s|
  {
    if s == [] then 0 else ParseDigits(s[..|s| - 1]) * 10 + DigitValue(s[|s| - 1])
  }

  /** Reading back `String(n)` gives `n`. */
  lemma {:induction false} ParseNatToString(n: nat)
    ensures ParseDigits(NatToString(n)) == n
    decreases n
  {
    if n >= 10 {
      var s := NatToString(n);
      ParseNatToString(n / 10);
      assert s[..|s| - 1] == NatToString(n / 10);
    }
  }

  lemma NatToStringInjective(m: nat, n: nat)
    requires NatToString(m) == NatToString(n)
    ensures m == n
  {
    ParseNatToString(m);
    ParseNatToString(n);
  }

  /** `String(i)` for any integer: a minus sign before the magnitude when negative. */
  function IntToString(i: int): (s: string)
    ensures |s| >= 1
    ensures i >= 0 ==> IsDigits(s) && s == NatToString(i)
    ensures i < 0 <==> s[0] == '-'
  {
    if i < 0 then "-" + NatToString(-i) else NatToString(i)
  }

  /** A numeral as `IntToString` produces it: optional minus sign, then digits. */
  predicate IsNumeral(s: string)
  {
    |s| >= 1 && (IsDigits(s) || (s[0] == '-' && IsDigits(s[1..])))
  }

  function ParseInt(s: string): int
    requires IsNumeral(s)
  {
    if s[0] == '-' then -(ParseDigits(s[1..]) as int) else ParseDigits(s)
  }

  /** Reading back `String(i)` gives `i`. */
  lemma ParseIntToString(i: int)
    ensures IsNumeral(IntToString(i))
    ensures ParseInt(IntToString(i)) == i
  {
    var s := IntToString(i);
    if i < 0 {
      var m: nat := -i;
      assert s == "-" + NatToString(m);
      assert s[1..] == NatToString(m);
      ParseNatToString(m);
    } else {
      ParseNatToString(i);
    }
  }

  /** Two integers with the same numeral are equal. */
  lemma IntToStringInjective(i: int, j: int)
    requires IntToString(i) == IntToString(j)
    ensures i == j
  {
    ParseIntToString(i);
    ParseIntToString(j);
  }

  /**
   * `s.padStart(width, fill)` with a one-character fill: `s` itself when it is
   * already at least `width` long, otherwise `s` preceded by enough copies of
   * `fill` to reach `width`.
   */
  function PadStart(s: string, width: nat, fill: char): (r: string)
    ensures |r| == if |s| >= width then |s| else width
    ensures r[|r| - |s|..] == s
    ensures forall i :: 0 <= i < |r| - |s| ==> r[i] == fill
  {
    if |s| >= width then s else seq(width - |s|, _ => fill) + s
  }

  /** `String(v).padStart(2, '0')`, the format of every clock field but the year. */
  function Pad2(v: int): (r: string)
    ensures |r| >= 2
  {
    PadStart(IntToString(v), 2, '0')
  }

  /** A numeral of one character gets a '0' in front; a longer one is kept as it is. */
  lemma Pad2Numeral(v: int)
    ensures |IntToString(v)| >= 2 ==> Pad2(v) == IntToString(v)
    ensures |IntToString(v)| < 2 ==> Pad2(v) == "0" + IntToString(v)
  {
  }

  /** A field in 0..99 becomes exactly two digits that read back as the field. */
  lemma {:induction false} Pad2Width(v: int)
    requires 0 <= v <= 99
    ensures |Pad2(v)| == 2 && IsDigits(Pad2(v))
    ensures ParseDigits(Pad2(v)) == v
  {
    var s := NatToString(v);
    if v < 10 {
      assert Pad2(v) == ['0', DigitChar(v)];
      assert Pad2(v)[..1] == ['0'];
      assert ParseDigits(['0']) == 0;
    } else {
      assert NatToString(v / 10) == [DigitChar(v / 10)];
      assert Pad2(v) == s;
      ParseNatToString(v);
    }
  }

  /** Padding leaves a numeral of two or more digits unchanged. */
  lemma Pad2Unchanged(v: int)
    requires v >= 10
    ensures Pad2(v) == IntToString(v)
  {
  }

  /** Two fields in 0..99 with the same padded text are equal. */
  lemma Pad2Injective(u: int, v: int)
    requires 0 <= u <= 99 && 0 <= v <= 99
    requires Pad2(u) == Pad2(v)
    ensures u == v
  {
    Pad2Width(u);
    Pad2Width(v);
  }

  /** A month or day of 3 is shown as "03"; the year is never padded. */
  lemma PaddingExamples()
    ensures Pad2(3) == "03" && Pad2(34) == "34"
    ensures IntToString(2024) == "2024"
  {
    assert NatToString(3) == "3";
    assert NatToString(34) == "34";
    assert NatToString(2024) == NatToString(202) + "4";
    assert NatToString(202) == "202";
  }
}
