/**
 Decimal integers as lintblame reads and writes them: `strconv.ParseInt(s, 10, 0)`
 on a 64-bit platform, and the `%d` verb of `fmt.Sprintf`.
 */
module Decimal {
  import opened Wrappers

  /** Bounds of Go's `int` on a 64-bit platform, the width `ParseInt(_, 10, 0)` checks. */
  const MinInt: int := -0x8000_0000_0000_0000
  const MaxInt: int := 0x7FFF_FFFF_FFFF_FFFF

  predicate IsDigit(c: char)
  {
    '0' <= c <= '9'
  }

  /** A non-empty run of decimal digits: what the capture group `(\d+)` yields. */
  predicate IsDigits(s: string)
  {
    |s| > 0 && forall i :: 0 <= i < |s| ==> IsDigit(s[i])
  }

  function DigitValue(c: char): nat
    requires IsDigit(c)
  {
    c as int - '0' as int
  }

  function DigitChar(d: nat): (c: char)
    requires d < 10
    ensures IsDigit(c) && DigitValue(c) == d
  {
    ('0' as int + d) as char
  }

  /** The number a digit string denotes, most significant digit first. */
  function Value(s: string): nat
    requires forall i :: 0 <= i < |s| ==> IsDigit(s[i])
  {
    if |s| == 0 then 0 else 10 * Value(s[..|s| - 1]) + DigitValue(s[|s| - 1])
  }

  /** The shortest decimal spelling of `n`. */
  function Format(n: nat): (s: string)
    ensures IsDigits(s)
  {
    if n < 10 then [DigitChar(n)] else Format(n / 10) + [DigitChar(n % 10)]
  }

  /** `fmt.Sprintf("%d", n)`: a minus sign before the digits of a negative number. */
  function FormatInt(n: int): (s: string)
    ensures |s| > 0 && ':' !in s
  {
    if n < 0 then "-" + Format(-n) else Format(n)
  }

  /**
   `strconv.ParseInt(s, 10, 0)` with 64-bit `int`: an optional sign, then one or
   more decimal digits, and the value must fit the width. Every failure (syntax
   or range) is `None`.
   */
  function ParseInt(s: string): (r: Option<int>)
    ensures r.Some? ==> MinInt <= r.value <= MaxInt
    ensures IsDigits(s) ==> r == (if Value(s) <= MaxInt then Some(Value(s)) else None)
    ensures |s| == 0 ==> r.None?
  {
    var negative := |s| > 0 && s[0] == '-';
    var digits := if |s| > 0 && (s[0] == '+' || s[0] == '-') then s[1..] else s;
    if !IsDigits(digits) then None
    else
      var magnitude: int := Value(digits);
      var v := if negative then -magnitude else magnitude;
      if v < MinInt || v > MaxInt then None else Some(v)
  }

  lemma {:induction false} ValueFormat(n: nat)
    ensures Value(Format(n)) == n
  {
    if n >= 10 {
      var s := Format(n);
      assert s[..|s| - 1] == Format(n / 10);
      ValueFormat(n / 10);
    }
  }

  /** A minus sign before a digit string negates its value, within the 64-bit range. */
  lemma ParseNegative(d: string)
    requires IsDigits(d)
    ensures ParseInt("-" + d) == if Value(d) <= -MinInt then Some(-(Value(d) as int)) else None
  {
    var s := "-" + d;
    assert s[0] == '-' && s[1..] == d;
  }

  /** Parsing what `%d` prints gives the number back, for every 64-bit value. */
  lemma ParseFormatInt(n: int)
    requires MinInt <= n <= MaxInt
    ensures ParseInt(FormatInt(n)) == Some(n)
  {
    if n < 0 {
      ValueFormat(-n);
      ParseNegative(Format(-n));
    } else {
      ValueFormat(n);
    }
  }
}
