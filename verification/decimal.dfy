/**
  Decimal literals: the part of Python's `float()` that the parsers need.

  `float(tok)` is a foreign call in the source; here it is a recogniser for
  an optional sign, a run of digits and an optional fractional part, with
  the value computed exactly over `real` (no binary rounding).
 */
module Decimal {
  import opened Wrappers
  import opened Text

  /** 10^n as an exact real. */
  function Pow10(n: nat): (r: real)
    ensures r >= 1.0
  {
    if n == 0 then 1.0 else 10.0 * Pow10(n - 1)
  }

  predicate IsDigit(c: char) {
    '0' <= c <= '9'
  }

  predicate AllDigits(s: string) {
    forall i :: 0 <= i < |s| ==> IsDigit(s[i])
  }

  function DigitValue(c: char): (d: nat)
    requires IsDigit(c)
    ensures d < 10
  {
    (c as int) - ('0' as int)
  }

  function DigitChar(d: nat): (c: char)
    requires d < 10
    ensures IsDigit(c) && DigitValue(c) == d
  {
    (('0' as int) + d) as char
  }

  /** The number a run of decimal digits denotes, most significant first. */
  function DigitsValue(s: string): nat
    requires AllDigits(s)
  {
    if |s| == 0 then 0 else DigitsValue(s[..|s| - 1]) * 10 + DigitValue(s[|s| - 1])
  }

  /** The value of the literal `whole.frac`. */
  function PointValue(whole: string, frac: string): (v: real)
    requires AllDigits(whole) && AllDigits(frac)
    ensures v >= 0.0
  {
    DigitsValue(whole) as real + DigitsValue(frac) as real / Pow10(|frac|)
  }

  /** `digits`, `digits.`, `.digits` or `digits.digits`, with at least one digit. */
  function ParseUnsigned(s: string): (r: Option<real>)
    ensures r.Some? ==> |s| > 0 && r.value >= 0.0
  {
    var parts := Split(s, ".");
    if |parts| == 1 then
      if |s| > 0 && AllDigits(s) then Some(DigitsValue(s) as real) else None
    else if |parts| == 2 && AllDigits(parts[0]) && AllDigits(parts[1]) && |parts[0]| + |parts[1]| > 0 then
      Some(PointValue(parts[0], parts[1]))
    else None
  }

  /** `float(s)` restricted to plain decimal literals; None where Python raises ValueError. */
  function ParseFloat(s: string): (r: Option<real>)
    ensures r.Some? ==> |s| > 0
    ensures r.Some? && r.value < 0.0 ==> s[0] == '-'
    ensures r.Some? && s[0] == '-' ==> r.value <= 0.0
  {
    if |s| > 0 && s[0] == '-' then
      match ParseUnsigned(s[1..])
      case Some(v) => Some(-v)
      case None => None
    else if |s| > 0 && s[0] == '+' then ParseUnsigned(s[1..])
    else ParseUnsigned(s)
  }

  /** The shortest decimal rendering of a natural number (`str(n)`). */
  function NatText(n: nat): (s: string)
    ensures |s| > 0 && AllDigits(s)
  {
    if n < 10 then [DigitChar(n)] else NatText(n / 10) + [DigitChar(n % 10)]
  }

  // ---------------------------------------------------------------------
  // Laws

  lemma {:induction false} NatTextValue(n: nat)
    ensures DigitsValue(NatText(n)) == n
  {
    if n >= 10 {
      var s := NatText(n);
      NatTextValue(n / 10);
      assert s[..|s| - 1] == NatText(n / 10);
    }
  }

  lemma DigitsHaveNoPoint(s: string)
    requires AllDigits(s)
    ensures !HasChar(s, '.')
  {
  }

  /** `float(str(n)) == n` */
  lemma NatTextRoundTrip(n: nat)
    ensures ParseFloat(NatText(n)) == Some(n as real)
  {
    var s := NatText(n);
    DigitsHaveNoPoint(s);
    SplitNoSeparator(s, ".");
    NatTextValue(n);
  }

  /** `float("-" + str(n)) == -n` */
  lemma NegativeRoundTrip(n: nat)
    ensures ParseFloat("-" + NatText(n)) == Some(-(n as real))
  {
    var s := "-" + NatText(n);
    assert s[1..] == NatText(n);
    NatTextRoundTrip(n);
  }

  /** A literal with one decimal point denotes its whole part plus its fraction. */
  lemma TwoPartValue(s: string, whole: string, frac: string)
    requires Split(s, ".") == [whole, frac]
    requires AllDigits(whole) && AllDigits(frac) && |whole| > 0
    ensures ParseUnsigned(s) == Some(PointValue(whole, frac))
  {
  }

  /** `float(str(n) + "." + frac)` is `n` plus the fraction the digits denote. */
  lemma FractionRoundTrip(n: nat, frac: string)
    requires AllDigits(frac)
    ensures ParseFloat(NatText(n) + "." + frac) == Some(PointValue(NatText(n), frac))
    ensures PointValue(NatText(n), frac) == n as real + DigitsValue(frac) as real / Pow10(|frac|)
  {
    var whole := NatText(n);
    var s := whole + "." + frac;
    assert Split(s, ".") == [whole, frac] by {
      DigitsHaveNoPoint(whole);
      DigitsHaveNoPoint(frac);
      SplitAfterPiece(whole, ".", frac);
      SplitNoSeparator(frac, ".");
    }
    assert ParseFloat(s) == ParseUnsigned(s) by {
      assert s[0] == whole[0] && IsDigit(s[0]);
    }
    TwoPartValue(s, whole, frac);
    NatTextValue(n);
  }
}
