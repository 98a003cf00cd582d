/**
 * Decimal text of integers: JavaScript's `Number.prototype.toString()` on an integral
 * number (used by `userId.toString()` and by every template literal that embeds an id),
 * and its inverse on canonical text.
 */
module Decimal {
  import opened Wrappers

  predicate IsDigit(c: char) {
    '0' <= c <= '9'
  }

  predicate AllDigits(s: string) {
    forall i :: 0 <= i < |s| ==> IsDigit(s[i])
  }

  function DigitValue(c: char): (d: nat)
    requires IsDigit(c)
    ensures d < 10
  {
    c as int - '0' as int
  }

  function DigitChar(d: nat): (c: char)
    requires d < 10
    ensures IsDigit(c) && DigitValue(c) == d
  {
    (d + '0' as int) as char
  }

  /** The number a string of decimal digits denotes, most significant digit first. */
  function DigitsValue(s: string): nat
    requires AllDigits(s)
  {
    if s == [] then 0 else 10 * DigitsValue(s[..|s| - 1]) + DigitValue(s[|s| - 1])
  }

  /** Non-empty decimal digits with no leading zero, except "0" itself. */
  predicate IsCanonicalNat(s: string) {
    |s| > 0 && AllDigits(s) && (s[0] == '0' ==> |s| == 1)
  }

  /** The decimal text of a natural number. */
  function NatToString(n: nat): (s: string)
    ensures IsCanonicalNat(s) && DigitsValue(s) == n
    ensures s[0] == '0' <==> n == 0
  {
    if n < 10 then [DigitChar(n)]
    else
      var t := NatToString(n / 10);
      var s := t + [DigitChar(n % 10)];
      assert s[..|s| - 1] == t;
      s
  }

  /** The decimal text of an integer: a minus sign for negative numbers, then the digits. */
  function IntToString(n: int): (s: string)
    ensures |s| > 0
    ensures forall i :: 0 <= i < |s| ==> s[i] == '-' || IsDigit(s[i])
    ensures ParseId(s) == Some(n)
  {
    if n < 0 then
      var t := NatToString(-n);
      var s := "-" + t;
      assert s[1..] == t;
      s
    else NatToString(n)
  }

  /**
   * The integer whose decimal text is exactly `s`, if there is one. Leading zeros, a
   * plus sign, "-0", blanks and anything else `IntToString` never produces are refused.
   */
  function ParseId(s: string): Option<int>
  {
    if |s| > 0 && s[0] == '-' then
      if IsCanonicalNat(s[1..]) && s[1] != '0' then Some(0 - DigitsValue(s[1..])) else None
    else if IsCanonicalNat(s) then Some(DigitsValue(s))
    else None
  }

  lemma {:induction false} LeadingDigitPositive(s: string)
    requires IsCanonicalNat(s) && s[0] != '0'
    ensures DigitsValue(s) > 0
  {
    if |s| > 1 {
      var p := s[..|s| - 1];
      assert p[0] == s[0];
      LeadingDigitPositive(p);
    }
  }

  lemma DivMod10(q: nat, d: nat)
    requires d < 10
    ensures (10 * q + d) / 10 == q && (10 * q + d) % 10 == d
  {
  }

  /** Canonical digit text is the decimal text of the number it denotes. */
  lemma {:induction false} CanonicalRoundTrip(s: string)
    requires IsCanonicalNat(s)
    ensures NatToString(DigitsValue(s)) == s
  {
    if |s| > 1 {
      var p := s[..|s| - 1];
      assert p[0] == s[0];
      LeadingDigitPositive(p);
      CanonicalRoundTrip(p);
      var d := DigitValue(s[|s| - 1]);
      var v := DigitsValue(s);
      assert v == 10 * DigitsValue(p) + d;
      DivMod10(DigitsValue(p), d);
      assert s == p + [DigitChar(d)];
    }
  }

  /** ParseId accepts only the decimal text of the integer it returns. */
  lemma ParseIdSound(s: string, n: int)
    requires ParseId(s) == Some(n)
    ensures s == IntToString(n)
  {
    if |s| > 0 && s[0] == '-' {
      var t := s[1..];
      assert t[0] == s[1];
      LeadingDigitPositive(t);
      CanonicalRoundTrip(t);
      assert s == "-" + t;
    } else {
      CanonicalRoundTrip(s);
    }
  }

  /** Distinct integers have distinct decimal texts. */
  lemma IntToStringInjective(m: int, n: int)
    requires IntToString(m) == IntToString(n)
    ensures m == n
  {
  }
}
