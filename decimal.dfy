/** Decimal text of numbers: the part of JavaScript's number/string
    conversions that the item store relies on. `parseInt` is modelled only on
    strings made of decimal digits, and `${n}` only on integers. */
module Decimal {

  predicate IsDigit(c: char) {
    '0' <= c <= '9'
  }

  /** A non-empty run of decimal digits: the calorie text whose `parseInt` value is modelled. */
  predicate IsDigits(s: string) {
    |s| > 0 && AllDigits(s)
  }

  predicate AllDigits(s: string) {
    forall i :: 0 <= i < |s| ==> IsDigit(s[i])
  }

  function DigitValue(c: char): (d: nat)
    requires IsDigit(c)
    ensures d < 10
  {
    c as int - '0' as int
  }

  function DigitChar(d: nat): (c: char)
    requires d < 10
    ensures IsDigit(c) && DigitValue(c) == d
  {
    ('0' as int + d) as char
  }

  /** `parseInt(s)` for a string of decimal digits: a leading zero does not
      change the value, and a single digit is worth its own value. */
  function DigitsValue(s: string): (r: nat)
    requires AllDigits(s)
    ensures s != [] && s[0] == '0' ==> r == DigitsValue(s[1..])
    ensures |s| == 1 ==> r == DigitValue(s[0])
  {
    if s == [] then 0
    else
      var p := s[..|s| - 1];
      assert p != [] ==> s[1..][..|s| - 2] == p[1..];
      DigitsValue(p) * 10 + DigitValue(s[|s| - 1])
  }

  /** The decimal text of a natural number, as a template literal `${n}` writes it:
      only digits, and a leading zero only for zero itself. */
  function NatString(n: nat): (s: string)
    ensures IsDigits(s)
    ensures s[0] == '0' <==> n == 0
  {
    if n < 10 then [DigitChar(n)] else NatString(n / 10) + [DigitChar(n % 10)]
  }

  /** The decimal text of an integer: a minus sign before the digits of a negative one. */
  function IntString(i: int): (s: string)
    ensures i >= 0 ==> IsDigits(s)
    ensures i < 0 ==> |s| > 1 && s[0] == '-' && IsDigits(s[1..])
  {
    if i < 0 then "-" + NatString(-i) else NatString(i)
  }

  /** Reading back the text of a natural number gives the number. */
  lemma {:induction false} NatStringRoundTrip(n: nat)
    ensures DigitsValue(NatString(n)) == n
  {
    if n >= 10 {
      NatStringRoundTrip(n / 10);
      var s := NatString(n);
      assert s[..|s| - 1] == NatString(n / 10);
    }
  }
}
