/**
 * Decimal digit strings: the part of `parseInt(s, 10)` that the formula parser
 * and the stat input rely on, and its inverse, the decimal rendering of a number.
 */
module Decimal {

  predicate IsDigit(c: char) {
    '0' <= c <= '9'
  }

  predicate AllDigits(s: string) {
    forall i :: 0 <= i < |s| ==> IsDigit(s[i])
  }

  function DigitValue(c: char): (d: nat)
    requires IsDigit(c)
    ensures d < 10
  {
    c as int - '0' as int
  }

  function DigitChar(d: nat): (c: char)
    requires d < 10
    ensures IsDigit(c) && DigitValue(c) == d
  {
    (d + '0' as int) as char
  }

  /** The value of a string of decimal digits, most significant first. */
  function DigitsValue(s: string): nat
    requires AllDigits(s)
  {
    if s == [] then 0 else DigitsValue(s[..|s| - 1]) * 10 + DigitValue(s[|s| - 1])
  }

  /** The decimal rendering of `n`, without leading zeros (JavaScript's `String(n)`). */
  function NatToString(n: nat): (s: string)
    ensures s != [] && AllDigits(s)
    ensures s[0] != '0' || n == 0
  {
    if n < 10 then [DigitChar(n)] else NatToString(n / 10) + [DigitChar(n % 10)]
  }

  /** Reading back a rendered number gives the number. */
  lemma {:induction false} NatToStringRoundTrip(n: nat)
    ensures DigitsValue(NatToString(n)) == n
  {
    if n >= 10 {
      var s := NatToString(n);
      assert s[..|s| - 1] == NatToString(n / 10);
      NatToStringRoundTrip(n / 10);
    }
  }

  /** The length of the longest prefix of `s` made of digits (what `\d+` consumes). */
  function LeadingDigits(s: string): (n: nat)
    ensures n <= |s| && AllDigits(s[..n])
    ensures n < |s| ==> !IsDigit(s[n])
  {
    if s == [] || !IsDigit(s[0]) then 0 else 1 + LeadingDigits(s[1..])
  }

  /** The digit prefix of `ds + rest` is exactly `ds` when `rest` does not start with a digit. */
  lemma {:induction false} LeadingDigitsOf(ds: string, rest: string)
    requires AllDigits(ds)
    requires rest == [] || !IsDigit(rest[0])
    ensures LeadingDigits(ds + rest) == |ds|
  {
    if ds != [] {
      assert (ds + rest)[1..] == ds[1..] + rest;
      LeadingDigitsOf(ds[1..], rest);
    }
  }
}
