/**
 * The JavaScript number/string coercions the pagination control relies on:
 * `n + ''` for an integer-valued number, unary `+s` for the strings the
 * control stores, and the digit filter `s.replace(/[^\d]+/g, '')`.
 */
module Coercion {

  predicate IsDigit(ch: char) {
    '0' <= ch <= '9'
  }

  predicate AllDigits(s: string) {
    forall i :: 0 <= i < |s| ==> IsDigit(s[i])
  }

  function DigitValue(ch: char): (d: nat)
    requires IsDigit(ch)
    ensures d < 10
  {
    ch as int - '0' as int
  }

  function DigitChar(d: nat): (ch: char)
    requires d < 10
    ensures IsDigit(ch) && DigitValue(ch) == d
  {
    ('0' as int + d) as char
  }

  /** The number a string of decimal digits denotes; "" denotes 0 and leading zeros are allowed. */
  function DigitsValue(s: string): nat
    requires AllDigits(s)
  {
    if s == "" then 0 else 10 * DigitsValue(s[..|s| - 1]) + DigitValue(s[|s| - 1])
  }

  /** Decimal form of a natural number, without leading zeros. */
  function NatToString(n: nat): (r: string)
    ensures |r| >= 1 && AllDigits(r)
    ensures DigitsValue(r) == n
    ensures r[0] == '0' ==> r == "0"
  {
    if n < 10 then [DigitChar(n)]
    else
      var prefix := NatToString(n / 10);
      var r := prefix + [DigitChar(n % 10)];
      assert r[..|r| - 1] == prefix;
      r
  }

  /** `n + ''` for an integer-valued JavaScript number. */
  function IntToString(n: int): (r: string)
    ensures r != ""
    ensures n >= 0 ==> AllDigits(r) && DigitsValue(r) == n
    ensures n >= 0 ==> (r[0] == '0' ==> r == "0")
    ensures n < 0 ==> r[0] == '-'
  {
    if n < 0 then "-" + NatToString(-n) else NatToString(n)
  }

  /**
   * Unary `+s`: "" is 0, a digit string is its value, '-' followed by digits is
   * the negated value; every other string gives 0 (see README, Left out).
   */
  function ToNumber(s: string): (n: int)
    ensures AllDigits(s) ==> n == DigitsValue(s)
    ensures |s| >= 2 && s[0] == '-' && AllDigits(s[1..]) ==> n == -(DigitsValue(s[1..]) as int)
    ensures n != 0 ==> AllDigits(s) || (|s| >= 2 && s[0] == '-' && AllDigits(s[1..]))
  {
    if AllDigits(s) then DigitsValue(s)
    else if |s| >= 2 && s[0] == '-' && AllDigits(s[1..]) then 0 - DigitsValue(s[1..])
    else 0
  }

  /** The number-to-text-to-number round trip: `+(n + '') === n`. */
  lemma IntToStringRoundTrip(n: int)
    ensures ToNumber(IntToString(n)) == n
  {
  }

  /** `s.replace(/[^\d]+/g, '')`: the digits of s, in their order. */
  function KeepDigits(s: string): (r: string)
    ensures AllDigits(r)
    ensures |r| <= |s|
    ensures AllDigits(s) ==> r == s
  {
    if s == "" then ""
    else
      if IsDigit(s[0]) then [s[0]] + KeepDigits(s[1..]) else KeepDigits(s[1..])
  }

  /** The filter keeps every digit as often as it occurs, and nothing else. */
  lemma {:induction false} KeepDigitsCounts(s: string)
    ensures forall ch :: IsDigit(ch) ==> multiset(KeepDigits(s))[ch] == multiset(s)[ch]
    ensures forall ch :: !IsDigit(ch) ==> multiset(KeepDigits(s))[ch] == 0
  {
    if s != "" {
      assert s == [s[0]] + s[1..];
      KeepDigitsCounts(s[1..]);
    }
  }

  /** The filter removes a prefix's non-digits independently of what follows. */
  lemma {:induction false} KeepDigitsAppend(a: string, b: string)
    ensures KeepDigits(a + b) == KeepDigits(a) + KeepDigits(b)
  {
    if a == "" {
      assert a + b == b;
    } else {
      var rest := a[1..] + b;
      assert a + b == [a[0]] + rest;
      KeepDigitsAppend(a[1..], b);
      var head := if IsDigit(a[0]) then [a[0]] else [];
      assert KeepDigits(a + b) == head + KeepDigits(rest);
      assert KeepDigits(a) == head + KeepDigits(a[1..]);
    }
  }
}
