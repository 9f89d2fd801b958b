/** Decimal numerals: `String(n)` and `parseInt(s, 10)` on digit strings. */
module Decimal {

  predicate IsDigit(c: char) {
    '0' <= c <= '9'
  }

  predicate AllDigits(s: string) {
    forall i :: 0 <= i < |s| ==> IsDigit(s[i])
  }

  function FromNat(n: nat): string {
    var last := [(n % 10 + 48) as char];
    if n < 10 then last else FromNat(n / 10) + last
  }

  function ToNat(s: string): nat
    requires AllDigits(s)
  {
    if s == [] then 0 else ToNat(s[..|s| - 1]) * 10 + (s[|s| - 1] as int - 48)
  }

  /** Each further digit counts one, and what precedes it ten times. */
  lemma DecimalPlaces(s: string, c: char)
    requires AllDigits(s) && IsDigit(c)
    ensures AllDigits(s + [c]) && ToNat(s + [c]) == 10 * ToNat(s) + (c as int - '0' as int)
    ensures AllDigits("") && ToNat("") == 0
  {
    assert (s + [c])[..|s|] == s;
  }

  /** The longest prefix made of digits. */
  function DigitPrefix(s: string): (d: string)
    ensures d <= s && AllDigits(d)
    ensures |d| < |s| ==> !IsDigit(s[|d|])
  {
    if s != [] && IsDigit(s[0]) then [s[0]] + DigitPrefix(s[1..]) else []
  }

  lemma {:induction false} DigitPrefixIs(d: string, rest: string)
    requires AllDigits(d) && (rest != [] ==> !IsDigit(rest[0]))
    ensures DigitPrefix(d + rest) == d
  {
    if d == [] {
      assert d + rest == rest;
    } else {
      assert (d + rest)[1..] == d[1..] + rest && d == [d[0]] + d[1..];
      DigitPrefixIs(d[1..], rest);
    }
  }

  /** A numeral has no superfluous leading zero and stands for its number. */
  lemma {:induction false} NumeralOf(n: nat)
    ensures var s := FromNat(n);
      s != [] && AllDigits(s) && ToNat(s) == n && (|s| > 1 ==> s[0] != '0') && (s[0] == '0' ==> n == 0)
  {
    if n >= 10 {
      var head := FromNat(n / 10);
      NumeralOf(n / 10);
      assert FromNat(n)[..|head|] == head;
    }
  }
}
