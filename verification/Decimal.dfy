/** Decimal text of integers and of fixed-point numbers with six decimals, as to_string prints them. */
module Decimal {

  predicate IsDigit(c: char) {
    '0' <= c <= '9'
  }

  function Digit(d: nat): (c: char)
    requires d < 10
    ensures IsDigit(c)
  {
    '0' + d as char
  }

  function DigitValue(c: char): nat
    requires IsDigit(c)
  {
    (c - '0') as nat
  }

  predicate AllDigits(s: string) {
    forall i :: 0 <= i < |s| ==> IsDigit(s[i])
  }

  function NatText(n: nat): (s: string)
    ensures AllDigits(s) && s != ""
  {
    if n < 10 then [Digit(n)] else NatText(n / 10) + [Digit(n % 10)]
  }

  function IntText(i: int): string {
    if i < 0 then "-" + NatText(-i) else NatText(i)
  }

  function DigitsValue(s: string): nat
    requires AllDigits(s)
  {
    if s == "" then 0 else 10 * DigitsValue(s[..|s| - 1]) + DigitValue(s[|s| - 1])
  }

  /** The last w digits of n. */
  function Padded(n: nat, w: nat): (s: string)
    ensures AllDigits(s) && |s| == w
  {
    if w == 0 then "" else Padded(n / 10, w - 1) + [Digit(n % 10)]
  }

  function Pow10(w: nat): (p: nat)
    ensures p > 0
  {
    if w == 0 then 1 else 10 * Pow10(w - 1)
  }

  lemma {:induction false} NatTextValue(n: nat)
    ensures DigitsValue(NatText(n)) == n
    ensures NatText(n)[0] == '0' ==> NatText(n) == "0"
  {
    var s := NatText(n);
    if n >= 10 {
      NatTextValue(n / 10);
      assert s[..|s| - 1] == NatText(n / 10);
    } else {
      assert s[..0] == "";
    }
  }

  lemma {:induction false} PaddedValue(n: nat, w: nat)
    requires n < Pow10(w)
    ensures DigitsValue(Padded(n, w)) == n
  {
    if w > 0 {
      PaddedValue(n / 10, w - 1);
      var s := Padded(n, w);
      assert s[..|s| - 1] == Padded(n / 10, w - 1);
    }
  }

  /** Removes zeros from the end, down to a single digit. */
  function WithoutTrailingZeros(s: string): (r: string)
    requires AllDigits(s) && s != ""
    ensures AllDigits(r) && 0 < |r| <= |s|
  {
    if |s| > 1 && s[|s| - 1] == '0' then WithoutTrailingZeros(s[..|s| - 1]) else s
  }

  lemma {:induction false} TrailingZerosValue(s: string)
    requires AllDigits(s) && s != ""
    ensures DigitsValue(WithoutTrailingZeros(s)) * Pow10(|s| - |WithoutTrailingZeros(s)|) == DigitsValue(s)
  {
    if |s| > 1 && s[|s| - 1] == '0' {
      var t := s[..|s| - 1];
      TrailingZerosValue(t);
      var r := WithoutTrailingZeros(t);
      var k := |t| - |r|;
      assert WithoutTrailingZeros(s) == r;
      assert DigitsValue(s) == 10 * DigitsValue(t);
      TimesTen(DigitsValue(r), k);
    }
  }

  lemma TimesTen(n: nat, k: nat)
    ensures n * Pow10(k + 1) == 10 * (n * Pow10(k))
  {
    assert Pow10(k + 1) == 10 * Pow10(k);
  }

  /** How many characters at the start of s are digits. */
  function DigitRun(s: string): (n: nat)
    ensures n <= |s| && AllDigits(s[..n])
    ensures n < |s| ==> !IsDigit(s[n])
  {
    if s != "" && IsDigit(s[0]) then 1 + DigitRun(s[1..]) else 0
  }

  lemma {:induction false} DigitRunOf(d: string, rest: string)
    requires AllDigits(d)
    requires rest != "" ==> !IsDigit(rest[0])
    ensures DigitRun(d + rest) == |d|
    ensures (d + rest)[..|d|] == d && (d + rest)[|d|..] == rest
  {
    if d == "" {
      assert d + rest == rest;
    } else {
      assert (d + rest)[0] == d[0] && (d + rest)[1..] == d[1..] + rest;
      DigitRunOf(d[1..], rest);
    }
  }
}
