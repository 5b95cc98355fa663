/** Decimal numbers as digit strings. */
module Numerals {

  predicate IsDigit(c: char) { '0' <= c <= '9' }

  predicate AllDigits(s: string) { forall i :: 0 <= i < |s| ==> IsDigit(s[i]) }

  /** Length of the longest prefix of digits. */
  function DigitRun(s: string): (n: nat)
    ensures n <= |s| && forall i :: 0 <= i < n ==> IsDigit(s[i])
    ensures n < |s| ==> !IsDigit(s[n])
  {
    if s == [] || !IsDigit(s[0]) then 0
    else
      var n := 1 + DigitRun(s[1..]);
      assert forall i :: 1 <= i < n ==> s[i] == s[1..][i - 1];
      n
  }

  function DigitNumber(s: string): nat
    requires AllDigits(s)
  {
    if s == [] then 0
    else DigitNumber(s[..|s| - 1]) * 10 + (s[|s| - 1] - '0') as int
  }

  lemma {:induction false} DigitRunIs(s: string, n: nat)
    requires n <= |s| && (forall i :: 0 <= i < n ==> IsDigit(s[i])) && (n < |s| ==> !IsDigit(s[n]))
    ensures DigitRun(s) == n
  {
  }

  /** Decimal digits without leading zeros. */
  function Decimal(n: nat): (s: string)
    ensures s != [] && AllDigits(s)
  {
    var last := ['0' + (n % 10) as char];
    if n < 10 then last else Decimal(n / 10) + last
  }

  lemma {:induction false} DigitsRoundTrip(n: nat)
    ensures DigitNumber(Decimal(n)) == n
  {
    var s := Decimal(n);
    if n >= 10 {
      DigitsRoundTrip(n / 10);
      assert s[..|s| - 1] == Decimal(n / 10);
    }
  }

  // ----- remainders -----

  lemma {:induction false} RemainderIs(x: int, modulus: int, quotient: int, rest: int)
    requires 0 <= rest < modulus && x == quotient * modulus + rest
    ensures x % modulus == rest
  {
    var d := x / modulus - quotient;
    assert d * modulus == x / modulus * modulus - quotient * modulus;
    assert -modulus < d * modulus < modulus;
    if d >= 1 {
      assert d * modulus == (d - 1) * modulus + modulus;
    } else if d <= -1 {
      assert d * modulus == (d + 1) * modulus - modulus;
    }
  }

  /** Whole multiples of the modulus do not change a remainder. */
  lemma {:induction false} RemainderShift(x: int, modulus: int, quotient: int)
    requires modulus > 0
    ensures (quotient * modulus + x) % modulus == x % modulus
  {
    var k := x / modulus;
    assert (quotient + k) * modulus == quotient * modulus + k * modulus;
    RemainderIs(quotient * modulus + x, modulus, quotient + k, x % modulus);
  }
}
