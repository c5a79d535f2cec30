/** Decimal integers as the Go standard library prints and reads them. */
module Decimal {

  const MaxInt64 := 0x7FFF_FFFF_FFFF_FFFF

  predicate IsDigit(c: char) { '0' <= c <= '9' }

  predicate AllDigits(s: string) {
    forall i :: 0 <= i < |s| ==> IsDigit(s[i])
  }

  function Digit(d: nat): (c: char)
    requires d < 10
    ensures IsDigit(c) && c as int - '0' as int == d
  {
    (d + '0' as int) as char
  }

  function Itoa(n: nat): string {
    if n < 10 then [Digit(n)] else Itoa(n / 10) + [Digit(n % 10)]
  }

  function Value(s: string): nat
    requires AllDigits(s)
  {
    if s == [] then 0 else 10 * Value(s[..|s| - 1]) + (s[|s| - 1] as int - '0' as int)
  }

  /** The number read, with the error ignored: zero for anything malformed and
      the nearest representable number for anything out of range. */
  function Atoi(s: string): int {
    var signed := s != [] && (s[0] == '+' || s[0] == '-');
    var digits := if signed then s[1..] else s;
    if digits == [] || !AllDigits(digits) then 0
    else if s[0] == '-' then (if Value(digits) > MaxInt64 + 1 then -MaxInt64 - 1 else -(Value(digits) as int))
    else if Value(digits) > MaxInt64 then MaxInt64
    else Value(digits)
  }

  lemma ValueOfSnoc(s: string, c: char)
    requires AllDigits(s) && IsDigit(c)
    ensures AllDigits(s + [c]) && Value(s + [c]) == 10 * Value(s) + (c as int - '0' as int)
  {
    assert (s + [c])[..|s + [c]| - 1] == s;
  }

  lemma {:induction false} ItoaValue(n: nat)
    ensures |Itoa(n)| > 0 && AllDigits(Itoa(n)) && Value(Itoa(n)) == n
  {
    if n < 10 {
      ValueOfSnoc([], Digit(n));
      assert [] + [Digit(n)] == Itoa(n);
    } else {
      ItoaValue(n / 10);
      ValueOfSnoc(Itoa(n / 10), Digit(n % 10));
    }
  }

  lemma AtoiInvertsItoa(n: nat)
    requires n <= MaxInt64
    ensures Atoi(Itoa(n)) == n
  {
    ItoaValue(n);
    assert IsDigit(Itoa(n)[0]);
  }

  lemma ItoaInjective(m: nat, n: nat)
    requires Itoa(m) == Itoa(n)
    ensures m == n
  {
    ItoaValue(m);
    ItoaValue(n);
  }
}
