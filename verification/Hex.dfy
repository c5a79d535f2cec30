/** Device identifiers: hexadecimal strings and the integers they stand for. */
module Hex {

  datatype ParseResult = Parsed(value: int) | Malformed

  const MaxInt64 := 0x7FFF_FFFF_FFFF_FFFF

  function Digit(d: nat): char
    requires d < 16
  {
    if d < 10 then (d + '0' as int) as char else (d - 10 + 'A' as int) as char
  }

  function DigitValue(c: char): int {
    if '0' <= c <= '9' then c as int - '0' as int
    else if 'A' <= c <= 'F' then c as int - 'A' as int + 10
    else if 'a' <= c <= 'f' then c as int - 'a' as int + 10
    else -1
  }

  function Digits(n: nat): string {
    if n < 16 then [Digit(n)] else Digits(n / 16) + [Digit(n % 16)]
  }

  function Zeros(n: nat): string {
    seq(n, _ => '0')
  }

  function Pad(s: string, width: nat): string {
    (if |s| < width then Zeros(width - |s|) else Zeros(0)) + s
  }

  /** Upper-case hexadecimal padded with zeros to a width of five, sign included. */
  function DeviceIDOf(n: int): string {
    if n < 0 then "-" + Pad(Digits(-n), 4) else Pad(Digits(n), 5)
  }

  predicate AllDigits(s: string) {
    forall i :: 0 <= i < |s| ==> DigitValue(s[i]) >= 0
  }

  function Value(s: string): nat
    requires AllDigits(s)
  {
    if s == [] then 0 else 16 * Value(s[..|s| - 1]) + DigitValue(s[|s| - 1])
  }

  /** Base sixteen with an optional sign, in the range of a 64-bit integer. */
  function ParseInt(s: string): ParseResult {
    var signed := s != [] && (s[0] == '+' || s[0] == '-');
    var digits := if signed then s[1..] else s;
    if digits == [] || !AllDigits(digits) then Malformed
    else if s[0] == '-' then
      if Value(digits) > MaxInt64 + 1 then Malformed else Parsed(-(Value(digits) as int))
    else
      if Value(digits) > MaxInt64 then Malformed else Parsed(Value(digits))
  }

  /** One leading zero is dropped before parsing. */
  function ParseDeviceID(s: string): ParseResult {
    ParseInt(if s != [] && s[0] == '0' then s[1..] else s)
  }

  /** Five upper-case hexadecimal digits, as the array prints its devices. */
  predicate Canonical(s: string) {
    |s| == 5 && forall i :: 0 <= i < |s| ==> UpperDigit(s[i])
  }

  // ---- Printing and parsing are inverse ----

  lemma ValueOfSnoc(s: string, c: char)
    requires AllDigits(s) && DigitValue(c) >= 0
    ensures AllDigits(s + [c]) && Value(s + [c]) == 16 * Value(s) + DigitValue(c)
  {
    assert (s + [c])[..|s + [c]| - 1] == s;
  }

  lemma {:induction false} DigitsValue(n: nat)
    ensures AllDigits(Digits(n)) && Value(Digits(n)) == n && |Digits(n)| > 0
    ensures n > 0 ==> Digits(n)[0] != '0'
    ensures Digits(n)[0] != '-' && Digits(n)[0] != '+'
  {
    if n < 16 {
      ValueOfSnoc([], Digit(n));
      assert Digits(n) == [] + [Digit(n)];
    } else {
      DigitsValue(n / 16);
      ValueOfSnoc(Digits(n / 16), Digit(n % 16));
    }
  }

  lemma {:induction false} ValueOfPadded(k: nat, s: string)
    requires AllDigits(s)
    ensures AllDigits(Zeros(k) + s) && Value(Zeros(k) + s) == Value(s)
  {
    var p := Zeros(k) + s;
    if s == [] {
      if k > 0 {
        ValueOfPadded(k - 1, s);
        assert p[..|p| - 1] == Zeros(k - 1) + s;
      }
    } else {
      ValueOfPadded(k, s[..|s| - 1]);
      assert p[..|p| - 1] == Zeros(k) + s[..|s| - 1];
    }
  }

  lemma ValueOfTail(s: string)
    requires s != [] && s[0] == '0' && AllDigits(s)
    ensures Value(s[1..]) == Value(s)
  {
    assert Zeros(1) + s[1..] == s;
    ValueOfPadded(1, s[1..]);
  }

  lemma PrintedValue(n: nat, width: nat)
    ensures var p := Pad(Digits(n), width); |p| > 0 && AllDigits(p) && Value(p) == n
  {
    var s := Digits(n);
    DigitsValue(n);
    ValueOfPadded(if |s| < width then width - |s| else 0, s);
  }

  /** Every printed identifier parses back to its integer, if that has 64 bits. */
  lemma ParseInvertsPrint(n: int)
    ensures ParseDeviceID(DeviceIDOf(n)) == if -MaxInt64 - 1 <= n <= MaxInt64 then Parsed(n) else Malformed
  {
    if n < 0 {
      PrintedValue(-n, 4);
      ParseNegative(Pad(Digits(-n), 4));
    } else {
      PrintedValue(n, 5);
      ParseDigits(DeviceIDOf(n));
    }
  }

  lemma ParseNegative(s: string)
    requires s != "" && AllDigits(s)
    ensures ParseDeviceID("-" + s) == if Value(s) <= MaxInt64 + 1 then Parsed(-(Value(s) as int)) else Malformed
  {
    assert ("-" + s)[1..] == s;
  }

  lemma ParseUnsigned(s: string)
    requires s != "" && AllDigits(s)
    ensures ParseInt(s) == if Value(s) <= MaxInt64 then Parsed(Value(s)) else Malformed
  {
    assert DigitValue(s[0]) >= 0;
  }

  lemma ParseDigits(s: string)
    requires |s| >= 2 && AllDigits(s)
    ensures ParseDeviceID(s) == if Value(s) <= MaxInt64 then Parsed(Value(s)) else Malformed
  {
    if s[0] == '0' {
      ValueOfTail(s);
      ParseUnsigned(s[1..]);
    } else {
      ParseUnsigned(s);
    }
  }

  /** The string is a sign or none and digits, behind a zero that is dropped. */
  predicate Shows(s: string, sign: string, digits: string) {
    && (sign == "" || sign == "+" || sign == "-") && digits != "" && AllDigits(digits)
    && (s == "0" + sign + digits || (s == sign + digits && s[0] != '0'))
  }

  function Meaning(sign: string, digits: string): ParseResult
    requires AllDigits(digits)
  {
    var v: int := if sign == "-" then -(Value(digits) as int) else Value(digits);
    if -0x8000_0000_0000_0000 <= v < 0x8000_0000_0000_0000 then Parsed(v) else Malformed
  }

  lemma SignAndDigits(t: string, sign: string, digits: string)
    requires (sign == "" || sign == "+" || sign == "-") && digits != "" && AllDigits(digits) && t == sign + digits
    ensures ParseInt(t) == Meaning(sign, digits)
  {
    if sign == "" {
      assert t == digits && DigitValue(t[0]) >= 0;
    } else {
      assert t[1..] == digits;
    }
  }

  lemma ParsesShown(s: string, sign: string, digits: string)
    requires Shows(s, sign, digits)
    ensures ParseDeviceID(s) == Meaning(sign, digits)
  {
    if s == "0" + sign + digits { assert s[0] == '0' && s[1..] == sign + digits; }
    SignAndDigits(if s[0] == '0' then s[1..] else s, sign, digits);
  }

  lemma ParsedIsShown(s: string)
    requires ParseDeviceID(s).Parsed?
    ensures exists sign, digits :: Shows(s, sign, digits)
  {
    var t := if s[0] == '0' then s[1..] else s;
    var signed := t[0] == '+' || t[0] == '-';
    var sign, digits := if signed then [t[0]] else "", if signed then t[1..] else t;
    assert t == sign + digits;
    assert s == if s[0] == '0' then "0" + sign + digits else sign + digits;
    assert Shows(s, sign, digits);
  }

  /** Exactly the strings of this form, in the range of 64 bits, are parsed. */
  lemma ParsesExactly(s: string)
    ensures forall sign, digits :: Shows(s, sign, digits) ==> ParseDeviceID(s) == Meaning(sign, digits)
    ensures ParseDeviceID(s).Parsed? ==> exists sign, digits :: Shows(s, sign, digits)
  {
    forall sign, digits | Shows(s, sign, digits) ensures ParseDeviceID(s) == Meaning(sign, digits) {
      ParsesShown(s, sign, digits);
    }
    if ParseDeviceID(s).Parsed? { ParsedIsShown(s); }
  }

  /** No two integers print alike. */
  lemma PrintIsInjective(m: int, n: int)
    requires DeviceIDOf(m) == DeviceIDOf(n)
    ensures m == n
  {
    PrintedValue(if m < 0 then -m else m, if m < 0 then 4 else 5);
    PrintedValue(if n < 0 then -n else n, if n < 0 then 4 else 5);
    assert m < 0 <==> DeviceIDOf(m)[0] == '-';
    assert n < 0 <==> DeviceIDOf(n)[0] == '-';
    if m < 0 {
      assert DeviceIDOf(m)[1..] == Pad(Digits(-m), 4) && DeviceIDOf(n)[1..] == Pad(Digits(-n), 4);
    }
  }

  lemma PrintsDiffer(m: int, n: int)
    requires m != n
    ensures DeviceIDOf(m) != DeviceIDOf(n)
  {
    if DeviceIDOf(m) == DeviceIDOf(n) { PrintIsInjective(m, n); }
  }

  ghost predicate UpperDigits(s: string) {
    forall i :: 0 <= i < |s| ==> UpperDigit(s[i])
  }

  predicate UpperDigit(c: char) {
    '0' <= c <= '9' || 'A' <= c <= 'F'
  }

  lemma SameDigit(c: char, d: char)
    requires UpperDigit(c) && UpperDigit(d) && DigitValue(c) == DigitValue(d)
    ensures c == d
  {}

  lemma SameLastDigit(a: nat, x: nat, b: nat, y: nat)
    requires x < 16 && y < 16 && 16 * a + x == 16 * b + y
    ensures a == b && x == y
  {}

  /** Numbers of equal length with equal values are the same string. */
  lemma {:induction false} SameValueSameString(s: string, t: string)
    requires |s| == |t| && UpperDigits(s) && UpperDigits(t) && Value(s) == Value(t)
    ensures s == t
  {
    if s == [] {
    } else {
      var s', c, t', d := s[..|s| - 1], s[|s| - 1], t[..|t| - 1], t[|t| - 1];
      assert s == s' + [c] && t == t' + [d];
      ValueOfSnoc(s', c);
      ValueOfSnoc(t', d);
      SameLastDigit(Value(s'), DigitValue(c), Value(t'), DigitValue(d));
      SameDigit(c, d);
      SameValueSameString(s', t');
    }
  }

  lemma {:induction false} DigitsLength(n: nat, k: nat)
    requires n < Power16(k)
    ensures |Digits(n)| <= if k == 0 then 1 else k
    ensures UpperDigits(Digits(n))
  {
    if n >= 16 { DigitsLength(n / 16, k - 1); }
  }

  function Power16(k: nat): nat { if k == 0 then 1 else 16 * Power16(k - 1) }

  lemma {:induction false} ValueBound(s: string)
    requires UpperDigits(s)
    ensures Value(s) < Power16(|s|)
  {
    if s == [] {
    } else {
      ValueBound(s[..|s| - 1]);
    }
  }

  /** Every canonical identifier parses, and prints back to itself. */
  lemma PrintInvertsParse(s: string)
    requires Canonical(s)
    ensures ParseDeviceID(s).Parsed?
    ensures 0 <= ParseDeviceID(s).value < 0x10_0000
    ensures DeviceIDOf(ParseDeviceID(s).value) == s
  {
    ValueBound(s);
    assert Power16(5) == 0x10_0000;
    ParseDigits(s);
    PrintsBack(s);
  }

  lemma PrintsBack(s: string)
    requires UpperDigits(s) && |s| == 5 && Value(s) < Power16(5)
    ensures DeviceIDOf(Value(s)) == s
  {
    DigitsLength(Value(s), 5);
    DigitsValue(Value(s));
    PaddedDigits(s, Digits(Value(s)));
    assert DeviceIDOf(Value(s)) == Zeros(5 - |Digits(Value(s))|) + Digits(Value(s));
  }

  lemma PadKeepsValue(k: nat, d: string) returns (p: string)
    requires UpperDigits(d)
    ensures p == Zeros(k) + d && |p| == k + |d| && UpperDigits(p) && Value(p) == Value(d)
  {
    p := Zeros(k) + d;
    ValueOfPadded(k, d);
  }

  lemma PaddedDigits(s: string, d: string)
    requires UpperDigits(s) && UpperDigits(d) && |d| <= |s| && Value(d) == Value(s)
    ensures Zeros(|s| - |d|) + d == s
  {
    var p := PadKeepsValue(|s| - |d|, d);
    SameValueSameString(s, p);
  }
}
