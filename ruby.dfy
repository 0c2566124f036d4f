/**
 * The parts of Ruby's core semantics the fetcher relies on: values and their truthiness,
 * Integer#to_s, String#to_i (base 10) and ASCII String#downcase.
 */
module Ruby {

  /** A Ruby value, as far as option values and block results are concerned. */
  datatype Value = Nil | Bool(b: bool) | Int(i: int) | Sym(name: string) | Str(s: string)

  /** Only `nil` and `false` are falsy in Ruby. */
  predicate Truthy(v: Value)
  {
    !(v.Nil? || v == Bool(false))
  }

  predicate IsDigit(c: char)
  {
    '0' <= c <= '9'
  }

  predicate AllDigits(s: string)
  {
    forall i :: 0 <= i < |s| ==> IsDigit(s[i])
  }

  function DigitValue(c: char): (d: nat)
    requires IsDigit(c)
    ensures d < 10
  {
    c as int - '0' as int
  }

  function DigitChar(d: nat): (c: char)
    requires d < 10
    ensures IsDigit(c) && DigitValue(c) == d
  {
    ('0' as int + d) as char
  }

  /** Decimal digits of n, most significant first, without leading zeros. */
  function NatToString(n: nat): (s: string)
    ensures |s| >= 1 && AllDigits(s)
    ensures |s| > 1 ==> s[0] != '0'
    decreases n
  {
    if n < 10 then [DigitChar(n)] else NatToString(n / 10) + [DigitChar(n % 10)]
  }

  /** The number a string of decimal digits denotes. */
  function DigitsValue(s: string): nat
    requires AllDigits(s)
    decreases |s|
  {
    if s == [] then 0 else DigitsValue(s[..|s| - 1]) * 10 + DigitValue(s[|s| - 1])
  }

  lemma {:induction false} DigitsValueOfNatToString(n: nat)
    ensures DigitsValue(NatToString(n)) == n
    decreases n
  {
    if n >= 10 {
      var s := NatToString(n);
      assert s == NatToString(n / 10) + [DigitChar(n % 10)];
      assert s[..|s| - 1] == NatToString(n / 10);
      DigitsValueOfNatToString(n / 10);
    }
  }

  /** Integer#to_s: an optional minus sign followed by the decimal digits. */
  function IntToString(i: int): (s: string)
    ensures |s| >= 1
    ensures i >= 0 ==> AllDigits(s)
    ensures i < 0 ==> |s| >= 2 && s[0] == '-' && AllDigits(s[1..])
  {
    if i < 0 then "-" + NatToString(-i) else NatToString(i)
  }

  /** The length of the longest prefix of s made of decimal digits. */
  function DigitRun(s: string): (n: nat)
    ensures n <= |s|
    ensures forall i :: 0 <= i < n ==> IsDigit(s[i])
    ensures n < |s| ==> !IsDigit(s[n])
  {
    if s == [] || !IsDigit(s[0]) then 0 else 1 + DigitRun(s[1..])
  }

  /** The white space String#to_i skips: space, tab, line feed, vertical tab, form feed, carriage return. */
  predicate IsSpace(c: char)
  {
    c == ' ' || 9 <= c as int <= 13
  }

  /** The length of the longest prefix of s made of white space. */
  function SpaceRun(s: string): (n: nat)
    ensures n <= |s|
    ensures forall i :: 0 <= i < n ==> IsSpace(s[i])
    ensures n < |s| ==> !IsSpace(s[n])
  {
    if s == [] || !IsSpace(s[0]) then 0 else 1 + SpaceRun(s[1..])
  }

  /**
   * String#to_i: leading white space is skipped, an optional sign is read, then the longest run
   * of decimal digits; anything after it is ignored, and no digits at all read as 0.
   */
  function ToI(s: string): (r: int)
    ensures (forall i :: 0 <= i < |s| ==> !IsDigit(s[i])) ==> r == 0
  {
    var t := s[SpaceRun(s)..];
    if |t| > 0 && (t[0] == '-' || t[0] == '+') then
      var u := t[1..];
      var magnitude: int := DigitsValue(u[..DigitRun(u)]);
      if t[0] == '-' then -magnitude else magnitude
    else
      DigitsValue(t[..DigitRun(t)])
  }

  /** The digit run of a digit string followed by a non-digit is exactly that digit string. */
  lemma DigitRunOfDigitsThen(d: string, rest: string)
    requires AllDigits(d)
    requires rest == [] || !IsDigit(rest[0])
    ensures DigitRun(d + rest) == |d|
    ensures (d + rest)[..|d|] == d
  {
  }

  /** String#to_i of a digit string followed by a non-digit reads the digits. */
  lemma ToIOfDigitsThen(d: string, rest: string)
    requires |d| >= 1 && AllDigits(d)
    requires rest == [] || !IsDigit(rest[0])
    ensures ToI(d + rest) == DigitsValue(d)
  {
    var s := d + rest;
    assert s[0] == d[0];
    assert s[SpaceRun(s)..] == s;
    DigitRunOfDigitsThen(d, rest);
  }

  /** String#to_i of a minus sign, a digit string and a non-digit reads the negated digits. */
  lemma ToIOfNegatedDigitsThen(d: string, rest: string)
    requires |d| >= 1 && AllDigits(d)
    requires rest == [] || !IsDigit(rest[0])
    ensures ToI("-" + (d + rest)) == -(DigitsValue(d) as int)
  {
    var s := "-" + (d + rest);
    assert s[SpaceRun(s)..] == s;
    assert s[1..] == d + rest;
    DigitRunOfDigitsThen(d, rest);
  }

  /** String#to_i reads back what Integer#to_s wrote, whatever non-digit text follows it. */
  lemma ToIOfIntToString(i: int, rest: string)
    requires rest == [] || !IsDigit(rest[0])
    ensures ToI(IntToString(i) + rest) == i
  {
    var d := NatToString(if i < 0 then -i else i);
    DigitsValueOfNatToString(if i < 0 then -i else i);
    if i < 0 {
      assert IntToString(i) + rest == "-" + (d + rest);
      ToIOfNegatedDigitsThen(d, rest);
    } else {
      ToIOfDigitsThen(d, rest);
    }
  }

  /** Integer#to_s is one-to-one. */
  lemma IntToStringInjective(a: int, b: int)
    requires IntToString(a) == IntToString(b)
    ensures a == b
  {
    ToIOfIntToString(a, []);
    ToIOfIntToString(b, []);
    assert IntToString(a) + [] == IntToString(a);
    assert IntToString(b) + [] == IntToString(b);
  }

  function LowerChar(c: char): char
  {
    if 'A' <= c <= 'Z' then (c as int + 32) as char else c
  }

  /** String#downcase, restricted to the ASCII letters. */
  function Downcase(s: string): (r: string)
    ensures |r| == |s|
    ensures forall i :: 0 <= i < |s| ==> r[i] == LowerChar(s[i])
  {
    seq(|s|, i requires 0 <= i < |s| => LowerChar(s[i]))
  }
}
