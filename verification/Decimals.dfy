/** Decimal numerals. */
module Decimals {

  predicate IsDigit(c: char) { '0' <= c <= '9' }

  predicate AllDigits(s: string) { forall i :: 0 <= i < |s| ==> IsDigit(s[i]) }

  function Digit(d: nat): char
    requires d < 10
  {
    '0' + d as char
  }

  /** The decimal form of a number. */
  function Decimal(n: nat): (s: string)
    ensures s != [] && AllDigits(s)
  {
    if n < 10 then [Digit(n)] else Decimal(n / 10) + [Digit(n % 10)]
  }

  lemma {:induction false} DecimalInjective(m: nat, n: nat)
    requires Decimal(m) == Decimal(n)
    ensures m == n
  {
    var s, t := Decimal(m), Decimal(n);
    assert s[|s| - 1] == Digit(m % 10) && t[|t| - 1] == Digit(n % 10);
    assert s[..|s| - 1] == (if m < 10 then [] else Decimal(m / 10));
    assert t[..|t| - 1] == (if n < 10 then [] else Decimal(n / 10));
    if m >= 10 && n >= 10 {
      DecimalInjective(m / 10, n / 10);
    }
  }

  // Only zero is written with a leading zero.
  lemma {:induction false} NoLeadingZero(n: nat)
    ensures Decimal(n)[0] == '0' <==> n == 0
    ensures |Decimal(n)| == 1 <==> n < 10
  {
    if n >= 10 { NoLeadingZero(n / 10); }
  }

  // The number a string of digits stands for.
  function Number(s: string): nat
    requires AllDigits(s)
  {
    if s == [] then 0 else 10 * Number(s[..|s| - 1]) + (s[|s| - 1] as int - '0' as int)
  }

  lemma {:induction false} NumberOfDecimal(n: nat)
    ensures Number(Decimal(n)) == n
  {
    var s := Decimal(n);
    assert s[|s| - 1] == Digit(n % 10);
    if n >= 10 {
      assert s[..|s| - 1] == Decimal(n / 10);
      NumberOfDecimal(n / 10);
    } else {
      assert s[..|s| - 1] == [];
    }
  }

  // The length of the longest prefix of digits.
  function Digits(s: string): (n: nat)
    ensures n <= |s| && AllDigits(s[..n])
  {
    if s == [] || !IsDigit(s[0]) then 0
    else
      var n := Digits(s[1..]);
      assert s[..n + 1] == [s[0]] + s[1..][..n];
      n + 1
  }

  lemma {:induction false} DigitsOfDigits(s: string)
    requires AllDigits(s)
    ensures Digits(s) == |s|
  {
    if s != [] { DigitsOfDigits(s[1..]); }
  }

  lemma {:induction false} DigitsBefore(line: string, rest: string)
    requires AllDigits(line) && (rest == "" || !IsDigit(rest[0]))
    ensures Digits(line + rest) == |line|
  {
    if line != "" {
      DigitsBefore(line[1..], rest);
      assert (line + rest)[1..] == line[1..] + rest;
    } else {
      assert line + rest == rest;
    }
  }
}
