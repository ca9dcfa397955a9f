/** Decimal digit strings. */
module Decimal {

  predicate IsDigit(c: char) {
    '0' <= c <= '9'
  }

  function DigitValue(c: char): (d: nat)
    requires IsDigit(c)
    ensures d <= 9
  {
    c as int - '0' as int
  }

  /** A possibly empty run of digits. */
  predicate Digits(s: string) {
    forall i :: 0 <= i < |s| ==> IsDigit(s[i])
  }

  /** The number that a run of digits denotes. */
  function Value(s: string): nat
    requires Digits(s)
  {
    if s == "" then 0 else 10 * Value(s[..|s| - 1]) + DigitValue(s[|s| - 1])
  }

  predicate Numeral(s: string) {
    s != "" && Digits(s)
  }

  function Pow10(n: nat): (p: nat)
    ensures p > 0
  {
    if n == 0 then 1 else 10 * Pow10(n - 1)
  }

  function DigitChar(d: nat): (c: char)
    requires d <= 9
    ensures IsDigit(c) && DigitValue(c) == d
  {
    '0' + d as char
  }

  /** The usual decimal rendering of a number. */
  function ToString(n: nat): (s: string)
    ensures Numeral(s) && Value(s) == n
  {
    if n < 10 then [DigitChar(n)] else Appended(ToString(n / 10), n % 10)
  }

  function Appended(s: string, d: nat): (r: string)
    requires Numeral(s) && d <= 9
    ensures Numeral(r) && Value(r) == 10 * Value(s) + d
  {
    AppendValue(s, DigitChar(d));
    s + [DigitChar(d)]
  }

  lemma AppendValue(s: string, c: char)
    requires Digits(s) && IsDigit(c)
    ensures Digits(s + [c]) && Value(s + [c]) == 10 * Value(s) + DigitValue(c)
  {
    assert (s + [c])[..|s + [c]| - 1] == s;
  }

  lemma Pow10Step(n: nat)
    ensures Pow10(n + 1) == 10 * Pow10(n) && Pow10(0) == 1
  {
  }

  lemma LastDigit(s: string)
    requires Digits(s) && s != ""
    ensures Digits(s[..|s| - 1]) && IsDigit(s[|s| - 1])
    ensures Value(s) == 10 * Value(s[..|s| - 1]) + DigitValue(s[|s| - 1])
  {
  }

  lemma ConcatDigits(a: string, b: string)
    requires Digits(a) && Digits(b)
    ensures Digits(a + b)
  {
  }

  /** Concatenating digits shifts the left part by the length of the right one. */
  lemma {:induction false} ConcatValue(a: string, b: string)
    requires Digits(a) && Digits(b)
    ensures Digits(a + b) && Value(a + b) == Value(a) * Pow10(|b|) + Value(b)
  {
    ConcatDigits(a, b);
    if b == "" {
      assert a + b == a;
    } else {
      hide Value, Pow10, Digits, IsDigit;
      LastDigit(b);
      LastDigit(a + b);
      var front := b[..|b| - 1];
      ConcatValue(a, front);
      assert (a + b)[..|a + b| - 1] == a + front && (a + b)[|a + b| - 1] == b[|b| - 1];
      Pow10Step(|front|);
      Scale(Value(a), Pow10(|front|));
    }
  }

  lemma Scale(a: nat, b: nat)
    ensures 10 * (a * b) == a * (10 * b)
  {
  }

  lemma {:induction false} ToStringLength(n: nat, width: nat)
    requires n < Pow10(width) && width > 0
    ensures |ToString(n)| <= width
  {
    assert Pow10(1) == 10;
    if n >= 10 {
      ToStringLength(n / 10, width - 1);
    }
  }

  function Zeros(n: nat): (s: string)
    ensures |s| == n && Digits(s) && Value(s) == 0
  {
    if n == 0 then "" else
      AppendValue(Zeros(n - 1), '0');
      Zeros(n - 1) + ['0']
  }

  /** `padStart(width, '0')` */
  function PadStart(s: string, width: nat): (r: string)
    requires Digits(s)
    ensures Digits(r) && |r| >= width && |r| >= |s| && Value(r) == Value(s)
    ensures |s| <= width ==> |r| == width
  {
    if |s| >= width then s
    else
      ConcatValue(Zeros(width - |s|), s);
      Zeros(width - |s|) + s
  }

  lemma {:induction false} Pow10Sum(a: nat, b: nat)
    ensures Pow10(a + b) == Pow10(a) * Pow10(b)
  {
    if a > 0 {
      Pow10Sum(a - 1, b);
      ScaleLeft(Pow10(a - 1), Pow10(b));
    }
  }

  lemma ScaleLeft(a: nat, b: nat)
    ensures (10 * a) * b == 10 * (a * b)
  {
  }
}
