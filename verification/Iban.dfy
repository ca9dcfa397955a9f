/** IBAN check digits: MOD 97-10 of ISO/IEC 7064, as ISO 13616 uses it. Texts are already normalised. */
module Iban {
  import opened Decimal

  predicate IsUpper(c: char) {
    'A' <= c <= 'Z'
  }

  /** `letterToDigits`: A is 10, Z is 35. */
  function LetterToDigits(c: char): (s: string)
    requires IsUpper(c)
    ensures Digits(s) && |s| == 2
  {
    ToStringWidth(c as nat - 55);
    ToString(c as nat - 55)
  }

  lemma ToStringWidth(n: nat)
    requires 10 <= n < 100
    ensures |ToString(n)| == 2
  {
    assert ToString(n) == Appended(ToString(n / 10), n % 10);
    assert |ToString(n / 10)| == 1;
  }

  predicate Alphanumeric(s: string) {
    forall i :: 0 <= i < |s| ==> IsDigit(s[i]) || IsUpper(s[i])
  }

  /** Every letter replaced by its two digits. */
  function Expand(s: string): (r: string)
    requires Alphanumeric(s)
    ensures Digits(r)
  {
    if s == "" then ""
    else (if IsUpper(s[0]) then LetterToDigits(s[0]) else [s[0]]) + Expand(s[1..])
  }

  /** Two letters, two digits, then 11 to 30 letters or digits. */
  predicate Shaped(s: string) {
    && 15 <= |s| <= 34
    && IsUpper(s[0]) && IsUpper(s[1]) && IsDigit(s[2]) && IsDigit(s[3])
    && forall i :: 4 <= i < |s| ==> IsDigit(s[i]) || IsUpper(s[i])
  }

  /** `isValidIban` */
  predicate IsValidIban(s: string) {
    Shaped(s) && Value(Expand(s[4..] + s[..4])) % 97 == 1
  }

  predicate TrShaped(s: string) {
    |s| == 26 && s[..2] == "TR" && Digits(s[2..])
  }

  /** `isValidTrIban` */
  predicate IsValidTrIban(s: string) {
    TrShaped(s) && IsValidIban(s)
  }

  // --------------------------------------------------------------------------- mod 97

  lemma ModStep(v: nat, d: nat)
    ensures (10 * v + d) % 97 == (10 * (v % 97) + d) % 97
  {
  }

  /** The streaming remainder, one digit at a time, is the remainder of the whole number. */
  method Mod97(numeric: string) returns (rem: nat)
    requires Digits(numeric)
    ensures rem == Value(numeric) % 97
  {
    rem := 0;
    for i := 0 to |numeric|
      invariant rem == Value(numeric[..i]) % 97
    {
      assert numeric[..i + 1][..i] == numeric[..i];
      ModStep(Value(numeric[..i]), DigitValue(numeric[i]));
      rem := (rem * 10 + DigitValue(numeric[i])) % 97;
    }
    assert numeric[..|numeric|] == numeric;
  }

  /** `isValidIban` as it runs: rearrange, expand, then take the streaming remainder. */
  method CheckIban(s: string) returns (ok: bool)
    ensures ok <==> IsValidIban(s)
  {
    if !Shaped(s) {
      return false;
    }
    var numeric := Expand(s[4..] + s[..4]);
    var rem := Mod97(numeric);
    return rem == 1;
  }

  datatype Made = Made(iban: string) | Refused

  function TwoDigits(n: nat): (s: string)
    requires n < 100
    ensures Digits(s) && |s| == 2 && Value(s) == n
  {
    assert Pow10(2) == 100 by { assert Pow10(1) == 10; }
    ToStringLength(n, 2);
    PadStart(ToString(n), 2)
  }

  predicate AccountParts(bankCode: string, account: string) {
    |bankCode| == 5 && Digits(bankCode) && |account| == 16 && Digits(account)
  }

  /** `makeTrIban`: a valid IBAN holding the given parts, with check digits from 02 to 98. */
  method MakeTrIban(bankCode: string, account: string) returns (r: Made)
    ensures r.Made? <==> AccountParts(bankCode, account)
    ensures r.Made? ==> IsValidTrIban(r.iban) && r.iban[4..] == bankCode + "0" + account
    ensures r.Made? ==> Digits(r.iban[2..4]) && 2 <= Value(r.iban[2..4]) <= 98
  {
    hide Value, IsValidTrIban, LetterToDigits, TwoDigits;
    if !AccountParts(bankCode, account) {
      return Refused;
    }
    var bban := bankCode + "0" + account;
    var numeric := bban + LetterToDigits('T') + LetterToDigits('R') + "00";
    CheckNumeric(bban);
    var rem := Mod97(numeric);
    var check := TwoDigits(98 - rem);
    MadeIsValid(bban, check);
    var iban := "TR" + check + bban;
    assert iban[2..4] == check && iban[4..] == bban;
    return Made(iban);
  }

  lemma TrLetters()
    ensures LetterToDigits('T') == "29" && LetterToDigits('R') == "27"
  {
    assert ToString(29) == Appended(ToString(2), 9);
    assert ToString(27) == Appended(ToString(2), 7);
  }

  lemma CheckNumeric(bban: string)
    ensures bban + LetterToDigits('T') + LetterToDigits('R') + "00" == bban + "2927" + "00"
  {
    hide LetterToDigits;
    TrLetters();
    assert bban + "29" + "27" == bban + "2927";
  }

  lemma AlphanumericConcat(a: string, b: string)
    requires Alphanumeric(a) && Alphanumeric(b)
    ensures Alphanumeric(a + b)
  {
  }

  lemma {:induction false} ExpandConcat(a: string, b: string)
    requires Alphanumeric(a) && Alphanumeric(b)
    ensures Alphanumeric(a + b) && Expand(a + b) == Expand(a) + Expand(b)
  {
    AlphanumericConcat(a, b);
    hide LetterToDigits, IsDigit, IsUpper;
    if a == "" {
      assert a + b == b;
    } else {
      assert (a + b)[1..] == a[1..] + b;
      ExpandConcat(a[1..], b);
    }
  }

  lemma {:induction false} ExpandDigits(s: string)
    requires Digits(s)
    ensures Expand(s) == s
  {
    if s != "" {
      ExpandDigits(s[1..]);
      assert s == [s[0]] + s[1..];
    }
  }

  lemma ExpandTr()
    ensures Expand("TR") == "2927"
  {
    TrLetters();
    assert "TR"[1..] == "R" && "R"[1..] == "";
    assert Expand("R") == "27";
  }

  /** The numeric text of a Turkish IBAN: account digits, then 2927 for TR, then the check digits. */
  lemma TrNumeric(s: string)
    requires TrShaped(s)
    ensures Shaped(s) && Digits(s[4..]) && Digits(s[2..4])
    ensures Expand(s[4..] + s[..4]) == s[4..] + "2927" + s[2..4]
  {
    assert forall i :: 2 <= i < 26 ==> s[i] == s[2..][i - 2];
    assert s[0] == s[..2][0] && s[1] == s[..2][1];
    assert s[..4] == "TR" + s[2..4];
    ExpandTr();
    ExpandDigits(s[2..4]);
    ExpandDigits(s[4..]);
    ExpandConcat("TR", s[2..4]);
    ExpandConcat(s[4..], s[..4]);
    assert s[4..] + ("2927" + s[2..4]) == s[4..] + "2927" + s[2..4];
  }

  /** The check digits computed from the remainder make the IBAN valid. */
  lemma MadeIsValid(bban: string, check: string)
    requires |bban| == 22 && Digits(bban) && |check| == 2 && Digits(check)
    requires Value(check) == 98 - Value(bban + "2927" + "00") % 97
    ensures IsValidTrIban("TR" + check + bban)
  {
    hide Value, LetterToDigits, Expand, Digits, IsDigit, Pow10;
    AccountDigits(bban, check);
    var s := "TR" + check + bban;
    assert s[..2] == "TR" && s[2..] == check + bban && s[2..4] == check && s[4..] == bban;
    TrNumeric(s);
    var base := bban + "2927";
    ConcatValue(base, "00");
    ConcatValue(base, check);
    ZeroText();
    assert Value(base + check) == Value(base + "00") + Value(check);
    Complement(Value(base + "00"));
  }

  lemma AccountDigits(bban: string, check: string)
    requires |bban| == 22 && Digits(bban) && |check| == 2 && Digits(check)
    ensures TrShaped("TR" + check + bban) && Digits(bban + "2927") && Digits("00")
    ensures Digits(bban + "2927" + "00") && Digits(bban + "2927" + check)
  {
    hide Value;
    var s := "TR" + check + bban;
    assert s[..2] == "TR" && s[2..] == check + bban;
  }

  lemma ZeroText()
    ensures Digits("00") && Value("00") == 0
  {
    assert "00"[..1] == "0" && "0"[..0] == "";
    assert Value("0") == 0;
  }

  lemma Complement(v: nat)
    ensures (v + (98 - v % 97)) % 97 == 1
  {
  }

  // ------------------------------------------------------------------- error detection

  /** Where position `i` of the text lies in the numeric text: the account first, the check digits last. */
  function NumericIndex(i: nat): nat
    requires 2 <= i < 26
  {
    if i >= 4 then i - 4 else i + 24
  }

  function TrDigits(s: string): (r: string)
    requires TrShaped(s)
    ensures Digits(r) && |r| == 28
  {
    TrNumeric(s);
    s[4..] + "2927" + s[2..4]
  }

  lemma TrValid(s: string)
    requires TrShaped(s)
    ensures IsValidTrIban(s) <==> Value(TrDigits(s)) % 97 == 1
  {
    hide Value, Expand;
    TrNumeric(s);
  }

  /** Replacing one digit changes the number by the digit difference at its power of ten. */
  lemma {:induction false} ReplaceValue(s: string, i: nat, c: char)
    requires Digits(s) && i < |s| && IsDigit(c)
    ensures Digits(s[i := c])
    ensures Value(s[i := c]) == Value(s) + (DigitValue(c) - DigitValue(s[i])) * Pow10(|s| - 1 - i)
  {
    var n := |s| - 1;
    var t := s[i := c];
    if i == n {
      assert t[..n] == s[..n];
    } else {
      ReplaceValue(s[..n], i, c);
      assert t[..n] == s[..n][i := c];
      TimesTen(DigitValue(c) - DigitValue(s[i]), Pow10(n - 1 - i));
    }
  }

  lemma TimesTen(a: int, b: nat)
    ensures 10 * (a * b) == a * (10 * b)
  {
  }

  lemma CancelTen(x: int)
    requires (10 * x) % 97 == 0
    ensures x % 97 == 0
  {
    assert x == 68 * (10 * x) - 97 * (7 * x);
  }

  /** 97 does not divide a power of ten: it divides a shifted number only if it divides the number. */
  lemma {:induction false} CancelPowers(x: int, n: nat)
    requires (x * Pow10(n)) % 97 == 0
    ensures x % 97 == 0
  {
    if n == 0 {
      assert Pow10(0) == 1;
    } else {
      TimesTen(x, Pow10(n - 1));
      CancelTen(x * Pow10(n - 1));
      CancelPowers(x, n - 1);
    }
  }

  lemma SameResidue(a: int, b: int)
    requires a % 97 == b % 97
    ensures (a - b) % 97 == 0
  {
  }

  lemma NumericReplace(s: string, i: nat, c: char)
    requires TrShaped(s) && 2 <= i < 26 && IsDigit(c)
    ensures TrShaped(s[i := c])
    ensures TrDigits(s[i := c]) == TrDigits(s)[NumericIndex(i) := c]
    ensures TrDigits(s)[NumericIndex(i)] == s[i]
  {
    hide Expand;
    var t := s[i := c];
    assert t[..2] == s[..2] && t[2..] == s[2..][i - 2 := c];
    if i >= 4 {
      assert t[4..] == s[4..][i - 4 := c] && t[2..4] == s[2..4];
    } else {
      assert t[4..] == s[4..] && t[2..4] == s[2..4][i - 2 := c];
    }
  }

  /** Changing any one digit after "TR" of a valid IBAN makes it invalid. */
  lemma OneDigitIsDetected(s: string, i: nat, c: char)
    requires IsValidTrIban(s) && 2 <= i < 26 && IsDigit(c) && c != s[i]
    ensures TrShaped(s[i := c]) && !IsValidTrIban(s[i := c])
  {
    hide Value, IsValidTrIban, TrDigits, Pow10;
    Shapes(s);
    NumericReplace(s, i, c);
    TrValid(s);
    TrValid(s[i := c]);
    var n, k := TrDigits(s), NumericIndex(i);
    ReplaceValue(n, k, c);
    var d := DigitValue(c) - DigitValue(n[k]);
    if IsValidTrIban(s[i := c]) {
      SameResidue(Value(n[k := c]), Value(n));
      CancelPowers(d, 27 - k);
      assert false;
    }
  }

  lemma Shapes(s: string)
    requires IsValidTrIban(s)
    ensures TrShaped(s)
  {
    hide IsValidIban;
  }

  function Residue(n: nat): nat {
    Pow10(n) % 97
  }

  lemma NextResidue(n: nat)
    ensures Residue(n + 1) == (10 * Residue(n)) % 97
  {
    Pow10Step(n);
    hide Pow10;
    ModStep(Pow10(n), 0);
  }

  /** The residues of 10^0 to 10^27. */
  function ResidueTable(n: nat): nat {
    match n
    case 0 => 1 case 1 => 10 case 2 => 3 case 3 => 30 case 4 => 9 case 5 => 90 case 6 => 27
    case 7 => 76 case 8 => 81 case 9 => 34 case 10 => 49 case 11 => 5 case 12 => 50 case 13 => 15
    case 14 => 53 case 15 => 45 case 16 => 62 case 17 => 38 case 18 => 89 case 19 => 17 case 20 => 73
    case 21 => 51 case 22 => 25 case 23 => 56 case 24 => 75 case 25 => 71 case 26 => 31 case 27 => 19
    case _ => 0
  }

  /** Ten has no small order modulo 97. */
  lemma {:induction false} ResiduesDiffer(n: nat)
    requires n <= 27
    ensures Residue(n) == ResidueTable(n)
    ensures n > 0 ==> 2 <= Residue(n) <= 96
  {
    hide Residue;
    if n == 0 {
      FirstResidue();
    } else {
      NextResidue(n - 1);
      ResiduesDiffer(n - 1);
    }
  }

  lemma FirstResidue()
    ensures Residue(0) == 1
  {
  }

  /** Multipliers that undo 1 to 9 modulo 97. */
  const UNDO: seq<nat> := [0, 1, 49, 65, 73, 39, 81, 14, 85, 54]

  lemma Undoes(d: nat)
    requires 1 <= d <= 9
    ensures (d * UNDO[d]) % 97 == 1
  {
  }

  lemma CancelFactor(d: nat, m: nat, x: int)
    requires (d * m) % 97 == 1 && (d * x) % 97 == 0
    ensures x % 97 == 0
  {
    var q, k := (d * m) / 97, (d * x) / 97;
    assert d * m == 97 * q + 1 && d * x == 97 * k;
    Regroup(d, m, q, k, x);
    assert x == 97 * (m * k) - 97 * (q * x);
    AddMultiple(0, m * k - q * x);
  }

  lemma Regroup(d: int, m: int, q: int, k: int, x: int)
    ensures (d * m) * x == m * (d * x)
    ensures (97 * q + 1) * x == 97 * (q * x) + x
    ensures m * (97 * k) == 97 * (m * k)
  {
  }

  /** A digit difference times a small nonzero residue is never a multiple of 97. */
  lemma NoSmallProduct(d: int, r: int)
    requires (1 <= d <= 9 || -9 <= d <= -1) && 1 <= r <= 96
    ensures (d * r) % 97 != 0
  {
    var e: nat := if d > 0 then d else -d;
    Undoes(e);
    NegatedProduct(d, r);
    if (d * r) % 97 == 0 {
      CancelFactor(e, UNDO[e], r);
      assert false;
    }
  }

  lemma NegatedProduct(d: int, r: int)
    ensures (d * r) % 97 == 0 ==> (-d * r) % 97 == 0
  {
    MinusTimes(d, r);
    if (d * r) % 97 == 0 {
      var k := (d * r) / 97;
      AddMultiple(0, -k);
    }
  }

  function Swapped(s: string, i: nat, j: nat): string
    requires i < |s| && j < |s|
  {
    s[i := s[j]][j := s[i]]
  }

  lemma ProductResidue(d: int, p: nat)
    ensures (d * (p - 1)) % 97 == (d * (p % 97 - 1)) % 97
  {
    var q, m := p / 97, p % 97;
    assert p == 97 * q + m;
    assert d * (p - 1) == 97 * (d * q) + d * (m - 1) by { Distribute(d, q, m); }
    AddMultiple(d * (m - 1), d * q);
  }

  lemma Distribute(d: int, q: int, m: int)
    ensures d * (97 * q + m - 1) == 97 * (d * q) + d * (m - 1)
  {
  }

  lemma AddMultiple(x: int, k: int)
    ensures (97 * k + x) % 97 == x % 97
  {
  }

  lemma SwapDifference(d: int, p: nat, low: nat)
    ensures d * (p * low) - d * low == (d * (p - 1)) * low
  {
  }

  lemma SwapDifferenceOf(n: string, a: nat, b: nat)
    requires Digits(n) && |n| == 28 && a < b < 28
    ensures Digits(Swapped(n, a, b))
    ensures Value(Swapped(n, a, b)) - Value(n)
            == ((DigitValue(n[b]) - DigitValue(n[a])) * (Pow10(b - a) - 1)) * Pow10(27 - b)
  {
    hide Value, Pow10, Digits, DigitValue, IsDigit;
    DigitsAt(n, a);
    DigitsAt(n, b);
    var once := n[a := n[b]];
    ReplaceValue(n, a, n[b]);
    ReplaceValue(once, b, n[a]);
    var d := DigitValue(n[b]) - DigitValue(n[a]);
    Pow10Sum(b - a, 27 - b);
    SwapDifference(d, Pow10(b - a), Pow10(27 - b));
    MinusTimes(d, Pow10(27 - b));
  }

  lemma DigitsAt(s: string, i: nat)
    requires Digits(s) && i < |s|
    ensures IsDigit(s[i])
  {
  }

  lemma DigitDifference(c: char, e: char)
    requires IsDigit(c) && IsDigit(e) && c != e
    ensures var d := DigitValue(c) - DigitValue(e); 1 <= d <= 9 || -9 <= d <= -1
  {
  }

  /** The difference that a swap makes to the number is never a multiple of 97. */
  lemma SwapIsVisible(n: string, a: nat, b: nat)
    requires Digits(n) && |n| == 28 && a < b < 28 && n[a] != n[b]
    ensures Digits(Swapped(n, a, b)) && (Value(Swapped(n, a, b)) - Value(n)) % 97 != 0
  {
    hide Value, Pow10, Digits, IsDigit, DigitValue, Swapped;
    DigitsAt(n, a);
    DigitsAt(n, b);
    SwapDifferenceOf(n, a, b);
    DigitDifference(n[b], n[a]);
    var d := DigitValue(n[b]) - DigitValue(n[a]);
    NotMultiple(d, b - a, 27 - b);
  }

  lemma NotMultiple(d: int, k: nat, low: nat)
    requires (1 <= d <= 9 || -9 <= d <= -1) && 1 <= k <= 27
    ensures ((d * (Pow10(k) - 1)) * Pow10(low)) % 97 != 0
  {
    ProductResidue(d, Pow10(k));
    ResiduesDiffer(k);
    NoSmallProduct(d, Residue(k) - 1);
    if ((d * (Pow10(k) - 1)) * Pow10(low)) % 97 == 0 {
      CancelPowers(d * (Pow10(k) - 1), low);
      assert false;
    }
  }

  lemma MinusTimes(d: int, x: int)
    ensures -d * x == -(d * x)
  {
  }

  /**
   Swapping any two different digits after "TR" of a valid IBAN makes it invalid: adjacent or not, and
   also where the check digits move to the other end of the number.
   */
  lemma AnySwapIsDetected(s: string, i: nat, j: nat)
    requires IsValidTrIban(s) && 2 <= i < 26 && 2 <= j < 26 && s[i] != s[j]
    ensures TrShaped(Swapped(s, i, j)) && !IsValidTrIban(Swapped(s, i, j))
  {
    hide Value, IsValidTrIban, TrDigits, Pow10, Expand;
    Shapes(s);
    assert IsDigit(s[2..][i - 2]) && IsDigit(s[2..][j - 2]);
    NumericReplace(s, i, s[j]);
    var once := s[i := s[j]];
    NumericReplace(once, j, s[i]);
    NumericReplace(s, j, s[j]);
    var n, a, b := TrDigits(s), NumericIndex(i), NumericIndex(j);
    assert TrDigits(Swapped(s, i, j)) == Swapped(n, a, b);
    if a < b {
      SwapIsVisible(n, a, b);
    } else {
      assert Swapped(n, a, b) == Swapped(n, b, a);
      SwapIsVisible(n, b, a);
    }
    TrValid(s);
    TrValid(Swapped(s, i, j));
    if IsValidTrIban(Swapped(s, i, j)) {
      SameResidue(Value(Swapped(n, a, b)), Value(n));
      assert false;
    }
  }

  // --------------------------------------------------------------------- what is checked

  /** The number of a text in which a letter stands for the two digits 10 to 35. */
  function Weigh(s: string): nat
    requires Alphanumeric(s)
  {
    if s == "" then 0
    else
      var c := s[|s| - 1];
      assert IsDigit(c) || IsUpper(c);
      if IsUpper(c) then 100 * Weigh(s[..|s| - 1]) + (10 + (c as nat - 'A' as nat)) else 10 * Weigh(s[..|s| - 1]) + DigitValue(c)
  }

  lemma WeighStep(front: string, last: string)
    requires Alphanumeric(front + last) && |last| == 1
    ensures Alphanumeric(front) && Alphanumeric(last)
    ensures Weigh(front + last) == Weigh(front) * Pow10(|Expand(last)|) + Value(Expand(last))
  {
    var s := front + last;
    assert s[..|s| - 1] == front && s[|s| - 1] == last[0];
    assert forall i :: 0 <= i < |front| ==> front[i] == s[i];
    assert last[0] == s[|front|];
    ExpandedLast(last);
    hide Value, Expand, Pow10;
  }

  lemma {:induction false} ExpandedValue(s: string)
    requires Alphanumeric(s)
    ensures Value(Expand(s)) == Weigh(s)
  {
    if s == "" {
      assert Value("") == 0;
    } else {
      hide Value, Expand, Pow10, Weigh, Digits, Alphanumeric;
      var front, last := s[..|s| - 1], s[|s| - 1..];
      assert s == front + last;
      WeighStep(front, last);
      ExpandedValue(front);
      ExpandConcat(front, last);
      ConcatValue(Expand(front), Expand(last));
    }
  }

  lemma ExpandedLast(last: string)
    requires Alphanumeric(last) && |last| == 1
    ensures IsUpper(last[0]) ==> |Expand(last)| == 2 && Value(Expand(last)) == 10 + (last[0] as nat - 'A' as nat)
    ensures !IsUpper(last[0]) ==> |Expand(last)| == 1 && Value(Expand(last)) == DigitValue(last[0])
    ensures Pow10(1) == 10 && Pow10(2) == 100
  {
    assert last[1..] == "" && Expand("") == "";
    if IsUpper(last[0]) {
      assert Expand(last) == LetterToDigits(last[0]) + "";
      assert LetterToDigits(last[0]) + "" == LetterToDigits(last[0]);
    } else {
      assert Expand(last) == [last[0]];
      assert [last[0]][..0] == "" && Value("") == 0;
    }
    assert Pow10(1) == 10;
  }

  /**
   A text is accepted exactly when it is two letters, two digits and 11 to 30 digits or letters, and the
   number it spells from its fifth character on, with the first four at the end, leaves 1 modulo 97.
   */
  lemma AcceptedExactly(s: string)
    ensures IsValidIban(s)
            <==> && 15 <= |s| <= 34
                 && (forall i :: 0 <= i < |s| ==>
                       if i < 2 then 'A' <= s[i] <= 'Z'
                       else if i < 4 then '0' <= s[i] <= '9'
                       else '0' <= s[i] <= '9' || 'A' <= s[i] <= 'Z')
                 && Alphanumeric(s[4..] + s[..4]) && Weigh(s[4..] + s[..4]) % 97 == 1
  {
    if 4 <= |s| && Alphanumeric(s[4..] + s[..4]) { ExpandedValue(s[4..] + s[..4]); }
    hide Value, Weigh, Expand;
  }

  /** The check digits are determined by the account: of 02 to 98 exactly one pair is valid. */
  lemma CheckDigitsAreUnique(s: string, t: string)
    requires IsValidTrIban(s) && IsValidTrIban(t) && s[4..] == t[4..]
    requires Digits(s[2..4]) && 2 <= Value(s[2..4]) <= 98 && Digits(t[2..4]) && 2 <= Value(t[2..4]) <= 98
    ensures s == t
  {
    hide Value, IsValidTrIban, Expand, Digits, Pow10;
    Shapes(s);
    Shapes(t);
    TrValid(s);
    TrValid(t);
    var base := s[4..] + "2927";
    TrNumeric(s);
    TrNumeric(t);
    BaseDigits(s[4..]);
    ConcatValue(base, s[2..4]);
    ConcatValue(base, t[2..4]);
    SameResidue(Value(base + s[2..4]), Value(base + t[2..4]));
    SmallMultiple(Value(s[2..4]) - Value(t[2..4]));
    PairIsDetermined(s[2..4], t[2..4]);
    assert s == s[..2] + s[2..4] + s[4..] && t == t[..2] + t[2..4] + t[4..];
  }

  lemma BaseDigits(a: string)
    requires Digits(a)
    ensures Digits(a + "2927")
  {
  }

  lemma SmallMultiple(d: int)
    requires d % 97 == 0 && -97 < d < 97
    ensures d == 0
  {
  }

  lemma PairIsDetermined(a: string, b: string)
    requires Digits(a) && Digits(b) && |a| == 2 && |b| == 2 && Value(a) == Value(b)
    ensures a == b
  {
    LastDigit(a);
    LastDigit(b);
    LastDigit(a[..1]);
    LastDigit(b[..1]);
    assert a[..1][..0] == "" && b[..1][..0] == "" && Value("") == 0;
    SameDigit(a[0], b[0]);
    SameDigit(a[1], b[1]);
  }

  lemma SameDigit(c: char, d: char)
    requires IsDigit(c) && IsDigit(d) && DigitValue(c) == DigitValue(d)
    ensures c == d
  {
  }

  /** An account number that is in use is accepted, and with another last digit it is not. */
  lemma DocumentedExample()
    ensures IsValidTrIban("TR330006100519786457841326") && !IsValidTrIban("TR330006100519786457841327")
  {
    var s := "TR330006100519786457841326";
    ExampleShape(s);
    TrValid(s);
    ExampleValue(s);
    hide IsValidTrIban;
    assert s[25 := '7'] == "TR330006100519786457841327";
    OneDigitIsDetected(s, 25, '7');
  }

  lemma ExampleShape(s: string)
    requires s == "TR330006100519786457841326"
    ensures TrShaped(s)
  {
    assert s[..2] == "TR";
  }

  lemma ExampleParts(s: string)
    requires s == "TR330006100519786457841326"
    ensures s[4..] == "0006100519786457841326" && s[2..4] == "33"
  {
    assert |s| == 26 && s[2] == '3' && s[3] == '3';
    var pair := s[2..4];
    assert |pair| == 2 && pair[0] == s[2] && pair[1] == s[3];
    assert pair == ['3', '3'];
  }

  lemma ExampleValue(s: string)
    requires s == "TR330006100519786457841326"
    ensures TrShaped(s) && Value(TrDigits(s)) == 6_100_519_786_457_841_326_292_733
  {
    ExampleShape(s);
    hide Value, Expand, Digits, IsDigit, TrShaped, Pow10;
    ExampleParts(s);
    assert TrDigits(s) == s[4..] + "2927" + s[2..4];
    ExampleRegrouped();
    Seven('0', '0', '0', '6', '1', '0', '0');
    Seven('5', '1', '9', '7', '8', '6', '4');
    Seven('5', '7', '8', '4', '1', '3', '2');
    Seven('6', '2', '9', '2', '7', '3', '3');
    ConcatValue("0006100", "5197864");
    ConcatValue("0006100" + "5197864", "5784132");
    ConcatValue("0006100" + "5197864" + "5784132", "6292733");
    SevenPlaces();
  }

  lemma ExampleRegrouped()
    ensures "0006100519786457841326" + "2927" + "33" == "0006100" + "5197864" + "5784132" + "6292733"
  {
  }

  lemma SevenPlaces()
    ensures Pow10(7) == 10_000_000
  {
    assert Pow10(2) == 100 * Pow10(0) && Pow10(4) == 100 * Pow10(2) && Pow10(6) == 100 * Pow10(4);
  }

  /** Seven digits, read from the left. */
  lemma Seven(a: char, b: char, c: char, d: char, e: char, f: char, g: char)
    requires IsDigit(a) && IsDigit(b) && IsDigit(c) && IsDigit(d) && IsDigit(e) && IsDigit(f) && IsDigit(g)
    ensures Digits([a, b, c, d, e, f, g])
    ensures Value([a, b, c, d, e, f, g])
            == 1_000_000 * DigitValue(a) + 100_000 * DigitValue(b) + 10_000 * DigitValue(c) + 1_000 * DigitValue(d)
               + 100 * DigitValue(e) + 10 * DigitValue(f) + DigitValue(g)
  {
    hide Value, DigitValue;
    EmptyText();
    AppendValue("", a);
    assert "" + [a] == [a];
    AppendValue([a], b);
    assert [a] + [b] == [a, b];
    AppendValue([a, b], c);
    assert [a, b] + [c] == [a, b, c];
    AppendValue([a, b, c], d);
    assert [a, b, c] + [d] == [a, b, c, d];
    AppendValue([a, b, c, d], e);
    assert [a, b, c, d] + [e] == [a, b, c, d, e];
    AppendValue([a, b, c, d, e], f);
    assert [a, b, c, d, e] + [f] == [a, b, c, d, e, f];
    AppendValue([a, b, c, d, e, f], g);
    assert [a, b, c, d, e, f] + [g] == [a, b, c, d, e, f, g];
  }

  lemma EmptyText()
    ensures Digits("") && Value("") == 0
  {
  }
}
