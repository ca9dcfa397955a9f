/**
 The scalar field of the proof verifier: integers modulo a prime.

 A field element is represented by any integer of its residue class; two representatives
 denote the same element exactly when they are congruent (`Eq`). Addition, subtraction and
 multiplication of representatives are then the integer operations, and `is_zero` and `==`
 of the source become tests modulo the prime.
 */
module Field {

  /** A representative of a field element. */
  type Fr = int

  /**
   The remainder modulo `n`, and below it the gcd, by repeated subtraction: linear definitions
   keep the many uses of field equality and inversion out of nonlinear arithmetic.
   */
  function Rem(n: int, x: int): (r: int)
    requires n > 0
    ensures 0 <= r < n
    decreases if x < 0 then n - x else x
  {
    if x < 0 then Rem(n, x + n) else if x < n then x else Rem(n, x - n)
  }

  predicate Divides(d: int, n: int)
    requires d > 0
  {
    Rem(d, n) == 0
  }

  ghost predicate IsPrime(n: int) {
    n > 1 && forall d :: 1 < d < n ==> !Divides(d, n)
  }

  type Prime = p: int | p > 1 && IsPrime(p) witness 2

  /** Equality of field elements. */
  predicate Eq(p: Prime, a: Fr, b: Fr) {
    Rem(p, a - b) == 0
  }

  // ------------------------------------------------------------ ring identities

  lemma Assoc(a: int, b: int, c: int)
    ensures (a * b) * c == a * (b * c)
  {
  }

  lemma Swap(a: int, b: int, c: int)
    ensures a * (b * c) == b * (a * c)
    ensures (a * b) * c == (a * c) * b
  {
  }

  lemma Distributes(s: int, a: int, b: int)
    ensures s * (a - b) == s * a - s * b && s * (a + b) == s * a + s * b
    ensures (a - b) * s == a * s - b * s && (a + b) * s == a * s + b * s
  {
  }

  lemma SwapFour(a: int, b: int, c: int, d: int)
    ensures (a * b) * (c * d) == (a * c) * (b * d)
  {
  }

  // ---------------------------------------------------------------- congruence

  lemma {:induction false} RemQuotient(n: int, x: int) returns (k: int)
    requires n > 0
    ensures x == Rem(n, x) + k * n
    decreases if x < 0 then n - x else x
  {
    if x < 0 {
      k := RemQuotient(n, x + n);
      Distributes(n, k, 1);
      k := k - 1;
    } else if x < n {
      k := 0;
    } else {
      k := RemQuotient(n, x - n);
      Distributes(n, k, 1);
      k := k + 1;
    }
  }

  lemma MultipleBounds(k: int, d: int)
    requires d > 0
    ensures k >= 1 ==> k * d >= d
    ensures k <= -1 ==> k * d <= 0 - d
  {
  }

  lemma MultipleRemainder(k: int, n: int)
    requires n > 0
    ensures Rem(n, k * n) == 0
  {
    var q := RemQuotient(n, k * n);
    assert Rem(n, k * n) == (k - q) * n;
    MultipleBounds(k - q, n);
  }

  lemma EqWitness(p: Prime, a: Fr, b: Fr) returns (k: int)
    requires Eq(p, a, b)
    ensures a == b + k * p
  {
    k := RemQuotient(p, a - b);
  }

  lemma EqFromMultiple(p: Prime, a: Fr, b: Fr, k: int)
    requires a == b + k * p
    ensures Eq(p, a, b)
  {
    MultipleRemainder(k, p);
    assert a - b == k * p;
  }

  lemma EqRefl(p: Prime, a: Fr)
    ensures Eq(p, a, a)
  {
    EqFromMultiple(p, a, a, 0);
  }

  lemma EqSym(p: Prime, a: Fr, b: Fr)
    requires Eq(p, a, b)
    ensures Eq(p, b, a)
  {
    var k := EqWitness(p, a, b);
    EqFromMultiple(p, b, a, -k);
  }

  lemma EqTrans(p: Prime, a: Fr, b: Fr, c: Fr)
    requires Eq(p, a, b) && Eq(p, b, c)
    ensures Eq(p, a, c)
  {
    var k := EqWitness(p, a, b);
    var l := EqWitness(p, b, c);
    assert (k + l) * p == k * p + l * p;
    EqFromMultiple(p, a, c, k + l);
  }

  lemma EqAdd(p: Prime, a: Fr, b: Fr, c: Fr, d: Fr)
    requires Eq(p, a, b) && Eq(p, c, d)
    ensures Eq(p, a + c, b + d)
  {
    var k := EqWitness(p, a, b);
    var l := EqWitness(p, c, d);
    assert (k + l) * p == k * p + l * p;
    EqFromMultiple(p, a + c, b + d, k + l);
  }

  lemma EqSub(p: Prime, a: Fr, b: Fr, c: Fr, d: Fr)
    requires Eq(p, a, b) && Eq(p, c, d)
    ensures Eq(p, a - c, b - d)
  {
    var k := EqWitness(p, a, b);
    var l := EqWitness(p, c, d);
    assert (k - l) * p == k * p - l * p;
    EqFromMultiple(p, a - c, b - d, k - l);
  }

  lemma MulExpand(b: int, d: int, k: int, l: int, p: int)
    ensures (b + k * p) * (d + l * p) == b * d + (b * l + k * d + k * p * l) * p
  {
  }

  lemma EqMul(p: Prime, a: Fr, b: Fr, c: Fr, d: Fr)
    requires Eq(p, a, b) && Eq(p, c, d)
    ensures Eq(p, a * c, b * d)
  {
    var k := EqWitness(p, a, b);
    var l := EqWitness(p, c, d);
    MulExpand(b, d, k, l, p);
    EqFromMultiple(p, a * c, b * d, b * l + k * d + k * p * l);
  }

  /** Congruence of one factor. */
  lemma EqScale(p: Prime, s: Fr, a: Fr, b: Fr)
    requires Eq(p, a, b)
    ensures Eq(p, s * a, s * b) && Eq(p, a * s, b * s)
  {
    EqRefl(p, s);
    EqMul(p, s, s, a, b);
    EqMul(p, a, b, s, s);
  }

  lemma EqDifference(p: Prime, a: Fr, b: Fr)
    ensures Eq(p, a - b, 0) <==> Eq(p, a, b)
  {
    assert a - b - 0 == a - b;
  }

  /** Small distinct integers are distinct field elements. */
  lemma SmallDistinct(p: Prime, a: Fr, b: Fr)
    requires a != b && a - b < p && b - a < p
    ensures !Eq(p, a, b)
  {
    if Eq(p, a, b) {
      var k := EqWitness(p, a, b);
      MultipleBounds(k, p);
    }
  }

  // ------------------------------------------------------------------- inverse

  datatype Bezout = Bezout(g: int, s: int, t: int)

  /** The extended Euclidean algorithm: the gcd and its two coefficients. */
  function Euclid(a: int, b: int): Bezout
    requires a >= 0 && b >= 0
    decreases a + b
  {
    if a == 0 then Bezout(b, 0, 1)
    else if b == 0 then Bezout(a, 1, 0)
    else if a <= b then
      var r := Euclid(a, b - a); Bezout(r.g, r.s - r.t, r.t)
    else
      var r := Euclid(a - b, b); Bezout(r.g, r.s, r.t - r.s)
  }

  lemma {:induction false} EuclidCombination(a: int, b: int)
    requires a >= 0 && b >= 0
    ensures var r := Euclid(a, b); r.s * a + r.t * b == r.g
    decreases a + b
  {
    if a == 0 || b == 0 {
    } else if a <= b {
      EuclidCombination(a, b - a);
      var r := Euclid(a, b - a);
      Distributes(a, r.s, r.t);
      Distributes(r.t, b, a);
    } else {
      EuclidCombination(a - b, b);
      var r := Euclid(a - b, b);
      Distributes(b, r.t, r.s);
      Distributes(r.s, a, b);
    }
  }

  lemma {:induction false} EuclidDivides(a: int, b: int) returns (m: int, n: int)
    requires a >= 0 && b >= 0
    ensures a == m * Euclid(a, b).g && b == n * Euclid(a, b).g
    ensures a + b > 0 ==> Euclid(a, b).g > 0
    decreases a + b
  {
    if a == 0 {
      m, n := 0, 1;
    } else if b == 0 {
      m, n := 1, 0;
    } else if a <= b {
      m, n := EuclidDivides(a, b - a);
      n := n + m;
    } else {
      m, n := EuclidDivides(a - b, b);
      m := m + n;
    }
  }

  /** `Fr::inverse`: the inverse of a nonzero element. */
  function Inv(p: Prime, a: Fr): Fr {
    Euclid(Rem(p, a), p).s
  }

  lemma PrimeDivisor(p: Prime, n: int, g: int)
    requires g > 0 && p == n * g
    ensures g == 1 || g == p
  {
    MultipleRemainder(n, g);
    assert Divides(g, p);
    assert IsPrime(p);
    MultipleBounds(n, g);
    MultipleBounds(n - 1, g);
    assert n * g == (n - 1) * g + g;
  }

  lemma EuclidUnit(p: Prime, r: int)
    requires 0 < r < p
    ensures Euclid(r, p).g == 1
  {
    var g := Euclid(r, p).g;
    var m, n := EuclidDivides(r, p);
    PrimeDivisor(p, n, g);
    MultipleBounds(m, g);
  }

  lemma InvIsInverse(p: Prime, a: Fr)
    requires !Eq(p, a, 0)
    ensures Eq(p, a * Inv(p, a), 1)
    ensures Eq(p, Inv(p, a) * a, 1)
  {
    var r := Rem(p, a);
    var q := RemQuotient(p, a);
    assert a - 0 == a;
    EuclidUnit(p, r);
    EuclidCombination(r, p);
    InverseAlgebra(p, a, q, r, Euclid(r, p).s, Euclid(r, p).t);
  }

  lemma InverseAlgebra(p: Prime, a: Fr, q: int, r: int, s: int, t: int)
    requires a == r + q * p && s * r + t * p == 1
    ensures Eq(p, a * s, 1) && Eq(p, s * a, 1)
  {
    assert a * s == 1 + (q * s - t) * p;
    EqFromMultiple(p, a * s, 1, q * s - t);
    assert s * a == a * s;
  }

  /** A field has no zero divisors. */
  lemma NoZeroDivisors(p: Prime, a: Fr, b: Fr)
    requires Eq(p, a * b, 0)
    ensures Eq(p, a, 0) || Eq(p, b, 0)
  {
    if !Eq(p, a, 0) {
      InvIsInverse(p, a);
      var i := Inv(p, a);
      EqScale(p, i, a * b, 0);
      EqScale(p, b, i * a, 1);
      Swap(i, b, a);
      assert i * (a * b) == b * (i * a);
      EqSym(p, b * (i * a), b);
      EqTrans(p, b, i * (a * b), 0);
    }
  }

  /** A product with a zero factor is zero. */
  lemma ZeroFactor(p: Prime, a: Fr, b: Fr)
    requires Eq(p, a, 0) || Eq(p, b, 0)
    ensures Eq(p, a * b, 0)
  {
    if Eq(p, a, 0) { EqScale(p, b, a, 0); } else { EqScale(p, a, b, 0); }
  }

  /** A nonzero factor can be cancelled. */
  lemma Cancel(p: Prime, s: Fr, a: Fr, b: Fr)
    requires !Eq(p, s, 0)
    requires Eq(p, s * a, s * b)
    ensures Eq(p, a, b)
  {
    EqDifference(p, s * a, s * b);
    Distributes(s, a, b);
    NoZeroDivisors(p, s, a - b);
    EqDifference(p, a, b);
  }

  /** Whatever inverts a nonzero element gives the same product with it. */
  lemma DivideOut(p: Prime, n: Fr, d: Fr, i: Fr, v: Fr)
    requires Eq(p, d * i, 1)
    requires Eq(p, n, v * d)
    ensures Eq(p, n * i, v)
  {
    EqScale(p, i, n, v * d);
    EqScale(p, v, d * i, 1);
    Assoc(v, d, i);
    EqTrans(p, n * i, (v * d) * i, v * 1);
  }

  // ------------------------------------------------------------- finite products

  function Product(s: seq<Fr>): Fr {
    if s == [] then 1 else Product(s[..|s| - 1]) * s[|s| - 1]
  }

  lemma {:induction false} ProductZero(p: Prime, s: seq<Fr>)
    ensures Eq(p, Product(s), 0) <==> exists k :: 0 <= k < |s| && Eq(p, s[k], 0)
  {
    if s == [] {
      SmallDistinct(p, 1, 0);
    } else {
      var t, x := s[..|s| - 1], s[|s| - 1];
      ProductZero(p, t);
      if Eq(p, Product(s), 0) {
        NoZeroDivisors(p, Product(t), x);
        if Eq(p, Product(t), 0) {
          var k :| 0 <= k < |t| && Eq(p, t[k], 0);
          assert Eq(p, s[k], 0);
        }
      }
      if exists k :: 0 <= k < |s| && Eq(p, s[k], 0) {
        var k :| 0 <= k < |s| && Eq(p, s[k], 0);
        if k < |t| { assert t[k] == s[k]; }
        ZeroFactor(p, Product(t), x);
      }
    }
  }

  function Power(x: Fr, n: nat): Fr {
    if n == 0 then 1 else x * Power(x, n - 1)
  }

  lemma {:induction false} PowerAdd(x: Fr, m: nat, n: nat)
    ensures Power(x, m + n) == Power(x, m) * Power(x, n)
  {
    if m > 0 {
      PowerAdd(x, m - 1, n);
      assert x * (Power(x, m - 1) * Power(x, n)) == (x * Power(x, m - 1)) * Power(x, n);
    }
  }

  lemma {:induction false} PowerSquare(x: Fr, n: nat)
    ensures Power(x * x, n) == Power(x, 2 * n)
  {
    if n > 0 {
      PowerSquare(x, n - 1);
      assert Power(x, 2 * n) == x * (x * Power(x, 2 * n - 2));
      assert (x * x) * Power(x * x, n - 1) == x * (x * Power(x * x, n - 1));
    }
  }

  // ------------------------------------------------------------ batch inversion

  lemma ProductStep(s: seq<Fr>, i: nat)
    requires i < |s|
    ensures Product(s[..i + 1]) == Product(s[..i]) * s[i]
  {
    assert s[..i + 1][..i] == s[..i];
  }

  lemma ProductOne(s: seq<Fr>)
    requires s != []
    ensures Product(s[..1]) == s[0]
  {
  }

  lemma SweepStep(p: Prime, vals: seq<Fr>, i: nat, invAcc: Fr)
    requires i < |vals|
    requires Eq(p, invAcc * Product(vals[..i + 1]), 1)
    ensures Eq(p, vals[i] * (invAcc * Product(vals[..i])), 1)
    ensures Eq(p, (invAcc * vals[i]) * Product(vals[..i]), 1)
    ensures i == 0 ==> Eq(p, vals[i] * invAcc, 1)
  {
    ProductStep(vals, i);
    var prefix := Product(vals[..i]);
    Swap(vals[i], invAcc, prefix);
    Assoc(invAcc, vals[i], prefix);
    assert vals[i] * prefix == prefix * vals[i];
  }

  /**
   Montgomery's trick: prefix products on the way up, one inversion, then a sweep down that
   peels one factor at a time off the inverse of the whole product.
   */
  method BatchInverse(p: Prime, vals: seq<Fr>, out: array<Fr>) returns (ok: bool)
    requires |vals| == out.Length
    modifies out
    ensures ok <==> forall i :: 0 <= i < |vals| ==> !Eq(p, vals[i], 0)
    ensures ok ==> forall i :: 0 <= i < |vals| ==> Eq(p, vals[i] * out[i], 1)
    ensures !ok ==> forall i :: 0 <= i < |vals| ==> out[i] == Product(vals[..i + 1])
  {
    hide Eq, Product, Inv;
    var n := |vals|;
    if n == 0 {
      return true;
    }
    out[0] := vals[0];
    ProductOne(vals);
    for i := 1 to n
      invariant forall k :: 0 <= k < i ==> out[k] == Product(vals[..k + 1])
    {
      ProductStep(vals, i);
      out[i] := out[i - 1] * vals[i];
    }
    assert vals[..n] == vals;
    ProductZero(p, vals);
    if Eq(p, out[n - 1], 0) {
      return false;
    }
    InvIsInverse(p, out[n - 1]);
    var invAcc := Inv(p, out[n - 1]);
    var i := n - 1;
    while i > 0
      invariant 0 <= i < n
      invariant Eq(p, invAcc * Product(vals[..i + 1]), 1)
      invariant forall k :: 0 <= k <= i ==> out[k] == Product(vals[..k + 1])
      invariant forall k :: i < k < n ==> Eq(p, vals[k] * out[k], 1)
    {
      SweepStep(p, vals, i, invAcc);
      out[i] := invAcc * out[i - 1];
      invAcc := invAcc * vals[i];
      i := i - 1;
    }
    SweepStep(p, vals, 0, invAcc);
    out[0] := invAcc;
    return true;
  }
}
