/**
 Soundness of a batch opening: a polynomial is claimed to take a value at a point, many such claims are
 checked by one equation, and a false claim passes only if some challenge is a root of a nonzero
 polynomial that was fixed before the challenge.
 */
module Shplonk {
  import opened Field
  import opened Polynomial
  import opened Relations

  // ---------------------------------------------------------------- lucky challenges

  ghost predicate ZeroPoly(p: Prime, c: Poly) {
    forall i :: 0 <= i < |c| ==> Eq(p, c[i], 0)
  }

  /** The challenge is a root of a polynomial that is not zero. */
  ghost predicate Lucky(p: Prime, c: Poly, x: Fr) {
    !ZeroPoly(p, c) && Eq(p, Eval(c, x), 0)
  }

  /** Fewer challenges are lucky than the polynomial has coefficients. */
  lemma FewLucky(p: Prime, c: Poly, xs: seq<Fr>)
    requires Distinct(p, xs) && xs != [] && forall i :: 0 <= i < |xs| ==> Lucky(p, c, xs[i])
    ensures |xs| < |c|
  {
    hide Eq, Eval;
    assert Lucky(p, c, xs[0]);
    BatchingSeparates(p, c, xs);
  }

  lemma {:induction false} EvalZeroPoly(p: Prime, c: Poly, x: Fr)
    requires ZeroPoly(p, c)
    ensures Eq(p, Eval(c, x), 0)
  {
    hide Eq;
    if c == [] {
      EqRefl(p, 0);
    } else {
      EvalZeroPoly(p, c[1..], x);
      EqScale(p, x, Eval(c[1..], x), 0);
      EqAdd(p, c[0], 0, x * Eval(c[1..], x), x * 0);
    }
  }

  lemma UnluckyIsZero(p: Prime, c: Poly, x: Fr, y: Fr)
    requires Eq(p, Eval(c, x), 0) && !Lucky(p, c, x)
    ensures Eq(p, Eval(c, y), 0)
  {
    hide Eq;
    EvalZeroPoly(p, c, y);
  }

  // -------------------------------------------------------------- building polynomials

  /** The sum of two polynomials of any lengths. */
  function Plus(a: Poly, b: Poly): (r: Poly)
    ensures |r| == if |a| < |b| then |b| else |a|
  {
    if a == [] then b else if b == [] then a else [a[0] + b[0]] + Plus(a[1..], b[1..])
  }

  lemma {:induction false} EvalPlus(a: Poly, b: Poly, x: Fr)
    ensures Eval(Plus(a, b), x) == Eval(a, x) + Eval(b, x)
  {
    if a != [] && b != [] {
      EvalPlus(a[1..], b[1..], x);
      assert Plus(a, b)[1..] == Plus(a[1..], b[1..]);
      Distributes(x, Eval(a[1..], x), Eval(b[1..], x));
    }
  }

  /** The product with all `X - r`. */
  function TimesAll(a: Poly, rs: seq<Fr>): Poly {
    if rs == [] then a else TimesLinear(TimesAll(a, rs[..|rs| - 1]), rs[|rs| - 1])
  }

  lemma {:induction false} EvalTimesAll(a: Poly, rs: seq<Fr>, x: Fr)
    ensures Eval(TimesAll(a, rs), x) == Eval(a, x) * Vanish(rs, x)
  {
    hide Eval;
    if rs != [] {
      var m := |rs| - 1;
      EvalTimesAll(a, rs[..m], x);
      EvalTimesLinear(TimesAll(a, rs[..m]), rs[m], x);
      Assoc(Eval(a, x), Vanish(rs[..m], x), x - rs[m]);
    }
  }

  // --------------------------------------------------------------------------- claims

  /** The polynomial is claimed to take the value at the point. */
  datatype Claim = Claim(poly: Poly, point: Fr, value: Fr)

  ghost predicate Holds(p: Prime, cl: Claim) {
    Eq(p, Eval(cl.poly, cl.point), cl.value)
  }

  function Excess(cl: Claim): Poly {
    Plus(cl.poly, [0 - cl.value])
  }

  lemma EvalExcess(cl: Claim, x: Fr)
    ensures Eval(Excess(cl), x) == Eval(cl.poly, x) - cl.value
  {
    EvalPlus(cl.poly, [0 - cl.value], x);
    var v: Poly := [0 - cl.value];
    assert v[1..] == [] && x * 0 == 0;
  }

  function Points(cs: seq<Claim>): (xs: seq<Fr>)
    ensures |xs| == |cs|
  {
    seq(|cs|, i requires 0 <= i < |cs| => cs[i].point)
  }

  /** The first `k` claims at `y`, weighted. */
  function Weighted(cs: seq<Claim>, ws: seq<Fr>, k: nat, y: Fr): Fr
    requires k <= |cs| == |ws|
  {
    if k == 0 then 0 else Weighted(cs, ws, k - 1, y) + ws[k - 1] * (Eval(cs[k - 1].poly, y) - cs[k - 1].value)
  }

  // ------------------------------------------------- the opening at the secret point

  /** Quotient, weighted claims and opening proof, before the secret point is put in. */
  function SecretPoly(q: Poly, w: Poly, z: Fr, cs: seq<Claim>, ws: seq<Fr>, k: nat): Poly
    requires k <= |cs| == |ws|
  {
    if k == 0 then Plus(q, Scale(-1, TimesLinear(w, z)))
    else Plus(SecretPoly(q, w, z, cs, ws, k - 1), Scale(0 - ws[k - 1], Excess(cs[k - 1])))
  }

  lemma {:induction false} EvalSecret(q: Poly, w: Poly, z: Fr, cs: seq<Claim>, ws: seq<Fr>, k: nat, y: Fr)
    requires k <= |cs| == |ws|
    ensures Eval(SecretPoly(q, w, z, cs, ws, k), y)
         == Eval(q, y) - Weighted(cs, ws, k, y) - (y - z) * Eval(w, y)
  {
    hide Eval, Excess;
    if k == 0 {
      EvalPlus(q, Scale(-1, TimesLinear(w, z)), y);
      EvalScale(-1, TimesLinear(w, z), y);
      EvalTimesLinear(w, z, y);
      assert Eval(w, y) * (y - z) == (y - z) * Eval(w, y);
    } else {
      EvalSecret(q, w, z, cs, ws, k - 1, y);
      EvalPlus(SecretPoly(q, w, z, cs, ws, k - 1), Scale(0 - ws[k - 1], Excess(cs[k - 1])), y);
      EvalScale(0 - ws[k - 1], Excess(cs[k - 1]), y);
      EvalExcess(cs[k - 1], y);
      Negated(ws[k - 1], Eval(cs[k - 1].poly, y) - cs[k - 1].value);
    }
  }

  lemma Negated(a: Fr, b: Fr)
    ensures (0 - a) * b == 0 - a * b
  {
  }

  // --------------------------------------------------- the quotient at the random point

  /** `Q * prod (X - x_i) - sum nu^i (a_i - v_i) prod_{j != i} (X - x_j)`: zero exactly for true claims. */
  function QuotientPoly(q: Poly, cs: seq<Claim>, nu: Fr, k: nat): Poly
    requires k <= |cs|
  {
    if k == 0 then TimesAll(q, Points(cs))
    else Plus(QuotientPoly(q, cs, nu, k - 1),
              Scale(0 - Power(nu, k - 1), TimesAll(Excess(cs[k - 1]), Others(Points(cs), k - 1))))
  }

  lemma EvalQuotientStep(q: Poly, cs: seq<Claim>, nu: Fr, k: nat, y: Fr)
    requires k < |cs|
    ensures Eval(QuotientPoly(q, cs, nu, k + 1), y)
         == Eval(QuotientPoly(q, cs, nu, k), y)
            - Power(nu, k) * ((Eval(cs[k].poly, y) - cs[k].value) * Vanish(Others(Points(cs), k), y))
  {
    hide Eval, Power, TimesAll, Others, Vanish, Excess;
    var t := TimesAll(Excess(cs[k]), Others(Points(cs), k));
    EvalPlus(QuotientPoly(q, cs, nu, k), Scale(0 - Power(nu, k), t), y);
    EvalScale(0 - Power(nu, k), t, y);
    EvalTimesAll(Excess(cs[k]), Others(Points(cs), k), y);
    EvalExcess(cs[k], y);
    Negated(Power(nu, k), Eval(t, y));
  }

  /** The weights of the equation: powers of nu over the distances of `z` to the points. */
  ghost predicate IsWeights(p: Prime, cs: seq<Claim>, nu: Fr, z: Fr, ws: seq<Fr>) {
    |ws| == |cs| && forall i :: 0 <= i < |cs| ==> Eq(p, (z - cs[i].point) * ws[i], Power(nu, i))
  }

  /** Clearing the denominators of the equation at `z`. */
  lemma {:induction false} Cleared(p: Prime, q: Poly, cs: seq<Claim>, nu: Fr, z: Fr, ws: seq<Fr>, k: nat)
    requires IsWeights(p, cs, nu, z, ws) && k <= |cs|
    ensures Eq(p, Eval(QuotientPoly(q, cs, nu, k), z), Vanish(Points(cs), z) * (Eval(q, z) - Weighted(cs, ws, k, z)))
  {
    hide Eq, Eval, Power, Vanish, QuotientPoly, Others;
    var v := Vanish(Points(cs), z);
    if k == 0 {
      FirstCleared(q, cs, nu, z);
      EqRefl(p, Eval(QuotientPoly(q, cs, nu, 0), z));
    } else {
      var i := k - 1;
      Cleared(p, q, cs, nu, z, ws, i);
      EvalQuotientStep(q, cs, nu, i, z);
      VanishSplit(Points(cs), i, z);
      var e, o := Eval(cs[i].poly, z) - cs[i].value, Vanish(Others(Points(cs), i), z);
      ClearedStep(p, Eval(QuotientPoly(q, cs, nu, i), z), v, Eval(q, z) - Weighted(cs, ws, i, z), Power(nu, i),
                  e, o, z - cs[i].point, ws[i]);
    }
  }

  lemma ClearedStep(p: Prime, front: Fr, v: Fr, rest: Fr, power: Fr, e: Fr, o: Fr, d: Fr, w: Fr)
    requires Eq(p, front, v * rest) && v == o * d && Eq(p, d * w, power)
    ensures Eq(p, front - power * (e * o), v * (rest - w * e))
  {
    hide Eq;
    EqSym(p, d * w, power);
    EqScale(p, e * o, power, d * w);
    ClearedAlgebra(o, d, w, e);
    EqSub(p, front, v * rest, power * (e * o), v * (w * e));
    Distributes(v, rest, w * e);
  }

  lemma FirstCleared(q: Poly, cs: seq<Claim>, nu: Fr, z: Fr)
    ensures Eval(QuotientPoly(q, cs, nu, 0), z) == Vanish(Points(cs), z) * (Eval(q, z) - 0)
  {
    hide Eval, Vanish;
    EvalTimesAll(q, Points(cs), z);
  }

  lemma ClearedAlgebra(o: Fr, d: Fr, w: Fr, e: Fr)
    ensures (d * w) * (e * o) == (o * d) * (w * e)
  {
    SwapFour(d, w, e, o);
    SwapFour(o, d, w, e);
    assert (d * e) * (w * o) == (o * w) * (d * e);
  }

  /** At the point of claim `m` only that claim is left of the polynomial. */
  lemma {:induction false} OnlyOneClaim(q: Poly, cs: seq<Claim>, nu: Fr, m: nat, k: nat)
    requires m < |cs| && k <= |cs|
    ensures Eval(QuotientPoly(q, cs, nu, k), cs[m].point)
         == if k <= m then 0
            else 0 - Power(nu, m) * ((Eval(cs[m].poly, cs[m].point) - cs[m].value) * Vanish(Others(Points(cs), m), cs[m].point))
  {
    hide Eval, Power, Vanish, QuotientPoly, Others;
    var x := cs[m].point;
    if k == 0 {
      FirstCleared(q, cs, nu, x);
      VanishSplit(Points(cs), m, x);
      assert Vanish(Others(Points(cs), m), x) * 0 == 0;
      assert 0 * (Eval(q, x) - 0) == 0;
    } else {
      OnlyOneClaim(q, cs, nu, m, k - 1);
      EvalQuotientStep(q, cs, nu, k - 1, x);
      if k - 1 != m {
        OtherVanishes(Points(cs), k - 1, m);
        assert (Eval(cs[k - 1].poly, x) - cs[k - 1].value) * 0 == 0;
        assert Power(nu, k - 1) * 0 == 0;
      }
    }
  }

  lemma OtherVanishes(xs: seq<Fr>, i: nat, m: nat)
    requires i < |xs| && m < |xs| && i != m
    ensures Vanish(Others(xs, i), xs[m]) == 0
  {
    hide Vanish;
    var o := Others(xs, i);
    var k := if m < i then m else m - 1;
    assert o[k] == xs[m];
    VanishSplit(o, k, xs[m]);
    assert Vanish(Others(o, k), xs[m]) * 0 == 0;
  }

  lemma {:induction false} PowerNonzero(p: Prime, x: Fr, n: nat)
    requires !Eq(p, x, 0)
    ensures !Eq(p, Power(x, n), 0)
  {
    hide Eq;
    if n == 0 {
      SmallDistinct(p, 1, 0);
    } else {
      PowerNonzero(p, x, n - 1);
      if Eq(p, x * Power(x, n - 1), 0) { NoZeroDivisors(p, x, Power(x, n - 1)); }
    }
  }

  /** If the polynomial is zero, every claim is true. */
  lemma ZeroMeansTrue(p: Prime, q: Poly, cs: seq<Claim>, nu: Fr, m: nat)
    requires ZeroPoly(p, QuotientPoly(q, cs, nu, |cs|)) && Distinct(p, Points(cs)) && !Eq(p, nu, 0) && m < |cs|
    ensures Holds(p, cs[m])
  {
    hide Eq, Eval, Power, Vanish, QuotientPoly, Others;
    var x := cs[m].point;
    var e, o := Eval(cs[m].poly, x) - cs[m].value, Vanish(Others(Points(cs), m), x);
    EvalZeroPoly(p, QuotientPoly(q, cs, nu, |cs|), x);
    OnlyOneClaim(q, cs, nu, m, |cs|);
    EqRefl(p, 0);
    EqSub(p, 0, 0, 0 - Power(nu, m) * (e * o), 0);
    NoZeroDivisors(p, Power(nu, m), e * o);
    PowerNonzero(p, nu, m);
    NoZeroDivisors(p, e, o);
    assert !Eq(p, o, 0) by {
      WeightNonzero(p, Points(cs), m);
      assert Points(cs)[m] == x;
    }
    EqDifference(p, Eval(cs[m].poly, x), cs[m].value);
  }

  // ------------------------------------------------------------------------ soundness

  /** Some challenge of the batch opening hit a root of a nonzero polynomial fixed before it. */
  ghost predicate LuckyOpening(p: Prime, q: Poly, w: Poly, cs: seq<Claim>, nu: Fr, z: Fr, ws: seq<Fr>, tau: Fr)
    requires |cs| == |ws|
  {
    || Eq(p, nu, 0)
    || Lucky(p, QuotientPoly(q, cs, nu, |cs|), z)
    || Lucky(p, SecretPoly(q, w, z, cs, ws, |cs|), tau)
  }

  /**
   If the one equation holds at the secret point, every claim is true, unless a challenge was lucky. The
   points must differ; how the claims, the quotient and the opening proof came about does not matter.
   */
  lemma BatchIsSound(p: Prime, q: Poly, w: Poly, cs: seq<Claim>, nu: Fr, z: Fr, ws: seq<Fr>, tau: Fr)
    requires IsWeights(p, cs, nu, z, ws) && Distinct(p, Points(cs))
    requires Eq(p, Eval(q, tau) - Weighted(cs, ws, |cs|, tau) - (tau - z) * Eval(w, tau), 0)
    ensures (forall m :: 0 <= m < |cs| ==> Holds(p, cs[m])) || LuckyOpening(p, q, w, cs, nu, z, ws, tau)
  {
    hide Eq, Eval, Vanish, QuotientPoly, SecretPoly, Holds, Power;
    if !LuckyOpening(p, q, w, cs, nu, z, ws, tau) {
      EvalSecret(q, w, z, cs, ws, |cs|, tau);
      UnluckyIsZero(p, SecretPoly(q, w, z, cs, ws, |cs|), tau, z);
      EvalSecret(q, w, z, cs, ws, |cs|, z);
      assert (z - z) * Eval(w, z) == 0;
      Cleared(p, q, cs, nu, z, ws, |cs|);
      ZeroFactor(p, Vanish(Points(cs), z), Eval(q, z) - Weighted(cs, ws, |cs|, z));
      EqTrans(p, Eval(QuotientPoly(q, cs, nu, |cs|), z), Vanish(Points(cs), z) * (Eval(q, z) - Weighted(cs, ws, |cs|, z)), 0);
      forall m | 0 <= m < |cs| ensures Holds(p, cs[m]) {
        ZeroMeansTrue(p, q, cs, nu, m);
      }
    }
  }
}
