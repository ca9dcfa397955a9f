/** Completeness of the batch opening: Gemini folding, and why the honest prover is accepted. */
module Gemini {
  import opened Field
  import opened Polynomial
  import opened GateSeparator
  import opened Shplemini

  // -------------------------------------------------------------------------- folding

  /** One Gemini fold: even coefficients weighted by `1 - u`, odd ones by `u`. */
  function Fold(a: Poly, u: Fr): (b: Poly)
    ensures |b| == |a| / 2
  {
    if |a| < 2 then [] else [(1 - u) * a[0] + u * a[1]] + Fold(a[2..], u)
  }

  lemma FoldIdentityHead(a0: Fr, a1: Fr, u: Fr, x: Fr)
    ensures x * ((1 - u) * a0 + u * a1) * 2 - (a0 - x * a1) * (x * (1 - u) - u)
         == (a0 + x * a1) * (x * (1 - u) + u)
  {
    assert x * ((1 - u) * a0 + u * a1) * 2 == 2 * (x * a0) - 2 * (x * a0) * u + 2 * (x * a1) * u by {
      assert x * ((1 - u) * a0) == x * a0 - (x * a0) * u;
      assert x * (u * a1) == (x * a1) * u;
      Distributes(x, (1 - u) * a0, u * a1);
    }
    var l := x - x * u;
    assert x * (1 - u) == l;
    assert (a0 - x * a1) * (l - u) == a0 * l - a0 * u - (x * a1) * l + (x * a1) * u;
    assert (a0 + x * a1) * (l + u) == a0 * l + a0 * u + (x * a1) * l + (x * a1) * u;
    assert a0 * l == x * a0 - (x * a0) * u;
  }

  lemma FoldIdentityStep(x: Fr, h: Fr, hn: Fr, hp: Fr, f: Fr, fn: Fr, fp: Fr, lin: Fr, den: Fr)
    requires x * h * 2 - hn * lin == hp * den
    requires x * f * 2 - fn * lin == fp * den
    ensures x * (h + x * x * f) * 2 - (hn + x * x * fn) * lin == (hp + x * x * fp) * den
  {
    var s := x * x;
    assert s * (x * f * 2 - fn * lin) == s * (fp * den);
    assert x * (s * f) * 2 == s * (x * f * 2) by { Swap(x, s, f); }
    Assoc(s, fn, lin);
    Assoc(s, fp, den);
    Distributes(s, x * f * 2, fn * lin);
    Distributes(lin, hn, s * fn);
    Distributes(den, hp, s * fp);
    Distributes(x, h, s * f);
  }

  lemma EvalTwo(a: Poly, x: Fr)
    requires |a| >= 2
    ensures Eval(a, x) == (a[0] + x * a[1]) + x * x * Eval(a[2..], x)
  {
    assert a[1..][1..] == a[2..];
    var e := Eval(a[2..], x);
    assert Eval(a, x) == a[0] + x * (a[1] + x * e);
    Distributes(x, a[1], x * e);
    Assoc(x, x, e);
  }

  /** Folding relates the values at `x`, `-x` and, for the folded polynomial, at `x * x`. */
  lemma {:induction false} FoldIdentity(a: Poly, u: Fr, x: Fr)
    requires |a| % 2 == 0
    ensures x * Eval(Fold(a, u), x * x) * 2 - Eval(a, 0 - x) * (x * (1 - u) - u)
         == Eval(a, x) * (x * (1 - u) + u)
  {
    if a == [] {
      assert x * 0 * 2 == 0;
    } else {
      var t := a[2..];
      var f := Fold(t, u);
      FoldIdentity(t, u, x);
      EvalTwo(a, x);
      EvalTwo(a, 0 - x);
      assert (0 - x) * (0 - x) == x * x && (0 - x) * a[1] == 0 - x * a[1];
      assert Fold(a, u)[1..] == f;
      FoldIdentityHead(a[0], a[1], u, x);
      FoldIdentityStep(x, (1 - u) * a[0] + u * a[1], a[0] - x * a[1], a[0] + x * a[1],
                       Eval(f, x * x), Eval(t, 0 - x), Eval(t, x), x * (1 - u) - u, x * (1 - u) + u);
    }
  }

  /** The fold after `j` rounds. */
  function FoldedAt(a: Poly, us: seq<Fr>, j: nat): (b: Poly)
    requires j <= |us| && |a| == Pow2(|us|)
    ensures |b| == Pow2(|us| - j)
  {
    if j == 0 then a else Fold(FoldedAt(a, us, j - 1), us[j - 1])
  }

  // ------------------------------------------------------------ multilinear evaluation

  /** The first `k` terms of the multilinear extension of the coefficient vector. */
  function MultilinearSum(a: Poly, us: seq<Fr>, k: nat): Fr
    requires k <= |a|
  {
    if k == 0 then 0 else MultilinearSum(a, us, k - 1) + RowIndicator(us, k - 1) * a[k - 1]
  }

  function Multilinear(a: Poly, us: seq<Fr>): Fr {
    MultilinearSum(a, us, |a|)
  }

  lemma {:induction false} FoldAt(a: Poly, u: Fr, i: nat)
    requires i < |a| / 2
    ensures Fold(a, u)[i] == (1 - u) * a[2 * i] + u * a[2 * i + 1]
  {
    if i > 0 {
      FoldAt(a[2..], u, i - 1);
    }
  }

  /** The indicators of two neighbouring rows, by the first variable. */
  lemma IndicatorPair(us: seq<Fr>, m: nat)
    requires us != []
    ensures RowIndicator(us, 2 * m) == (1 - us[0]) * RowIndicator(us[1..], m)
    ensures RowIndicator(us, 2 * m + 1) == us[0] * RowIndicator(us[1..], m)
  {
    assert (2 * m) % 2 == 0 && (2 * m) / 2 == m && (2 * m + 1) % 2 == 1 && (2 * m + 1) / 2 == m;
  }

  lemma MultilinearTerm(a: Poly, us: seq<Fr>, k: nat)
    requires k < |a|
    ensures MultilinearSum(a, us, k + 1) == MultilinearSum(a, us, k) + RowIndicator(us, k) * a[k]
  {
    hide RowIndicator;
  }

  lemma {:induction false} FoldMultilinear(a: Poly, us: seq<Fr>, k: nat)
    requires us != [] && 2 * k <= |a|
    ensures MultilinearSum(a, us, 2 * k) == MultilinearSum(Fold(a, us[0]), us[1..], k)
  {
    if k == 0 {
      assert MultilinearSum(a, us, 0) == 0 && MultilinearSum(Fold(a, us[0]), us[1..], 0) == 0;
    } else {
      hide MultilinearSum, RowIndicator, Fold;
      var m := k - 1;
      FoldMultilinear(a, us, m);
      FoldAt(a, us[0], m);
      IndicatorPair(us, m);
      MultilinearTerm(a, us, 2 * m);
      MultilinearTerm(a, us, 2 * m + 1);
      MultilinearTerm(Fold(a, us[0]), us[1..], m);
      FoldTerm(us[0], RowIndicator(us[1..], m), a[2 * m], a[2 * m + 1]);
    }
  }

  lemma FoldTerm(u: Fr, r: Fr, even: Fr, odd: Fr)
    ensures ((1 - u) * r) * even + (u * r) * odd == r * ((1 - u) * even + u * odd)
  {
    Swap(1 - u, r, even);
    Swap(u, r, odd);
    Assoc(1 - u, r, even);
    Assoc(u, r, odd);
    Distributes(r, (1 - u) * even, u * odd);
  }

  /** Folding out all variables leaves the multilinear evaluation. */
  lemma {:induction false} FoldsToMultilinear(a: Poly, us: seq<Fr>, j: nat)
    requires j <= |us| && |a| == Pow2(|us|)
    ensures Multilinear(FoldedAt(a, us, j), us[j..]) == Multilinear(a, us)
  {
    if j == 0 {
      assert us[0..] == us;
    } else {
      FoldsToMultilinear(a, us, j - 1);
      var b, vs := FoldedAt(a, us, j - 1), us[j - 1..];
      assert vs[0] == us[j - 1] && vs[1..] == us[j..];
      assert |b| == 2 * Pow2(|us| - j);
      FoldMultilinear(b, vs, Pow2(|us| - j));
    }
  }

  lemma LastFold(a: Poly, us: seq<Fr>, x: Fr)
    requires |a| == Pow2(|us|)
    ensures Eval(FoldedAt(a, us, |us|), x) == Multilinear(a, us)
  {
    FoldsToMultilinear(a, us, |us|);
    var b := FoldedAt(a, us, |us|);
    assert |b| == 1 && us[|us|..] == [];
    assert Multilinear(b, []) == MultilinearSum(b, [], 0) + RowIndicator([], 0) * b[0];
    assert b[1..] == [];
  }

  // ------------------------------------------------------------------ fold reconstruction

  lemma PointSquares(c: Challenges, j: nat)
    ensures GeminiPoint(c, j) * GeminiPoint(c, j) == GeminiPoint(c, j + 1)
  {
    PowerAdd(c.r, Pow2(j), Pow2(j));
  }

  ghost predicate HonestFolds(p: Prime, a0: Poly, o: Opening, c: Challenges, n: nat)
    requires WellSized(o, c, n) && |a0| == Pow2(n)
  {
    && Eq(p, Eval(o.evals, c.rho), Multilinear(a0, c.us))
    && forall j :: 0 <= j < n ==> Eq(p, o.aEvals[j], Eval(FoldedAt(a0, c.us, j), 0 - GeminiPoint(c, j)))
  }

  lemma FoldStepCongruent(p: Prime, x: Fr, fv: Fr, f: Fr, a: Fr, an: Fr, lin: Fr, den: Fr, e: Fr, inv: Fr)
    requires Eq(p, fv, f) && Eq(p, a, an) && Eq(p, den * inv, 1)
    requires x * f * 2 - an * lin == e * den
    ensures Eq(p, (x * fv * 2 - a * lin) * inv, e)
  {
    hide Eq;
    EqScale(p, x, fv, f);
    EqScale(p, 2, x * fv, x * f);
    EqScale(p, lin, a, an);
    EqSub(p, x * fv * 2, x * f * 2, a * lin, an * lin);
    DivideOut(p, x * fv * 2 - a * lin, den, inv, e);
  }

  /** The backward fold loop recovers every fold's value at its positive point. */
  lemma {:induction false} FoldsReconstructed(p: Prime, a0: Poly, o: Opening, c: Challenges, denoms: seq<Fr>, inv: seq<Fr>, n: nat, j: nat)
    requires WellSized(o, c, n) && |a0| == Pow2(n) && j <= n
    requires IsDenominators(c, n, denoms) && Inverses(p, denoms, inv)
    requires HonestFolds(p, a0, o, c, n)
    ensures Eq(p, FoldValue(o, c, inv, n, j), Eval(FoldedAt(a0, c.us, j), GeminiPoint(c, j)))
    decreases n - j
  {
    hide Eq, GeminiPoint, Eval, Fold, FoldValue, Multilinear;
    if j == n {
      LastFold(a0, c.us, GeminiPoint(c, n));
      FoldValueTop(o, c, inv, n);
    } else {
      FoldsReconstructed(p, a0, o, c, denoms, inv, n, j + 1);
      var x, u, a := GeminiPoint(c, j), c.us[j], FoldedAt(a0, c.us, j);
      PointSquares(c, j);
      assert |a| == 2 * Pow2(n - j - 1);
      FoldIdentity(a, u, x);
      assert denoms[FoldSlot(n, j)] == x * (1 - u) + u;
      FoldStepCongruent(p, x, FoldValue(o, c, inv, n, j + 1), Eval(Fold(a, u), x * x),
                        o.aEvals[j], Eval(a, 0 - x), x * (1 - u) - u, x * (1 - u) + u, Eval(a, x), inv[FoldSlot(n, j)]);
      FoldValueStep(o, c, inv, n, j);
    }
  }
}
