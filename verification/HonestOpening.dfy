/** The honest prover's batch opening satisfies the verifier's opening equation. */
module HonestOpening {
  import opened Field
  import opened Polynomial
  import opened GateSeparator
  import opened Shplemini
  import opened Gemini

  // --------------------------------------------------------------- batched polynomials

  function Zeros(n: nat): (z: Poly)
    ensures |z| == n
  {
    seq(n, _ => 0)
  }

  /** Division by `X` of a polynomial without constant term; drops the constant otherwise. */
  function ShiftDown(a: Poly): (b: Poly)
    requires a != []
    ensures |b| == |a|
  {
    a[1..] + [0]
  }

  /** One polynomial with a coefficient per row for every unshifted entity. */
  ghost predicate Traces(polys: seq<Poly>, n: nat) {
    |polys| == UNSHIFTED && forall i :: 0 <= i < UNSHIFTED ==> |polys[i]| == Pow2(n)
  }

  ghost predicate PolysFit(polys: seq<Poly>, n: nat) {
    && Traces(polys, n)
    && (forall i :: 0 <= i < UNSHIFTED && IsShiftable(i) ==> polys[i][0] == 0)
  }

  function UnshiftedPoly(rho: Fr, polys: seq<Poly>, size: nat, k: nat): (a: Poly)
    requires k <= |polys| && forall i :: 0 <= i < |polys| ==> |polys[i]| == size
    ensures |a| == size
  {
    if k == 0 then Zeros(size)
    else Add(UnshiftedPoly(rho, polys, size, k - 1), Scale(Power(rho, k - 1), polys[k - 1]))
  }

  function ShiftablePoly(rho: Fr, polys: seq<Poly>, size: nat, k: nat): (a: Poly)
    requires k <= |polys| && forall i :: 0 <= i < |polys| ==> |polys[i]| == size
    ensures |a| == size
  {
    if k == 0 then Zeros(size)
    else if IsShiftable(k - 1) then
      Add(ShiftablePoly(rho, polys, size, k - 1), Scale(Power(rho, k - 1 + 8), polys[k - 1]))
    else ShiftablePoly(rho, polys, size, k - 1)
  }

  /** The polynomial the Gemini folds start from. */
  function BatchedPoly(rho: Fr, polys: seq<Poly>, n: nat): (a: Poly)
    requires |polys| == UNSHIFTED && forall i :: 0 <= i < |polys| ==> |polys[i]| == Pow2(n)
    ensures |a| == Pow2(n)
  {
    Add(UnshiftedPoly(rho, polys, Pow2(n), UNSHIFTED), ShiftDown(ShiftablePoly(rho, polys, Pow2(n), UNSHIFTED)))
  }

  lemma AccumulateCongruent(p: Prime, acc: Fr, acc': Fr, s: Fr, x: Fr, y: Fr)
    requires Eq(p, acc, acc') && Eq(p, x, y)
    ensures Eq(p, acc + s * x, acc' + s * y)
  {
    hide Eq;
    EqScale(p, s, x, y);
    EqAdd(p, acc, acc', s * x, s * y);
  }

  lemma {:induction false} BatchUnshiftedIsCommitment(p: Prime, c: Challenges, polys: seq<Poly>, comms: seq<Fr>, n: nat, tau: Fr, k: nat)
    requires Traces(polys, n) && |comms| == UNSHIFTED && k <= UNSHIFTED
    requires forall i :: 0 <= i < UNSHIFTED ==> Eq(p, comms[i], Eval(polys[i], tau))
    ensures Eq(p, BatchUnshifted(c, comms, k), Eval(UnshiftedPoly(c.rho, polys, Pow2(n), k), tau))
  {
    hide Eq, Eval, Power;
    if k == 0 {
      EvalZero(Pow2(n), tau);
      EqRefl(p, 0);
    } else {
      BatchUnshiftedIsCommitment(p, c, polys, comms, n, tau, k - 1);
      var prev, s := UnshiftedPoly(c.rho, polys, Pow2(n), k - 1), Power(c.rho, k - 1);
      EvalAdd(prev, Scale(s, polys[k - 1]), tau);
      EvalScale(s, polys[k - 1], tau);
      AccumulateCongruent(p, BatchUnshifted(c, comms, k - 1), Eval(prev, tau), s, comms[k - 1], Eval(polys[k - 1], tau));
    }
  }

  lemma {:induction false} BatchShiftableIsCommitment(p: Prime, c: Challenges, polys: seq<Poly>, comms: seq<Fr>, n: nat, tau: Fr, k: nat)
    requires Traces(polys, n) && |comms| == UNSHIFTED && k <= UNSHIFTED
    requires forall i :: 0 <= i < UNSHIFTED ==> Eq(p, comms[i], Eval(polys[i], tau))
    ensures Eq(p, BatchShiftable(c, comms, k), Eval(ShiftablePoly(c.rho, polys, Pow2(n), k), tau))
  {
    hide Eq, Eval, Power;
    if k == 0 {
      EvalZero(Pow2(n), tau);
      EqRefl(p, 0);
    } else {
      BatchShiftableIsCommitment(p, c, polys, comms, n, tau, k - 1);
      if IsShiftable(k - 1) {
        var prev, s := ShiftablePoly(c.rho, polys, Pow2(n), k - 1), Power(c.rho, k - 1 + 8);
        EvalAdd(prev, Scale(s, polys[k - 1]), tau);
        EvalScale(s, polys[k - 1], tau);
        AccumulateCongruent(p, BatchShiftable(c, comms, k - 1), Eval(prev, tau), s, comms[k - 1], Eval(polys[k - 1], tau));
      }
    }
  }

  lemma {:induction false} ShiftableConstant(rho: Fr, polys: seq<Poly>, n: nat, k: nat)
    requires PolysFit(polys, n) && k <= UNSHIFTED
    ensures ShiftablePoly(rho, polys, Pow2(n), k)[0] == 0
  {
    hide Power;
    if k > 0 {
      ShiftableConstant(rho, polys, n, k - 1);
      if IsShiftable(k - 1) {
        assert Power(rho, k - 1 + 8) * polys[k - 1][0] == 0;
      }
    }
  }

  lemma EvalShiftDown(a: Poly, x: Fr)
    requires a != [] && a[0] == 0
    ensures Eval(a, x) == x * Eval(ShiftDown(a), x)
  {
    EvalPadded(a[1..], x);
  }

  // ---------------------------------------------------- claimed multilinear evaluations

  lemma {:induction false} AddAt(a: Poly, b: Poly, i: nat)
    requires i < |a| == |b|
    ensures Add(a, b)[i] == a[i] + b[i]
  {
    if i > 0 { AddAt(a[1..], b[1..], i - 1); }
  }

  lemma {:induction false} ScaleAt(s: Fr, a: Poly, i: nat)
    requires i < |a|
    ensures Scale(s, a)[i] == s * a[i]
  {
    if i > 0 { ScaleAt(s, a[1..], i - 1); }
  }

  lemma {:induction false} MultilinearAdd(a: Poly, b: Poly, us: seq<Fr>, k: nat)
    requires k <= |a| == |b|
    ensures MultilinearSum(Add(a, b), us, k) == MultilinearSum(a, us, k) + MultilinearSum(b, us, k)
  {
    hide RowIndicator;
    if k > 0 {
      MultilinearAdd(a, b, us, k - 1);
      AddAt(a, b, k - 1);
      Distributes(RowIndicator(us, k - 1), a[k - 1], b[k - 1]);
    }
  }

  lemma {:induction false} MultilinearScale(s: Fr, a: Poly, us: seq<Fr>, k: nat)
    requires k <= |a|
    ensures MultilinearSum(Scale(s, a), us, k) == s * MultilinearSum(a, us, k)
  {
    hide RowIndicator;
    if k > 0 {
      MultilinearScale(s, a, us, k - 1);
      ScaleAt(s, a, k - 1);
      Distributes(s, MultilinearSum(a, us, k - 1), RowIndicator(us, k - 1) * a[k - 1]);
      Swap(s, RowIndicator(us, k - 1), a[k - 1]);
    }
  }

  lemma {:induction false} MultilinearZeros(n: nat, us: seq<Fr>, k: nat)
    requires k <= n
    ensures MultilinearSum(Zeros(n), us, k) == 0
  {
    hide RowIndicator;
    if k > 0 {
      MultilinearZeros(n, us, k - 1);
      assert RowIndicator(us, k - 1) * 0 == 0;
    }
  }

  lemma ShiftDownAdd(a: Poly, b: Poly)
    requires |a| == |b| > 0
    ensures ShiftDown(Add(a, b)) == Add(ShiftDown(a), ShiftDown(b))
  {
    forall i | 0 <= i < |a|
      ensures ShiftDown(Add(a, b))[i] == Add(ShiftDown(a), ShiftDown(b))[i]
    {
      AddAt(ShiftDown(a), ShiftDown(b), i);
      if i < |a| - 1 { AddAt(a, b, i + 1); }
    }
  }

  lemma ShiftDownScale(s: Fr, a: Poly)
    requires a != []
    ensures ShiftDown(Scale(s, a)) == Scale(s, ShiftDown(a))
  {
    forall i | 0 <= i < |a|
      ensures ShiftDown(Scale(s, a))[i] == Scale(s, ShiftDown(a))[i]
    {
      ScaleAt(s, ShiftDown(a), i);
      if i < |a| - 1 { ScaleAt(s, a, i + 1); }
    }
  }

  ghost predicate HonestEvaluations(p: Prime, polys: seq<Poly>, o: Opening, c: Challenges, n: nat)
    requires WellSized(o, c, n) && Traces(polys, n)
  {
    && (forall i :: 0 <= i < UNSHIFTED ==> Eq(p, o.evals[i], Multilinear(polys[i], c.us)))
    && (forall i :: UNSHIFTED <= i < ENTITIES ==>
          Eq(p, o.evals[i], Multilinear(ShiftDown(polys[i - UNSHIFTED + FIRST_SHIFTABLE]), c.us)))
  }

  lemma HonestAt(p: Prime, polys: seq<Poly>, o: Opening, c: Challenges, n: nat, i: nat)
    requires WellSized(o, c, n) && Traces(polys, n) && HonestEvaluations(p, polys, o, c, n) && i < ENTITIES
    ensures i < UNSHIFTED ==> Eq(p, o.evals[i], Multilinear(polys[i], c.us))
    ensures i >= UNSHIFTED ==> Eq(p, o.evals[i], Multilinear(ShiftDown(polys[i - UNSHIFTED + FIRST_SHIFTABLE]), c.us))
  {
    hide Eq, Multilinear;
  }

  /** What polynomial `k` adds to the multilinear evaluation of the unshifted batch. */
  lemma UnshiftedStep(rho: Fr, polys: seq<Poly>, n: nat, k: nat, us: seq<Fr>)
    requires Traces(polys, n) && k < UNSHIFTED
    ensures Multilinear(UnshiftedPoly(rho, polys, Pow2(n), k + 1), us)
         == Multilinear(UnshiftedPoly(rho, polys, Pow2(n), k), us) + Power(rho, k) * Multilinear(polys[k], us)
  {
    hide Power, MultilinearSum, Pow2, IsShiftable;
    var prev, s := UnshiftedPoly(rho, polys, Pow2(n), k), Power(rho, k);
    MultilinearAdd(prev, Scale(s, polys[k]), us, Pow2(n));
    MultilinearScale(s, polys[k], us, Pow2(n));
  }

  /** And to that of the shifted batch. */
  lemma ShiftedStep(rho: Fr, polys: seq<Poly>, n: nat, i: nat, us: seq<Fr>)
    requires Traces(polys, n) && i < UNSHIFTED && IsShiftable(i)
    ensures Multilinear(ShiftDown(ShiftablePoly(rho, polys, Pow2(n), i + 1)), us)
         == Multilinear(ShiftDown(ShiftablePoly(rho, polys, Pow2(n), i)), us)
            + Power(rho, i + 8) * Multilinear(ShiftDown(polys[i]), us)
  {
    hide Power, MultilinearSum, ShiftDown;
    var prev, s := ShiftablePoly(rho, polys, Pow2(n), i), Power(rho, i + 8);
    ShiftDownAdd(prev, Scale(s, polys[i]));
    ShiftDownScale(s, polys[i]);
    MultilinearAdd(ShiftDown(prev), Scale(s, ShiftDown(polys[i])), us, Pow2(n));
    MultilinearScale(s, ShiftDown(polys[i]), us, Pow2(n));
  }

  lemma {:induction false} UnshiftedEvaluations(p: Prime, polys: seq<Poly>, o: Opening, c: Challenges, n: nat, k: nat)
    requires WellSized(o, c, n) && Traces(polys, n) && HonestEvaluations(p, polys, o, c, n) && k <= UNSHIFTED
    ensures Eq(p, Eval(o.evals[..k], c.rho), Multilinear(UnshiftedPoly(c.rho, polys, Pow2(n), k), c.us))
  {
    hide Eq, Eval, Power, Multilinear, HonestEvaluations, IsShiftable, UnshiftedPoly, Pow2;
    if k == 0 {
      NothingUnshifted(c.rho, polys, n, c.us);
      EvalNone(c.rho);
      assert o.evals[..0] == [];
      EqRefl(p, 0);
    } else {
      UnshiftedEvaluations(p, polys, o, c, n, k - 1);
      HonestAt(p, polys, o, c, n, k - 1);
      EvalGrows(o.evals, k - 1, c.rho);
      UnshiftedStep(c.rho, polys, n, k - 1, c.us);
      AccumulateCongruent(p, Eval(o.evals[..k - 1], c.rho), Multilinear(UnshiftedPoly(c.rho, polys, Pow2(n), k - 1), c.us),
                          Power(c.rho, k - 1), o.evals[k - 1], Multilinear(polys[k - 1], c.us));
      Commutes(Power(c.rho, k - 1), o.evals[k - 1]);
    }
  }

  lemma Commutes(a: Fr, b: Fr)
    ensures a * b == b * a
  {
  }

  lemma NothingUnshifted(rho: Fr, polys: seq<Poly>, n: nat, us: seq<Fr>)
    requires Traces(polys, n)
    ensures Multilinear(UnshiftedPoly(rho, polys, Pow2(n), 0), us) == 0
  {
    MultilinearZeros(Pow2(n), us, Pow2(n));
  }

  lemma EvalNone(x: Fr)
    ensures Eval([], x) == 0
  {
  }

  /** The batched claimed evaluations are the multilinear evaluation of the batched polynomial. */
  lemma {:induction false} ShiftedEvaluations(p: Prime, polys: seq<Poly>, o: Opening, c: Challenges, n: nat, m: nat)
    requires WellSized(o, c, n) && Traces(polys, n) && HonestEvaluations(p, polys, o, c, n) && m <= SHIFTABLE
    ensures Eq(p, Eval(o.evals[..UNSHIFTED + m], c.rho),
               Multilinear(UnshiftedPoly(c.rho, polys, Pow2(n), UNSHIFTED), c.us)
               + Multilinear(ShiftDown(ShiftablePoly(c.rho, polys, Pow2(n), FIRST_SHIFTABLE + m)), c.us))
  {
    hide Eq, Eval, Power, Multilinear, UnshiftedPoly, ShiftablePoly, ShiftDown, HonestEvaluations, Pow2;
    if m == 0 {
      UnshiftedEvaluations(p, polys, o, c, n, UNSHIFTED);
      NothingShiftable(c.rho, polys, n, FIRST_SHIFTABLE, c.us);
    } else {
      var i, k := FIRST_SHIFTABLE + m - 1, UNSHIFTED + m - 1;
      ShiftedEvaluations(p, polys, o, c, n, m - 1);
      HonestAt(p, polys, o, c, n, k);
      EvalGrows(o.evals, k, c.rho);
      ShiftedStep(c.rho, polys, n, i, c.us);
      var ml := Multilinear(UnshiftedPoly(c.rho, polys, Pow2(n), UNSHIFTED), c.us);
      AccumulateCongruent(p, Eval(o.evals[..k], c.rho), ml + Multilinear(ShiftDown(ShiftablePoly(c.rho, polys, Pow2(n), i)), c.us),
                          Power(c.rho, k), o.evals[k], Multilinear(ShiftDown(polys[i]), c.us));
      Commutes(Power(c.rho, k), o.evals[k]);
    }
  }

  lemma {:induction false} NothingShiftable(rho: Fr, polys: seq<Poly>, n: nat, k: nat, us: seq<Fr>)
    requires Traces(polys, n) && k <= FIRST_SHIFTABLE
    ensures ShiftablePoly(rho, polys, Pow2(n), k) == Zeros(Pow2(n))
    ensures Multilinear(ShiftDown(ShiftablePoly(rho, polys, Pow2(n), k)), us) == 0
  {
    if k > 0 { NothingShiftable(rho, polys, n, k - 1, us); }
    assert ShiftDown(Zeros(Pow2(n))) == Zeros(Pow2(n));
    MultilinearZeros(Pow2(n), us, Pow2(n));
  }

  lemma ShiftablesEnd(rho: Fr, polys: seq<Poly>, n: nat)
    requires Traces(polys, n)
    ensures ShiftablePoly(rho, polys, Pow2(n), UNSHIFTED) == ShiftablePoly(rho, polys, Pow2(n), FIRST_SHIFTABLE + SHIFTABLE)
  {
    assert ShiftablePoly(rho, polys, Pow2(n), 36) == ShiftablePoly(rho, polys, Pow2(n), 35);
    assert ShiftablePoly(rho, polys, Pow2(n), 35) == ShiftablePoly(rho, polys, Pow2(n), 34);
    assert ShiftablePoly(rho, polys, Pow2(n), 34) == ShiftablePoly(rho, polys, Pow2(n), 33);
  }

  lemma BatchedEvaluation(p: Prime, polys: seq<Poly>, o: Opening, c: Challenges, n: nat)
    requires WellSized(o, c, n) && Traces(polys, n) && HonestEvaluations(p, polys, o, c, n)
    ensures Eq(p, Eval(o.evals, c.rho), Multilinear(BatchedPoly(c.rho, polys, n), c.us))
  {
    hide Eq, Eval, Power, MultilinearSum, UnshiftedPoly, ShiftDown, ShiftablePoly;
    ShiftedEvaluations(p, polys, o, c, n, SHIFTABLE);
    ShiftablesEnd(c.rho, polys, n);
    assert o.evals[..ENTITIES] == o.evals;
    MultilinearAdd(UnshiftedPoly(c.rho, polys, Pow2(n), UNSHIFTED),
                   ShiftDown(ShiftablePoly(c.rho, polys, Pow2(n), UNSHIFTED)), c.us, Pow2(n));
  }

  // ------------------------------------------------------------------ opening claims

  /** The polynomial opened at the positive (`sign` 1) or negative (`sign` -1) point of round `j`. */
  function ClaimPoly(polys: seq<Poly>, c: Challenges, rInv: Fr, n: nat, j: nat, sign: int): (a: Poly)
    requires |polys| == UNSHIFTED && (forall i :: 0 <= i < |polys| ==> |polys[i]| == Pow2(n))
    requires |c.us| == n && j < n
    ensures a != []
  {
    if j == 0 then
      Add(UnshiftedPoly(c.rho, polys, Pow2(n), UNSHIFTED),
          Scale(sign * rInv, ShiftablePoly(c.rho, polys, Pow2(n), UNSHIFTED)))
    else FoldedAt(BatchedPoly(c.rho, polys, n), c.us, j)
  }

  /** What `a` contributes to the opened polynomial when claimed at `x`, with weight `s` and `i` for `1/(z-x)`. */
  function ClaimPart(a: Poly, x: Fr, s: Fr, i: Fr): (b: Poly)
    requires a != []
    ensures |b| == |a|
  {
    Add(Scale(s, Quotient(a, x) + [0]), Scale(0 - s * i, [a[0] - Eval(a, x)] + a[1..]))
  }

  /** Lowering the constant coefficient by the value at `x` lowers every value by it. */
  lemma EvalLowered(a: Poly, x: Fr, y: Fr)
    requires a != []
    ensures Eval([a[0] - Eval(a, x)] + a[1..], y) == Eval(a, y) - Eval(a, x)
  {
    var b := [a[0] - Eval(a, x)] + a[1..];
    assert b[1..] == a[1..];
  }

  lemma NegatedFactor(s: Fr, i: Fr, d: Fr)
    ensures (0 - s * i) * d == 0 - s * i * d
  {
  }

  lemma EvalClaimPart(a: Poly, x: Fr, s: Fr, i: Fr, y: Fr)
    requires a != []
    ensures Eval(ClaimPart(a, x, s, i), y) == s * Eval(Quotient(a, x), y) - s * i * (Eval(a, y) - Eval(a, x))
  {
    hide Quotient, Eval;
    var q, b := Quotient(a, x) + [0], [a[0] - Eval(a, x)] + a[1..];
    EvalAdd(Scale(s, q), Scale(0 - s * i, b), y);
    EvalScale(s, q, y);
    EvalScale(0 - s * i, b, y);
    EvalPadded(Quotient(a, x), y);
    EvalLowered(a, x, y);
    NegatedFactor(s, i, Eval(a, y) - Eval(a, x));
  }

  /** The opened polynomial vanishes at `z`, claim by claim. */
  lemma ClaimPartVanishes(p: Prime, a: Poly, x: Fr, s: Fr, i: Fr, z: Fr)
    requires a != [] && Eq(p, (z - x) * i, 1)
    ensures Eq(p, Eval(ClaimPart(a, x, s, i), z), 0)
  {
    hide Eq, ClaimPart, Eval, Quotient;
    var q := Eval(Quotient(a, x), z);
    EvalClaimPart(a, x, s, i, z);
    FactorTheorem(a, x, z);
    EqScale(p, s * q, (z - x) * i, 1);
    VanishAlgebra(s, q, i, z - x);
    EqDifference(p, s * q, s * i * ((z - x) * q));
    EqSym(p, (s * q) * ((z - x) * i), s * q);
  }

  lemma VanishAlgebra(s: Fr, q: Fr, i: Fr, d: Fr)
    ensures (s * q) * (d * i) == s * i * (d * q)
  {
    SwapFour(s, i, d, q);
    SwapFour(s, q, d, i);
    Swap(s * d, i, q);
    assert i * q == q * i;
  }

  /** One claim of the honest prover balances: quotient, claim and opening proof cancel. */
  lemma ClaimBalances(p: Prime, a: Poly, x: Fr, s: Fr, i: Fr, z: Fr, tau: Fr, comm: Fr, value: Fr)
    requires a != [] && Eq(p, (z - x) * i, 1)
    requires Eq(p, comm, Eval(a, tau)) && Eq(p, value, Eval(a, x))
    ensures Eq(p, s * Eval(Quotient(a, x), tau) - s * i * (comm - value)
                  - (tau - z) * Eval(Quotient(ClaimPart(a, x, s, i), z), tau), 0)
  {
    hide Eq, ClaimPart, Eval, Quotient;
    var part := ClaimPart(a, x, s, i);
    var q, w := s * Eval(Quotient(a, x), tau), (tau - z) * Eval(Quotient(part, z), tau);
    EvalClaimPart(a, x, s, i, tau);
    ClaimPartVanishes(p, a, x, s, i, z);
    FactorTheorem(part, z, tau);
    EqSub(p, comm, Eval(a, tau), value, Eval(a, x));
    EqScale(p, s * i, comm - value, Eval(a, tau) - Eval(a, x));
    EqRefl(p, q);
    EqRefl(p, w);
    EqSub(p, q, q, s * i * (comm - value), s * i * (Eval(a, tau) - Eval(a, x)));
    EqSub(p, q - s * i * (comm - value), q - s * i * (Eval(a, tau) - Eval(a, x)), w, w);
    assert q - s * i * (Eval(a, tau) - Eval(a, x)) - w == Eval(part, z);
    EqTrans(p, q - s * i * (comm - value) - w, Eval(part, z), 0);
  }

  // --------------------------------------------------------------- the honest messages

  /** The honest Shplonk quotient's commitment, summed over the first `k` rounds' two claims. */
  function QuotientCommitment(polys: seq<Poly>, c: Challenges, rInv: Fr, n: nat, tau: Fr, k: nat): Fr
    requires |polys| == UNSHIFTED && (forall i :: 0 <= i < |polys| ==> |polys[i]| == Pow2(n))
    requires |c.us| == n && k <= n
  {
    if k == 0 then 0
    else
      QuotientCommitment(polys, c, rInv, n, tau, k - 1)
      + Power(c.nu, 2 * (k - 1)) * Eval(Quotient(ClaimPoly(polys, c, rInv, n, k - 1, 1), GeminiPoint(c, k - 1)), tau)
      + Power(c.nu, 2 * (k - 1)) * c.nu
        * Eval(Quotient(ClaimPoly(polys, c, rInv, n, k - 1, -1), 0 - GeminiPoint(c, k - 1)), tau)
  }

  /** The honest opening proof at `z`: the quotient by `X - z` of the opened polynomial, likewise. */
  function OpeningCommitment(polys: seq<Poly>, c: Challenges, inv: seq<Fr>, n: nat, tau: Fr, k: nat): Fr
    requires |polys| == UNSHIFTED && (forall i :: 0 <= i < |polys| ==> |polys[i]| == Pow2(n))
    requires |c.us| == n && k <= n && |inv| == 3 * n + 1
  {
    if k == 0 then 0
    else
      OpeningCommitment(polys, c, inv, n, tau, k - 1)
      + Eval(Quotient(ClaimPart(ClaimPoly(polys, c, inv[R_SLOT], n, k - 1, 1), GeminiPoint(c, k - 1),
                                Power(c.nu, 2 * (k - 1)), inv[PosSlot(n, k - 1)]), c.z), tau)
      + Eval(Quotient(ClaimPart(ClaimPoly(polys, c, inv[R_SLOT], n, k - 1, -1), 0 - GeminiPoint(c, k - 1),
                                Power(c.nu, 2 * (k - 1)) * c.nu, inv[NegSlot(n, k - 1)]), c.z), tau)
  }

  /** Every message of the honest prover, as field and group elements. */
  ghost predicate Honest(p: Prime, polys: seq<Poly>, o: Opening, c: Challenges, inv: seq<Fr>, n: nat, tau: Fr)
    requires WellSized(o, c, n) && PolysFit(polys, n) && |inv| == 3 * n + 1
  {
    && HonestEvaluations(p, polys, o, c, n)
    && (forall i :: 0 <= i < UNSHIFTED ==> Eq(p, o.comms[i], Eval(polys[i], tau)))
    && (forall j :: 1 <= j < n ==>
          Eq(p, o.foldComms[j - 1], Eval(FoldedAt(BatchedPoly(c.rho, polys, n), c.us, j), tau)))
    && (forall j :: 0 <= j < n ==>
          Eq(p, o.aEvals[j], Eval(FoldedAt(BatchedPoly(c.rho, polys, n), c.us, j), 0 - GeminiPoint(c, j))))
    && Eq(p, o.q, QuotientCommitment(polys, c, inv[R_SLOT], n, tau, n))
    && Eq(p, o.w, OpeningCommitment(polys, c, inv, n, tau, n))
  }

  /** `F(x) + G(x) / x` at the two signed points is the batched polynomial's value. */
  lemma FirstClaimValue(p: Prime, polys: seq<Poly>, c: Challenges, rInv: Fr, n: nat, sign: int, x: Fr)
    requires PolysFit(polys, n) && |c.us| == n > 0
    requires sign == 1 || sign == -1
    requires x == sign * c.r && Eq(p, c.r * rInv, 1)
    ensures Eq(p, Eval(ClaimPoly(polys, c, rInv, n, 0, sign), x), Eval(BatchedPoly(c.rho, polys, n), x))
  {
    hide Eq, Eval, UnshiftedPoly, ShiftablePoly, ShiftDown;
    var f, g := UnshiftedPoly(c.rho, polys, Pow2(n), UNSHIFTED), ShiftablePoly(c.rho, polys, Pow2(n), UNSHIFTED);
    var e := Eval(ShiftDown(g), x);
    EvalAdd(f, Scale(sign * rInv, g), x);
    EvalScale(sign * rInv, g, x);
    EvalAdd(f, ShiftDown(g), x);
    ShiftableConstant(c.rho, polys, n, UNSHIFTED);
    EvalShiftDown(g, x);
    SignedInverse(sign, rInv, c.r, e);
    EqScale(p, e, c.r * rInv, 1);
    EqRefl(p, Eval(f, x));
    EqAdd(p, Eval(f, x), Eval(f, x), (c.r * rInv) * e, e);
  }

  lemma SignedInverse(sign: int, rInv: Fr, r: Fr, e: Fr)
    requires sign == 1 || sign == -1
    ensures (sign * rInv) * ((sign * r) * e) == (r * rInv) * e
  {
    Assoc(rInv, r, e);
    assert rInv * r == r * rInv;
    if sign == -1 {
      assert (0 - rInv) * ((0 - r) * e) == rInv * (r * e) by {
        assert (0 - r) * e == 0 - r * e;
      }
    }
  }

  lemma PosDenominator(p: Prime, c: Challenges, denoms: seq<Fr>, inv: seq<Fr>, n: nat, j: nat)
    requires |c.us| == n > 0 && j < n
    requires IsDenominators(c, n, denoms) && Inverses(p, denoms, inv)
    ensures Eq(p, (c.z - GeminiPoint(c, j)) * inv[PosSlot(n, j)], 1)
    ensures Eq(p, (c.z - (0 - GeminiPoint(c, j))) * inv[NegSlot(n, j)], 1)
    ensures Eq(p, c.r * inv[R_SLOT], 1)
  {
    hide Eq, GeminiPoint;
    assert denoms[PosSlot(n, j)] == c.z - GeminiPoint(c, j);
    assert denoms[NegSlot(n, j)] == c.z + GeminiPoint(c, j);
    assert denoms[R_SLOT] == c.r;
  }

  lemma ClaimCommitmentHonest(p: Prime, polys: seq<Poly>, o: Opening, c: Challenges, inv: seq<Fr>, n: nat, tau: Fr, j: nat, sign: int)
    requires WellSized(o, c, n) && PolysFit(polys, n) && |inv| == 3 * n + 1 && j < n
    requires Honest(p, polys, o, c, inv, n, tau)
    ensures Eq(p, ClaimCommitment(o, c, inv[R_SLOT], j, sign), Eval(ClaimPoly(polys, c, inv[R_SLOT], n, j, sign), tau))
  {
    hide Eq, Eval, UnshiftedPoly, ShiftablePoly, HonestEvaluations, QuotientCommitment, OpeningCommitment, GeminiPoint;
    if j == 0 {
      var rInv := inv[R_SLOT];
      var f, g := UnshiftedPoly(c.rho, polys, Pow2(n), UNSHIFTED), ShiftablePoly(c.rho, polys, Pow2(n), UNSHIFTED);
      BatchUnshiftedIsCommitment(p, c, polys, o.comms, n, tau, UNSHIFTED);
      BatchShiftableIsCommitment(p, c, polys, o.comms, n, tau, UNSHIFTED);
      EvalAdd(f, Scale(sign * rInv, g), tau);
      EvalScale(sign * rInv, g, tau);
      var b := BatchShiftable(c, o.comms, UNSHIFTED);
      Assoc(sign, rInv, b);
      AccumulateCongruent(p, BatchUnshifted(c, o.comms, UNSHIFTED), Eval(f, tau), sign * rInv, b, Eval(g, tau));
    }
  }

  lemma ClaimValuesHonest(p: Prime, polys: seq<Poly>, o: Opening, c: Challenges, denoms: seq<Fr>, inv: seq<Fr>, n: nat, tau: Fr, j: nat)
    requires WellSized(o, c, n) && PolysFit(polys, n) && j < n
    requires IsDenominators(c, n, denoms) && Inverses(p, denoms, inv)
    requires Honest(p, polys, o, c, inv, n, tau)
    ensures Eq(p, FoldValue(o, c, inv, n, j), Eval(ClaimPoly(polys, c, inv[R_SLOT], n, j, 1), GeminiPoint(c, j)))
    ensures Eq(p, o.aEvals[j], Eval(ClaimPoly(polys, c, inv[R_SLOT], n, j, -1), 0 - GeminiPoint(c, j)))
  {
    hide Eq, Eval, BatchedPoly, HonestEvaluations, QuotientCommitment, OpeningCommitment, FoldValue, GeminiPoint, Multilinear;
    var a0, rInv := BatchedPoly(c.rho, polys, n), inv[R_SLOT];
    BatchedEvaluation(p, polys, o, c, n);
    FoldsReconstructed(p, a0, o, c, denoms, inv, n, j);
    if j == 0 {
      FirstPoint(c);
      PosDenominator(p, c, denoms, inv, n, 0);
      FirstClaimValue(p, polys, c, rInv, n, 1, c.r);
      FirstClaimValue(p, polys, c, rInv, n, -1, 0 - c.r);
      EqSym(p, Eval(ClaimPoly(polys, c, rInv, n, 0, 1), c.r), Eval(a0, c.r));
      EqSym(p, Eval(ClaimPoly(polys, c, rInv, n, 0, -1), 0 - c.r), Eval(a0, 0 - c.r));
      EqTrans(p, FoldValue(o, c, inv, n, 0), Eval(a0, c.r), Eval(ClaimPoly(polys, c, rInv, n, 0, 1), c.r));
      EqTrans(p, o.aEvals[0], Eval(a0, 0 - c.r), Eval(ClaimPoly(polys, c, rInv, n, 0, -1), 0 - c.r));
    }
  }

  lemma FirstPoint(c: Challenges)
    ensures GeminiPoint(c, 0) == c.r
  {
    assert Power(c.r, 1) == c.r * Power(c.r, 0);
  }

  /** What round `j` adds to the three sums. */
  lemma RoundUnfolds(polys: seq<Poly>, o: Opening, c: Challenges, inv: seq<Fr>, n: nat, tau: Fr, j: nat)
    requires WellSized(o, c, n) && PolysFit(polys, n) && j < n && |inv| == 3 * n + 1
    ensures var x, s, rInv := GeminiPoint(c, j), Power(c.nu, 2 * j), inv[R_SLOT];
            var a, b := ClaimPoly(polys, c, rInv, n, j, 1), ClaimPoly(polys, c, rInv, n, j, -1);
            && QuotientCommitment(polys, c, rInv, n, tau, j + 1)
               == QuotientCommitment(polys, c, rInv, n, tau, j)
                  + s * Eval(Quotient(a, x), tau) + s * c.nu * Eval(Quotient(b, 0 - x), tau)
            && OpeningCommitment(polys, c, inv, n, tau, j + 1)
               == OpeningCommitment(polys, c, inv, n, tau, j)
                  + Eval(Quotient(ClaimPart(a, x, s, inv[PosSlot(n, j)]), c.z), tau)
                  + Eval(Quotient(ClaimPart(b, 0 - x, s * c.nu, inv[NegSlot(n, j)]), c.z), tau)
            && ClaimSum(o, c, inv, n, j + 1)
               == ClaimSum(o, c, inv, n, j)
                  + (s * inv[PosSlot(n, j)] * (ClaimCommitment(o, c, rInv, j, 1) - FoldValue(o, c, inv, n, j))
                     + s * c.nu * inv[NegSlot(n, j)] * (ClaimCommitment(o, c, rInv, j, -1) - o.aEvals[j]))
  {
    hide Eval, Quotient, ClaimPoly, ClaimPart, FoldValue, Power, GeminiPoint, ClaimCommitment, Pow2, IsShiftable;
  }

  /** One more round keeps the balance. */
  lemma RoundBalances(p: Prime, polys: seq<Poly>, o: Opening, c: Challenges, inv: seq<Fr>, n: nat, tau: Fr, j: nat)
    requires WellSized(o, c, n) && PolysFit(polys, n) && j < n && |inv| == 3 * n + 1
    requires Eq(p, (c.z - GeminiPoint(c, j)) * inv[PosSlot(n, j)], 1)
    requires Eq(p, (c.z - (0 - GeminiPoint(c, j))) * inv[NegSlot(n, j)], 1)
    requires Eq(p, FoldValue(o, c, inv, n, j), Eval(ClaimPoly(polys, c, inv[R_SLOT], n, j, 1), GeminiPoint(c, j)))
    requires Eq(p, o.aEvals[j], Eval(ClaimPoly(polys, c, inv[R_SLOT], n, j, -1), 0 - GeminiPoint(c, j)))
    requires Eq(p, ClaimCommitment(o, c, inv[R_SLOT], j, 1), Eval(ClaimPoly(polys, c, inv[R_SLOT], n, j, 1), tau))
    requires Eq(p, ClaimCommitment(o, c, inv[R_SLOT], j, -1), Eval(ClaimPoly(polys, c, inv[R_SLOT], n, j, -1), tau))
    requires Eq(p, QuotientCommitment(polys, c, inv[R_SLOT], n, tau, j) - ClaimSum(o, c, inv, n, j)
                   - (tau - c.z) * OpeningCommitment(polys, c, inv, n, tau, j), 0)
    ensures Eq(p, QuotientCommitment(polys, c, inv[R_SLOT], n, tau, j + 1) - ClaimSum(o, c, inv, n, j + 1)
                  - (tau - c.z) * OpeningCommitment(polys, c, inv, n, tau, j + 1), 0)
  {
    hide Eq, Eval, Quotient, ClaimPoly, ClaimPart, FoldValue, Power, GeminiPoint, ClaimCommitment, Pow2, IsShiftable,
         QuotientCommitment, OpeningCommitment, ClaimSum;
    RoundUnfolds(polys, o, c, inv, n, tau, j);
    var x, s, rInv := GeminiPoint(c, j), Power(c.nu, 2 * j), inv[R_SLOT];
    var a, b := ClaimPoly(polys, c, rInv, n, j, 1), ClaimPoly(polys, c, rInv, n, j, -1);
    ClaimBalances(p, a, x, s, inv[PosSlot(n, j)], c.z, tau, ClaimCommitment(o, c, rInv, j, 1), FoldValue(o, c, inv, n, j));
    ClaimBalances(p, b, 0 - x, s * c.nu, inv[NegSlot(n, j)], c.z, tau, ClaimCommitment(o, c, rInv, j, -1), o.aEvals[j]);
    BalanceAlgebra(p, tau - c.z,
                   QuotientCommitment(polys, c, rInv, n, tau, j), ClaimSum(o, c, inv, n, j), OpeningCommitment(polys, c, inv, n, tau, j),
                   s * Eval(Quotient(a, x), tau),
                   s * inv[PosSlot(n, j)] * (ClaimCommitment(o, c, rInv, j, 1) - FoldValue(o, c, inv, n, j)),
                   Eval(Quotient(ClaimPart(a, x, s, inv[PosSlot(n, j)]), c.z), tau),
                   s * c.nu * Eval(Quotient(b, 0 - x), tau),
                   s * c.nu * inv[NegSlot(n, j)] * (ClaimCommitment(o, c, rInv, j, -1) - o.aEvals[j]),
                   Eval(Quotient(ClaimPart(b, 0 - x, s * c.nu, inv[NegSlot(n, j)]), c.z), tau));
  }

  /** The sum over the first `k` rounds of quotient, claims and opening proof is zero. */
  lemma {:induction false} RoundsBalance(p: Prime, polys: seq<Poly>, o: Opening, c: Challenges, denoms: seq<Fr>, inv: seq<Fr>, n: nat, tau: Fr, k: nat)
    requires WellSized(o, c, n) && PolysFit(polys, n) && k <= n && |inv| == 3 * n + 1
    requires IsDenominators(c, n, denoms) && Inverses(p, denoms, inv)
    requires Honest(p, polys, o, c, inv, n, tau)
    ensures Eq(p, QuotientCommitment(polys, c, inv[R_SLOT], n, tau, k) - ClaimSum(o, c, inv, n, k)
                  - (tau - c.z) * OpeningCommitment(polys, c, inv, n, tau, k), 0)
  {
    hide Eq, Honest, IsDenominators, Inverses, Eval, Quotient, ClaimPoly, ClaimPart, FoldValue, Power, GeminiPoint, ClaimCommitment;
    if k == 0 {
      assert (tau - c.z) * 0 == 0;
      EqRefl(p, 0);
    } else {
      var j := k - 1;
      RoundsBalance(p, polys, o, c, denoms, inv, n, tau, j);
      PosDenominator(p, c, denoms, inv, n, j);
      ClaimValuesHonest(p, polys, o, c, denoms, inv, n, tau, j);
      ClaimCommitmentHonest(p, polys, o, c, inv, n, tau, j, 1);
      ClaimCommitmentHonest(p, polys, o, c, inv, n, tau, j, -1);
      RoundBalances(p, polys, o, c, inv, n, tau, j);
    }
  }

  lemma BalanceAlgebra(p: Prime, d: Fr, q: Fr, s: Fr, w: Fr, q1: Fr, s1: Fr, w1: Fr, q2: Fr, s2: Fr, w2: Fr)
    requires Eq(p, q - s - d * w, 0) && Eq(p, q1 - s1 - d * w1, 0) && Eq(p, q2 - s2 - d * w2, 0)
    ensures Eq(p, (q + q1 + q2) - (s + (s1 + s2)) - d * (w + w1 + w2), 0)
  {
    hide Eq;
    EqAdd(p, q - s - d * w, 0, q1 - s1 - d * w1, 0);
    EqAdd(p, q - s - d * w + (q1 - s1 - d * w1), 0, q2 - s2 - d * w2, 0);
    Distributes(d, w, w1);
    Distributes(d, w + w1, w2);
  }

  /**
   Completeness for any number of rounds: with honest messages and no zero denominator, the
   opening equation the verifier tests holds at the setup's secret point, whatever it is.
   */
  lemma HonestOpeningAccepted(p: Prime, polys: seq<Poly>, o: Opening, c: Challenges, denoms: seq<Fr>, inv: seq<Fr>, n: nat, tau: Fr)
    requires WellSized(o, c, n) && PolysFit(polys, n)
    requires IsDenominators(c, n, denoms) && Inverses(p, denoms, inv)
    requires Honest(p, polys, o, c, inv, n, tau)
    ensures Eq(p, OpeningEquation(o, c, inv, n, tau), 0)
  {
    hide Eq, QuotientCommitment, OpeningCommitment, ClaimSum, HonestEvaluations, Eval, GeminiPoint, BatchedPoly;
    var q, w := QuotientCommitment(polys, c, inv[R_SLOT], n, tau, n), OpeningCommitment(polys, c, inv, n, tau, n);
    RoundsBalance(p, polys, o, c, denoms, inv, n, tau, n);
    FinalAlgebra(p, o.q, q, o.w, w, ClaimSum(o, c, inv, n, n), c.z, tau);
  }

  lemma FinalAlgebra(p: Prime, oq: Fr, q: Fr, ow: Fr, w: Fr, s: Fr, z: Fr, tau: Fr)
    requires Eq(p, oq, q) && Eq(p, ow, w)
    requires Eq(p, q - s - (tau - z) * w, 0)
    ensures Eq(p, oq - s + z * ow - tau * ow, 0)
  {
    hide Eq;
    EqRefl(p, s);
    EqSub(p, oq, q, s, s);
    EqScale(p, tau - z, ow, w);
    EqSub(p, oq - s, q - s, (tau - z) * ow, (tau - z) * w);
    EqTrans(p, oq - s - (tau - z) * ow, q - s - (tau - z) * w, 0);
    Distributes(ow, tau, z);
  }
}
