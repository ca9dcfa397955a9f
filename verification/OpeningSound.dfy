/**
 Soundness of the batch-opening verifier: the evaluations it accepts are those of the committed
 polynomials, unless a challenge was a root of a nonzero polynomial that was fixed before it. Every group
 element of the prover is a commitment to some polynomial of its choice, of any degree.
 */
module OpeningSound {
  import opened Field
  import opened Polynomial
  import opened Sumcheck
  import opened GateSeparator
  import opened Shplemini
  import opened Gemini
  import opened HonestOpening
  import opened Shplonk

  /** What the prover committed to: one column per unshifted entity, the folds, the two quotients. */
  datatype Sent = Sent(polys: seq<Poly>, folds: seq<Poly>, q: Poly, w: Poly)

  ghost predicate Committed(p: Prime, m: Sent, o: Opening, c: Challenges, n: nat, tau: Fr)
    requires WellSized(o, c, n)
  {
    && Traces(m.polys, n) && |m.folds| == n - 1
    && (forall i :: 0 <= i < UNSHIFTED ==> Eq(p, o.comms[i], Eval(m.polys[i], tau)))
    && (forall j :: 0 <= j < n - 1 ==> Eq(p, o.foldComms[j], Eval(m.folds[j], tau)))
    && Eq(p, o.q, Eval(m.q, tau)) && Eq(p, o.w, Eval(m.w, tau))
  }

  // ------------------------------------------------------------------- claims of a proof

  /** The polynomial opened at the positive (`sign` 1) or negative (`sign` -1) point of round `j`. */
  function OpenedPoly(m: Sent, c: Challenges, rInv: Fr, n: nat, j: nat, sign: int): Poly
    requires Traces(m.polys, n) && |m.folds| == n - 1 && |c.us| == n && j < n
  {
    if j == 0 then ClaimPoly(m.polys, c, rInv, n, 0, sign) else m.folds[j - 1]
  }

  function PosClaim(m: Sent, o: Opening, c: Challenges, inv: seq<Fr>, n: nat, j: nat): Claim
    requires WellSized(o, c, n) && |inv| == 3 * n + 1 && Traces(m.polys, n) && |m.folds| == n - 1 && j < n
  {
    Claim(OpenedPoly(m, c, inv[R_SLOT], n, j, 1), GeminiPoint(c, j), FoldValue(o, c, inv, n, j))
  }

  function NegClaim(m: Sent, o: Opening, c: Challenges, inv: seq<Fr>, n: nat, j: nat): Claim
    requires WellSized(o, c, n) && |inv| == 3 * n + 1 && Traces(m.polys, n) && |m.folds| == n - 1 && j < n
  {
    Claim(OpenedPoly(m, c, inv[R_SLOT], n, j, -1), 0 - GeminiPoint(c, j), o.aEvals[j])
  }

  /** The two claims of every round. */
  function ClaimsOf(m: Sent, o: Opening, c: Challenges, inv: seq<Fr>, n: nat, k: nat): (cs: seq<Claim>)
    requires WellSized(o, c, n) && |inv| == 3 * n + 1 && Traces(m.polys, n) && |m.folds| == n - 1 && k <= n
    ensures |cs| == 2 * k
  {
    if k == 0 then [] else ClaimsOf(m, o, c, inv, n, k - 1) + [PosClaim(m, o, c, inv, n, k - 1), NegClaim(m, o, c, inv, n, k - 1)]
  }

  function PosWeight(c: Challenges, inv: seq<Fr>, n: nat, j: nat): Fr
    requires |inv| == 3 * n + 1 && j < n
  {
    Power(c.nu, 2 * j) * inv[PosSlot(n, j)]
  }

  function NegWeight(c: Challenges, inv: seq<Fr>, n: nat, j: nat): Fr
    requires |inv| == 3 * n + 1 && j < n
  {
    Power(c.nu, 2 * j) * c.nu * inv[NegSlot(n, j)]
  }

  function WeightsOf(c: Challenges, inv: seq<Fr>, n: nat, k: nat): (ws: seq<Fr>)
    requires |inv| == 3 * n + 1 && k <= n
    ensures |ws| == 2 * k
  {
    if k == 0 then [] else WeightsOf(c, inv, n, k - 1) + [PosWeight(c, inv, n, k - 1), NegWeight(c, inv, n, k - 1)]
  }

  lemma {:induction false} ClaimAt(m: Sent, o: Opening, c: Challenges, inv: seq<Fr>, n: nat, k: nat, j: nat)
    requires WellSized(o, c, n) && |inv| == 3 * n + 1 && Traces(m.polys, n) && |m.folds| == n - 1 && j < k <= n
    ensures ClaimsOf(m, o, c, inv, n, k)[2 * j] == PosClaim(m, o, c, inv, n, j)
    ensures ClaimsOf(m, o, c, inv, n, k)[2 * j + 1] == NegClaim(m, o, c, inv, n, j)
    ensures WeightsOf(c, inv, n, k)[2 * j] == PosWeight(c, inv, n, j)
    ensures WeightsOf(c, inv, n, k)[2 * j + 1] == NegWeight(c, inv, n, j)
  {
    hide PosClaim, NegClaim, PosWeight, NegWeight, Traces;
    if j < k - 1 { ClaimAt(m, o, c, inv, n, k - 1, j); }
  }

  lemma ScaledInverse(p: Prime, s: Fr, d: Fr, i: Fr)
    requires Eq(p, d * i, 1)
    ensures Eq(p, d * (s * i), s)
  {
    hide Eq;
    Swap(d, s, i);
    EqScale(p, s, d * i, 1);
  }

  lemma OddPower(x: Fr, j: nat)
    ensures Power(x, 2 * j + 1) == Power(x, 2 * j) * x
  {
    assert Power(x, 2 * j + 1) == x * Power(x, 2 * j);
  }

  /** The verifier's weights are powers of nu over the distances to the points. */
  lemma WeightsFit(p: Prime, m: Sent, o: Opening, c: Challenges, denoms: seq<Fr>, inv: seq<Fr>, n: nat)
    requires WellSized(o, c, n) && Traces(m.polys, n) && |m.folds| == n - 1
    requires IsDenominators(c, n, denoms) && Inverses(p, denoms, inv)
    ensures IsWeights(p, ClaimsOf(m, o, c, inv, n, n), c.nu, c.z, WeightsOf(c, inv, n, n))
  {
    hide Eq, ClaimsOf, WeightsOf, Power, FoldValue, OpenedPoly, IsDenominators, Inverses, GeminiPoint, Traces;
    InverseCount(p, c, denoms, inv, n);
    var cs, ws := ClaimsOf(m, o, c, inv, n, n), WeightsOf(c, inv, n, n);
    forall i | 0 <= i < |cs| ensures Eq(p, (c.z - cs[i].point) * ws[i], Power(c.nu, i)) {
      var j := i / 2;
      assert i == 2 * j || i == 2 * j + 1;
      ClaimAt(m, o, c, inv, n, n, j);
      PosDenominator(p, c, denoms, inv, n, j);
      if i == 2 * j {
        ScaledInverse(p, Power(c.nu, 2 * j), c.z - GeminiPoint(c, j), inv[PosSlot(n, j)]);
      } else {
        OddPower(c.nu, j);
        ScaledInverse(p, Power(c.nu, 2 * j) * c.nu, c.z - (0 - GeminiPoint(c, j)), inv[NegSlot(n, j)]);
      }
    }
  }

  lemma InverseCount(p: Prime, c: Challenges, denoms: seq<Fr>, inv: seq<Fr>, n: nat)
    requires |c.us| == n > 0 && IsDenominators(c, n, denoms) && Inverses(p, denoms, inv)
    ensures |inv| == 3 * n + 1
  {
  }

  // ----------------------------------------------------- the equation, by polynomials

  lemma OpenedCommitment(p: Prime, m: Sent, o: Opening, c: Challenges, rInv: Fr, n: nat, tau: Fr, j: nat, sign: int)
    requires WellSized(o, c, n) && Committed(p, m, o, c, n, tau) && j < n
    ensures Eq(p, ClaimCommitment(o, c, rInv, j, sign), Eval(OpenedPoly(m, c, rInv, n, j, sign), tau))
  {
    hide Eq, Eval, UnshiftedPoly, ShiftablePoly, BatchUnshifted, BatchShiftable;
    if j == 0 {
      var f, g := UnshiftedPoly(c.rho, m.polys, Pow2(n), UNSHIFTED), ShiftablePoly(c.rho, m.polys, Pow2(n), UNSHIFTED);
      BatchUnshiftedIsCommitment(p, c, m.polys, o.comms, n, tau, UNSHIFTED);
      BatchShiftableIsCommitment(p, c, m.polys, o.comms, n, tau, UNSHIFTED);
      EvalAdd(f, Scale(sign * rInv, g), tau);
      EvalScale(sign * rInv, g, tau);
      var b := BatchShiftable(c, o.comms, UNSHIFTED);
      Assoc(sign, rInv, b);
      AccumulateCongruent(p, BatchUnshifted(c, o.comms, UNSHIFTED), Eval(f, tau), sign * rInv, b, Eval(g, tau));
    } else {
      assert 0 <= j - 1 < n - 1;
    }
  }

  lemma WeightedPair(cs: seq<Claim>, ws: seq<Fr>, a: Claim, b: Claim, v: Fr, w: Fr, y: Fr)
    requires |cs| == |ws|
    ensures var ds, us := cs + [a, b], ws + [v, w];
            Weighted(ds, us, |ds|, y) == Weighted(cs, ws, |cs|, y) + v * (Eval(a.poly, y) - a.value) + w * (Eval(b.poly, y) - b.value)
  {
    hide Eval;
    WeightedPrefix(cs, ws, [a, b], [v, w], |cs|, y);
    var ds, us := cs + [a, b], ws + [v, w];
    assert Weighted(ds, us, |cs| + 1, y) == Weighted(ds, us, |cs|, y) + v * (Eval(a.poly, y) - a.value);
  }

  lemma {:induction false} WeightedPrefix(cs: seq<Claim>, ws: seq<Fr>, ds: seq<Claim>, vs: seq<Fr>, k: nat, y: Fr)
    requires |cs| == |ws| && |ds| == |vs| && k <= |cs|
    ensures Weighted(cs + ds, ws + vs, k, y) == Weighted(cs, ws, k, y)
  {
    hide Eval;
    if k > 0 { WeightedPrefix(cs, ws, ds, vs, k - 1, y); }
  }

  /** The verifier's claims, over commitments, are the weighted claims at the secret point. */
  lemma {:induction false} SumIsWeighted(p: Prime, m: Sent, o: Opening, c: Challenges, inv: seq<Fr>, n: nat, tau: Fr, k: nat)
    requires WellSized(o, c, n) && Committed(p, m, o, c, n, tau) && |inv| == 3 * n + 1 && k <= n
    ensures Eq(p, ClaimSum(o, c, inv, n, k), Weighted(ClaimsOf(m, o, c, inv, n, k), WeightsOf(c, inv, n, k), 2 * k, tau))
  {
    hide Eq, Eval, FoldValue, OpenedPoly, ClaimCommitment, GeminiPoint, Weighted, Power, Traces;
    if k == 0 {
      NothingWeighted(tau);
      EqRefl(p, 0);
    } else {
      SumIsWeighted(p, m, o, c, inv, n, tau, k - 1);
      OneRoundMore(p, m, o, c, inv, n, tau, k - 1);
    }
  }

  lemma OneRoundMore(p: Prime, m: Sent, o: Opening, c: Challenges, inv: seq<Fr>, n: nat, tau: Fr, j: nat)
    requires WellSized(o, c, n) && Committed(p, m, o, c, n, tau) && |inv| == 3 * n + 1 && j < n
    requires Eq(p, ClaimSum(o, c, inv, n, j), Weighted(ClaimsOf(m, o, c, inv, n, j), WeightsOf(c, inv, n, j), 2 * j, tau))
    ensures Eq(p, ClaimSum(o, c, inv, n, j + 1),
               Weighted(ClaimsOf(m, o, c, inv, n, j + 1), WeightsOf(c, inv, n, j + 1), 2 * (j + 1), tau))
  {
    hide Eq, Eval, FoldValue, OpenedPoly, ClaimCommitment, GeminiPoint, Weighted, Power, Traces, ClaimSum, PosWeight, NegWeight;
    var a, b := PosClaim(m, o, c, inv, n, j), NegClaim(m, o, c, inv, n, j);
    var cs, ws, v, w := ClaimsOf(m, o, c, inv, n, j), WeightsOf(c, inv, n, j), PosWeight(c, inv, n, j), NegWeight(c, inv, n, j);
    WeightedPair(cs, ws, a, b, v, w, tau);
    OpenedCommitment(p, m, o, c, inv[R_SLOT], n, tau, j, 1);
    OpenedCommitment(p, m, o, c, inv[R_SLOT], n, tau, j, -1);
    RoundAsPair(o, c, inv, n, j);
    PairCongruent(p, ClaimSum(o, c, inv, n, j), Weighted(cs, ws, 2 * j, tau), v, w,
                  ClaimCommitment(o, c, inv[R_SLOT], j, 1), Eval(a.poly, tau), a.value,
                  ClaimCommitment(o, c, inv[R_SLOT], j, -1), Eval(b.poly, tau), b.value);
  }

  lemma PairCongruent(p: Prime, s: Fr, t: Fr, v: Fr, w: Fr, plus: Fr, a: Fr, x: Fr, minus: Fr, b: Fr, y: Fr)
    requires Eq(p, s, t) && Eq(p, plus, a) && Eq(p, minus, b)
    ensures Eq(p, s + v * (plus - x) + w * (minus - y), t + v * (a - x) + w * (b - y))
  {
    hide Eq;
    ShiftBoth(p, plus, a, x);
    ShiftBoth(p, minus, b, y);
    AccumulateCongruent(p, s, t, v, plus - x, a - x);
    AccumulateCongruent(p, s + v * (plus - x), t + v * (a - x), w, minus - y, b - y);
  }

  lemma NothingWeighted(y: Fr)
    ensures Weighted([], [], 0, y) == 0
  {
  }

  lemma RoundAsPair(o: Opening, c: Challenges, inv: seq<Fr>, n: nat, j: nat)
    requires WellSized(o, c, n) && |inv| == 3 * n + 1 && j < n
    ensures ClaimSum(o, c, inv, n, j + 1)
         == ClaimSum(o, c, inv, n, j)
            + PosWeight(c, inv, n, j) * (ClaimCommitment(o, c, inv[R_SLOT], j, 1) - FoldValue(o, c, inv, n, j))
            + NegWeight(c, inv, n, j) * (ClaimCommitment(o, c, inv[R_SLOT], j, -1) - o.aEvals[j])
  {
    hide FoldValue, ClaimCommitment, Power;
  }

  lemma ShiftBoth(p: Prime, a: Fr, b: Fr, v: Fr)
    requires Eq(p, a, b)
    ensures Eq(p, a - v, b - v)
  {
    hide Eq;
    EqRefl(p, v);
    EqSub(p, a, b, v, v);
  }

  lemma EquationByPolynomials(p: Prime, m: Sent, o: Opening, c: Challenges, inv: seq<Fr>, n: nat, tau: Fr)
    requires WellSized(o, c, n) && Committed(p, m, o, c, n, tau) && |inv| == 3 * n + 1
    requires Eq(p, OpeningEquation(o, c, inv, n, tau), 0)
    ensures Eq(p, Eval(m.q, tau) - Weighted(ClaimsOf(m, o, c, inv, n, n), WeightsOf(c, inv, n, n), 2 * n, tau)
                  - (tau - c.z) * Eval(m.w, tau), 0)
  {
    hide Eq, Eval, Weighted, ClaimsOf, WeightsOf, ClaimSum, Traces;
    SumIsWeighted(p, m, o, c, inv, n, tau, n);
    var s, t := ClaimSum(o, c, inv, n, n), Weighted(ClaimsOf(m, o, c, inv, n, n), WeightsOf(c, inv, n, n), 2 * n, tau);
    EqSub(p, o.q, Eval(m.q, tau), s, t);
    EqScale(p, tau - c.z, o.w, Eval(m.w, tau));
    EqSub(p, o.q - s, Eval(m.q, tau) - t, (tau - c.z) * o.w, (tau - c.z) * Eval(m.w, tau));
    Distributes(o.w, tau, c.z);
    assert o.q - s - (tau - c.z) * o.w == OpeningEquation(o, c, inv, n, tau);
    EqSym(p, OpeningEquation(o, c, inv, n, tau), Eval(m.q, tau) - t - (tau - c.z) * Eval(m.w, tau));
    EqTrans(p, Eval(m.q, tau) - t - (tau - c.z) * Eval(m.w, tau), OpeningEquation(o, c, inv, n, tau), 0);
  }

  // ------------------------------------------------------------------------ the folds

  /** Fold `j`: the batch itself, then what was sent, and at last the constant batched evaluation. */
  function FoldPoly(m: Sent, evals: seq<Fr>, rho: Fr, n: nat, j: nat): Poly
    requires Traces(m.polys, n) && |m.folds| == n - 1 && j <= n
  {
    if j == 0 then BatchedPoly(rho, m.polys, n) else if j == n then [Eval(evals, rho)] else m.folds[j - 1]
  }

  /** With a zero appended if needed, the number of coefficients is even. */
  function Evened(a: Poly): (b: Poly)
    ensures |b| % 2 == 0
  {
    if |a| % 2 == 0 then a else a + [0]
  }

  function NextFold(a: Poly, u: Fr): Poly {
    Fold(Evened(a), u)
  }

  /** The constant coefficient of the shiftable batch, which division by X would lose. */
  function LostConstant(m: Sent, rho: Fr, n: nat): Fr
    requires Traces(m.polys, n)
  {
    ShiftablePoly(rho, m.polys, Pow2(n), UNSHIFTED)[0]
  }

  function Difference(a: Poly, b: Poly): Poly {
    Plus(a, Scale(-1, b))
  }

  /** How far fold `j + 1` is from being fold `j` folded: fixed before the point `r` is drawn. */
  function Gap(m: Sent, evals: seq<Fr>, rho: Fr, us: seq<Fr>, n: nat, j: nat): Poly
    requires Traces(m.polys, n) && |m.folds| == n - 1 && j < n == |us|
  {
    var gap := Difference(FoldPoly(m, evals, rho, n, j + 1), NextFold(FoldPoly(m, evals, rho, n, j), us[j]));
    if j == 0 then [0 - us[0] * LostConstant(m, rho, n)] + gap else gap
  }

  lemma EvalEvened(a: Poly, x: Fr)
    ensures Eval(Evened(a), x) == Eval(a, x)
  {
    EvalPadded(a, x);
  }

  lemma EvalDifference(a: Poly, b: Poly, x: Fr)
    ensures Eval(Difference(a, b), x) == Eval(a, x) - Eval(b, x)
  {
    hide Eval;
    EvalPlus(a, Scale(-1, b), x);
    EvalScale(-1, b, x);
  }

  /** The fold step of the verifier, its denominator multiplied out. */
  lemma StepMultipliedOut(p: Prime, f: Fr, num: Fr, den: Fr, i: Fr)
    requires f == num * i && Eq(p, den * i, 1)
    ensures Eq(p, f * den, num)
  {
    hide Eq;
    Assoc(num, i, den);
    assert i * den == den * i;
    EqScale(p, num, den * i, 1);
  }

  lemma CancelDouble(p: Prime, x: Fr, a: Fr, b: Fr)
    requires p > 2 && !Eq(p, x, 0) && Eq(p, x * a * 2, x * b * 2)
    ensures Eq(p, a, b)
  {
    hide Eq;
    SmallDistinct(p, 2, 0);
    Cancel(p, 2, x * a, x * b);
    Cancel(p, x, a, b);
  }

  /** True values on both sides of a fold make the folded value true. */
  lemma FoldedValue(p: Prime, x: Fr, f: Fr, fx: Fr, a: Fr, ax: Fr, g: Fr, e: Fr, den: Fr, lin: Fr)
    requires p > 2 && !Eq(p, x, 0) && Eq(p, fx, f) && Eq(p, ax, a)
    requires Eq(p, f * den, x * g * 2 - a * lin)
    requires x * e * 2 - ax * lin == fx * den
    ensures Eq(p, e, g)
  {
    hide Eq;
    EqScale(p, den, fx, f);
    EqTrans(p, fx * den, f * den, x * g * 2 - a * lin);
    EqScale(p, lin, ax, a);
    EqAdd(p, x * e * 2 - ax * lin, x * g * 2 - a * lin, ax * lin, a * lin);
    CancelDouble(p, x, e, g);
  }

  /** The same for the first fold, whose shiftable half is divided by the point. */
  lemma FirstFoldedValue(p: Prime, r: Fr, f: Fr, a: Fr, ap: Fr, an: Fr, s: Fr, g: Fr, e: Fr, u: Fr, den: Fr, lin: Fr)
    requires p > 2 && !Eq(p, r, 0)
    requires Eq(p, r * ap + s, r * f) && Eq(p, r * an - s, r * a)
    requires Eq(p, f * den, r * g * 2 - a * lin)
    requires r * e * 2 - an * lin == ap * den
    requires den == lin + 2 * u
    ensures Eq(p, 0 - u * s + (r * r) * (g - e), 0)
  {
    hide Eq;
    EqScale(p, den, r * ap + s, r * f);
    EqScale(p, lin, r * an - s, r * a);
    EqAdd(p, (r * ap + s) * den, (r * f) * den, (r * an - s) * lin, (r * a) * lin);
    EqScale(p, r, f * den, r * g * 2 - a * lin);
    Assoc(r, f, den);
    Assoc(r, a, lin);
    Distributes(r, r * g * 2, a * lin);
    assert r * (f * den) + r * (a * lin) == (r * f) * den + (r * a) * lin;
    EqRefl(p, r * (a * lin));
    EqAdd(p, r * (f * den), r * (r * g * 2 - a * lin), r * (a * lin), r * (a * lin));
    EqTrans(p, (r * ap + s) * den + (r * an - s) * lin, (r * f) * den + (r * a) * lin, r * (r * g * 2));
    FirstAlgebra(r, ap, an, s, g, e, u, den, lin);
    EqDifference(p, (r * ap + s) * den + (r * an - s) * lin, r * (r * g * 2));
    SmallDistinct(p, 2, 0);
    EqSym(p, (r * ap + s) * den + (r * an - s) * lin, r * (r * g * 2));
    EqDifference(p, r * (r * g * 2), (r * ap + s) * den + (r * an - s) * lin);
    NoZeroDivisors(p, 2, 0 - u * s + (r * r) * (g - e));
  }

  lemma FirstAlgebra(r: Fr, ap: Fr, an: Fr, s: Fr, g: Fr, e: Fr, u: Fr, den: Fr, lin: Fr)
    requires r * e * 2 - an * lin == ap * den && den == lin + 2 * u
    ensures r * (r * g * 2) - ((r * ap + s) * den + (r * an - s) * lin) == 2 * (0 - u * s + (r * r) * (g - e))
  {
    Distributes(den, r * ap, s);
    Distributes(lin, r * an, s);
    Assoc(r, ap, den);
    Assoc(r, an, lin);
    Distributes(r, ap * den, an * lin);
    assert r * (ap * den + an * lin) == r * (r * e * 2);
    assert s * den - s * lin == 2 * (u * s);
    Distributes(r * r, g, e);
    Assoc(r, r, g);
    Assoc(r, r, e);
  }

  // ------------------------------------------------------------- what true claims say

  /** Every claim of the proof is true of the polynomials behind it. */
  ghost predicate ClaimsHold(p: Prime, m: Sent, o: Opening, c: Challenges, inv: seq<Fr>, n: nat)
    requires WellSized(o, c, n) && |inv| == 3 * n + 1 && Traces(m.polys, n) && |m.folds| == n - 1
  {
    forall j :: 0 <= j < n ==> Holds(p, PosClaim(m, o, c, inv, n, j)) && Holds(p, NegClaim(m, o, c, inv, n, j))
  }

  lemma PointNonzero(p: Prime, c: Challenges, j: nat)
    requires !Eq(p, c.r, 0)
    ensures !Eq(p, GeminiPoint(c, j), 0)
  {
    PowerNonzero(p, c.r, Pow2(j));
  }

  lemma FoldStepHolds(p: Prime, o: Opening, c: Challenges, denoms: seq<Fr>, inv: seq<Fr>, n: nat, j: nat)
    requires WellSized(o, c, n) && j < n
    requires IsDenominators(c, n, denoms) && Inverses(p, denoms, inv)
    ensures var x, u := GeminiPoint(c, j), c.us[j];
            |inv| == 3 * n + 1
            && Eq(p, FoldValue(o, c, inv, n, j) * (x * (1 - u) + u),
                  x * FoldValue(o, c, inv, n, j + 1) * 2 - o.aEvals[j] * (x * (1 - u) - u))
  {
    hide Eq, GeminiPoint, FoldValue, Eval;
    var x, u := GeminiPoint(c, j), c.us[j];
    FoldValueStep(o, c, inv, n, j);
    assert denoms[FoldSlot(n, j)] == x * (1 - u) + u;
    StepMultipliedOut(p, FoldValue(o, c, inv, n, j),
                      x * FoldValue(o, c, inv, n, j + 1) * 2 - o.aEvals[j] * (x * (1 - u) - u),
                      x * (1 - u) + u, inv[FoldSlot(n, j)]);
  }

  /** The value that the verifier carries to round `j + 1` is that of the next fold. */
  lemma NextValue(p: Prime, m: Sent, o: Opening, c: Challenges, inv: seq<Fr>, n: nat, j: nat)
    requires WellSized(o, c, n) && |inv| == 3 * n + 1 && Traces(m.polys, n) && |m.folds| == n - 1 && j < n
    requires ClaimsHold(p, m, o, c, inv, n)
    ensures Eq(p, Eval(FoldPoly(m, o.evals, c.rho, n, j + 1), GeminiPoint(c, j + 1)), FoldValue(o, c, inv, n, j + 1))
  {
    hide Eq, GeminiPoint, FoldValue, Traces;
    if j + 1 == n {
      FoldValueTop(o, c, inv, n);
      ConstantPoly(Eval(o.evals, c.rho), GeminiPoint(c, n));
      EqRefl(p, Eval(o.evals, c.rho));
    } else {
      assert Holds(p, PosClaim(m, o, c, inv, n, j + 1));
    }
  }

  lemma ConstantPoly(e: Fr, x: Fr)
    ensures Eval([e], x) == e
  {
    var one: Poly := [e];
    assert one[1..] == [] && x * 0 == 0;
  }

  /** True claims around a fold: its gap vanishes at the next point. */
  lemma GapVanishes(p: Prime, m: Sent, o: Opening, c: Challenges, denoms: seq<Fr>, inv: seq<Fr>, n: nat, j: nat)
    requires p > 2 && WellSized(o, c, n) && Traces(m.polys, n) && |m.folds| == n - 1 && 0 < j < n
    requires IsDenominators(c, n, denoms) && Inverses(p, denoms, inv) && |inv| == 3 * n + 1
    requires ClaimsHold(p, m, o, c, inv, n)
    ensures Eq(p, Eval(Gap(m, o.evals, c.rho, c.us, n, j), GeminiPoint(c, j + 1)), 0)
  {
    hide Eq, GeminiPoint, FoldValue, Eval, Fold, Traces, IsDenominators, Inverses, Evened, Difference;
    var x, u, a := GeminiPoint(c, j), c.us[j], m.folds[j - 1];
    RNonzero(p, c, denoms, inv, n);
    PointNonzero(p, c, j);
    FoldStepHolds(p, o, c, denoms, inv, n, j);
    assert Holds(p, PosClaim(m, o, c, inv, n, j)) && Holds(p, NegClaim(m, o, c, inv, n, j));
    FoldIdentity(Evened(a), u, x);
    EvalEvened(a, x);
    EvalEvened(a, 0 - x);
    PointSquares(c, j);
    FoldedValue(p, x, FoldValue(o, c, inv, n, j), Eval(a, x), o.aEvals[j], Eval(a, 0 - x), FoldValue(o, c, inv, n, j + 1),
                Eval(NextFold(a, u), x * x), x * (1 - u) + u, x * (1 - u) - u);
    NextValue(p, m, o, c, inv, n, j);
    EvalDifference(FoldPoly(m, o.evals, c.rho, n, j + 1), NextFold(a, u), x * x);
    var g := FoldValue(o, c, inv, n, j + 1);
    EqSym(p, Eval(NextFold(a, u), x * x), g);
    EqTrans(p, Eval(FoldPoly(m, o.evals, c.rho, n, j + 1), x * x), g, Eval(NextFold(a, u), x * x));
    EqDifference(p, Eval(FoldPoly(m, o.evals, c.rho, n, j + 1), x * x), Eval(NextFold(a, u), x * x));
  }

  lemma RNonzero(p: Prime, c: Challenges, denoms: seq<Fr>, inv: seq<Fr>, n: nat)
    requires |c.us| == n > 0 && IsDenominators(c, n, denoms) && Inverses(p, denoms, inv)
    ensures !Eq(p, c.r, 0)
  {
    hide Eq, GeminiPoint;
    assert Eq(p, denoms[R_SLOT] * inv[R_SLOT], 1);
    if Eq(p, c.r, 0) {
      EqScale(p, inv[R_SLOT], c.r, 0);
      EqSym(p, c.r * inv[R_SLOT], 1);
      EqTrans(p, 1, c.r * inv[R_SLOT], 0);
      SmallDistinct(p, 1, 0);
    }
  }

  lemma EvalConstantApart(a: Poly, x: Fr)
    requires a != []
    ensures Eval(a, x) == a[0] + x * Eval(ShiftDown(a), x)
  {
    EvalPadded(a[1..], x);
  }

  /** The first claim at `sign * r`, multiplied by r. */
  lemma FirstClaimSays(p: Prime, m: Sent, c: Challenges, rInv: Fr, n: nat, sign: int, v: Fr)
    requires Traces(m.polys, n) && |c.us| == n > 0 && (sign == 1 || sign == -1) && Eq(p, c.r * rInv, 1)
    requires Eq(p, Eval(ClaimPoly(m.polys, c, rInv, n, 0, sign), sign * c.r), v)
    ensures Eq(p, c.r * Eval(BatchedPoly(c.rho, m.polys, n), sign * c.r) + sign * LostConstant(m, c.rho, n), c.r * v)
  {
    hide Eq, Eval, UnshiftedPoly, ShiftablePoly, ShiftDown;
    var x, f, g := sign * c.r, UnshiftedPoly(c.rho, m.polys, Pow2(n), UNSHIFTED), ShiftablePoly(c.rho, m.polys, Pow2(n), UNSHIFTED);
    EvalAdd(f, Scale(sign * rInv, g), x);
    EvalScale(sign * rInv, g, x);
    EvalAdd(f, ShiftDown(g), x);
    EvalConstantApart(g, x);
    EqScale(p, c.r, Eval(f, x) + sign * rInv * Eval(g, x), v);
    EqScale(p, sign * Eval(g, x), c.r * rInv, 1);
    FirstClaimAlgebra(c.r, rInv, sign, Eval(f, x), Eval(g, x), Eval(ShiftDown(g), x), g[0]);
    EqRefl(p, c.r * Eval(f, x));
    EqAdd(p, c.r * Eval(f, x), c.r * Eval(f, x), (c.r * rInv) * (sign * Eval(g, x)), sign * Eval(g, x));
    var whole := c.r * (Eval(f, x) + sign * rInv * Eval(g, x));
    EqSym(p, whole, c.r * Eval(f, x) + sign * Eval(g, x));
    EqTrans(p, c.r * Eval(f, x) + sign * Eval(g, x), whole, c.r * v);
  }

  lemma FirstClaimAlgebra(r: Fr, rInv: Fr, sign: int, f: Fr, g: Fr, d: Fr, s: Fr)
    requires (sign == 1 || sign == -1) && g == s + (sign * r) * d
    ensures r * (f + sign * rInv * g) == r * f + (r * rInv) * (sign * g)
    ensures r * (f + d) + sign * s == r * f + sign * g
  {
    Distributes(r, f, sign * rInv * g);
    Distributes(r, f, d);
    if sign == 1 {
      Assoc(r, rInv, g);
    } else {
      assert (0 - rInv) * g == 0 - rInv * g;
      assert r * (0 - rInv * g) == 0 - r * (rInv * g);
      Assoc(r, rInv, 0 - g);
      assert rInv * (0 - g) == 0 - rInv * g;
      assert (0 - r) * d == 0 - r * d;
    }
  }

  lemma FirstGapVanishes(p: Prime, m: Sent, o: Opening, c: Challenges, denoms: seq<Fr>, inv: seq<Fr>, n: nat)
    requires p > 2 && WellSized(o, c, n) && Traces(m.polys, n) && |m.folds| == n - 1
    requires IsDenominators(c, n, denoms) && Inverses(p, denoms, inv) && |inv| == 3 * n + 1
    requires ClaimsHold(p, m, o, c, inv, n)
    ensures Eq(p, Eval(Gap(m, o.evals, c.rho, c.us, n, 0), GeminiPoint(c, 1)), 0)
  {
    hide Eq, GeminiPoint, FoldValue, Eval, Fold, IsDenominators, Inverses, Difference, BatchedPoly, ClaimPoly, LostConstant;
    var r, u, a, s := c.r, c.us[0], BatchedPoly(c.rho, m.polys, n), LostConstant(m, c.rho, n);
    RNonzero(p, c, denoms, inv, n);
    FirstPoint(c);
    FoldStepHolds(p, o, c, denoms, inv, n, 0);
    PosDenominator(p, c, denoms, inv, n, 0);
    assert Holds(p, PosClaim(m, o, c, inv, n, 0)) && Holds(p, NegClaim(m, o, c, inv, n, 0));
    FirstClaimSays(p, m, c, inv[R_SLOT], n, 1, FoldValue(o, c, inv, n, 0));
    FirstClaimSays(p, m, c, inv[R_SLOT], n, -1, o.aEvals[0]);
    FoldIdentity(Evened(a), u, r);
    EvalEvened(a, r);
    EvalEvened(a, 0 - r);
    PointSquares(c, 0);
    var g, e := FoldValue(o, c, inv, n, 1), Eval(NextFold(a, u), r * r);
    FirstFoldedValue(p, r, FoldValue(o, c, inv, n, 0), o.aEvals[0], Eval(a, r), Eval(a, 0 - r), s, g, e, u,
                     r * (1 - u) + u, r * (1 - u) - u);
    NextValue(p, m, o, c, inv, n, 0);
    FirstGapValue(m, o.evals, c.rho, c.us, n, r * r);
    var h := Eval(FoldPoly(m, o.evals, c.rho, n, 1), r * r);
    ShiftBoth(p, h, g, e);
    EqRefl(p, 0 - u * s);
    AccumulateCongruent(p, 0 - u * s, 0 - u * s, r * r, h - e, g - e);
    EqTrans(p, 0 - u * s + (r * r) * (h - e), 0 - u * s + (r * r) * (g - e), 0);
  }

  lemma FirstGapValue(m: Sent, evals: seq<Fr>, rho: Fr, us: seq<Fr>, n: nat, y: Fr)
    requires Traces(m.polys, n) && |m.folds| == n - 1 && 0 < n == |us|
    ensures Eval(Gap(m, evals, rho, us, n, 0), y)
         == 0 - us[0] * LostConstant(m, rho, n)
            + y * (Eval(FoldPoly(m, evals, rho, n, 1), y) - Eval(NextFold(BatchedPoly(rho, m.polys, n), us[0]), y))
  {
    hide LostConstant, Difference, FoldPoly, NextFold, BatchedPoly;
    var gap := Gap(m, evals, rho, us, n, 0);
    assert FoldPoly(m, evals, rho, n, 0) == BatchedPoly(rho, m.polys, n) by { FoldZero(m, evals, rho, n); }
    EvalDifference(FoldPoly(m, evals, rho, n, 1), NextFold(BatchedPoly(rho, m.polys, n), us[0]), y);
    assert gap[1..] == Difference(FoldPoly(m, evals, rho, n, 1), NextFold(BatchedPoly(rho, m.polys, n), us[0]));
  }

  lemma FoldZero(m: Sent, evals: seq<Fr>, rho: Fr, n: nat)
    requires Traces(m.polys, n) && |m.folds| == n - 1
    ensures FoldPoly(m, evals, rho, n, 0) == BatchedPoly(rho, m.polys, n)
  {
  }

  // ------------------------------------------------------- no gap, the multilinear value

  function Coef(a: Poly, i: nat): Fr {
    if i < |a| then a[i] else 0
  }

  ghost predicate Same(p: Prime, a: Poly, b: Poly) {
    forall i: nat :: Eq(p, Coef(a, i), Coef(b, i))
  }

  lemma {:induction false} PlusAt(a: Poly, b: Poly, i: nat)
    ensures Coef(Plus(a, b), i) == Coef(a, i) + Coef(b, i)
  {
    if a != [] && b != [] && i > 0 { PlusAt(a[1..], b[1..], i - 1); }
  }

  lemma NoDifference(p: Prime, a: Poly, b: Poly)
    requires ZeroPoly(p, Difference(a, b))
    ensures Same(p, a, b)
  {
    hide Eq;
    forall i: nat ensures Eq(p, Coef(a, i), Coef(b, i)) {
      PlusAt(a, Scale(-1, b), i);
      if i < |b| { ScaleAt(-1, b, i); }
      EqRefl(p, 0);
      assert Coef(Difference(a, b), i) == Coef(a, i) - Coef(b, i);
      EqDifference(p, Coef(a, i), Coef(b, i));
    }
  }

  lemma NextFoldAt(a: Poly, u: Fr, i: nat)
    ensures Coef(NextFold(a, u), i) == (1 - u) * Coef(a, 2 * i) + u * Coef(a, 2 * i + 1)
  {
    var b := Evened(a);
    if i < |b| / 2 {
      FoldAt(b, u, i);
    }
  }

  lemma SameNextFold(p: Prime, a: Poly, b: Poly, u: Fr)
    requires Same(p, a, b)
    ensures Same(p, NextFold(a, u), NextFold(b, u))
  {
    hide Eq, Coef, NextFold;
    forall i: nat ensures Eq(p, Coef(NextFold(a, u), i), Coef(NextFold(b, u), i)) {
      NextFoldAt(a, u, i);
      NextFoldAt(b, u, i);
      EqScale(p, 1 - u, Coef(a, 2 * i), Coef(b, 2 * i));
      EqScale(p, u, Coef(a, 2 * i + 1), Coef(b, 2 * i + 1));
      EqAdd(p, (1 - u) * Coef(a, 2 * i), (1 - u) * Coef(b, 2 * i), u * Coef(a, 2 * i + 1), u * Coef(b, 2 * i + 1));
    }
  }

  lemma SameTransitive(p: Prime, a: Poly, b: Poly, d: Poly)
    requires Same(p, a, b) && Same(p, b, d)
    ensures Same(p, a, d)
  {
    hide Eq, Coef;
    forall i: nat ensures Eq(p, Coef(a, i), Coef(d, i)) {
      EqTrans(p, Coef(a, i), Coef(b, i), Coef(d, i));
    }
  }

  lemma SameReflexive(p: Prime, a: Poly)
    ensures Same(p, a, a)
  {
    hide Eq, Coef;
    forall i: nat ensures Eq(p, Coef(a, i), Coef(a, i)) { EqRefl(p, Coef(a, i)); }
  }

  ghost predicate NoGaps(p: Prime, m: Sent, evals: seq<Fr>, rho: Fr, us: seq<Fr>, n: nat)
    requires Traces(m.polys, n) && |m.folds| == n - 1 && n == |us|
  {
    forall j :: 0 <= j < n ==> ZeroPoly(p, Gap(m, evals, rho, us, n, j))
  }

  lemma NoGapIsFold(p: Prime, m: Sent, evals: seq<Fr>, rho: Fr, us: seq<Fr>, n: nat, j: nat)
    requires Traces(m.polys, n) && |m.folds| == n - 1 && j < n == |us| && ZeroPoly(p, Gap(m, evals, rho, us, n, j))
    ensures Same(p, FoldPoly(m, evals, rho, n, j + 1), NextFold(FoldPoly(m, evals, rho, n, j), us[j]))
  {
    hide Eq, FoldPoly, NextFold, Difference, LostConstant;
    var a, b := FoldPoly(m, evals, rho, n, j + 1), NextFold(FoldPoly(m, evals, rho, n, j), us[j]);
    var gap := Gap(m, evals, rho, us, n, j);
    if j == 0 {
      assert forall i :: 0 <= i < |Difference(a, b)| ==> Difference(a, b)[i] == gap[i + 1];
    }
    NoDifference(p, a, b);
  }

  /** Without gaps every fold is the honest one, the constant at the end included. */
  lemma {:induction false} FoldsAreHonest(p: Prime, m: Sent, evals: seq<Fr>, rho: Fr, us: seq<Fr>, n: nat, j: nat)
    requires Traces(m.polys, n) && |m.folds| == n - 1 && j <= n == |us| && n > 0 && NoGaps(p, m, evals, rho, us, n)
    ensures Same(p, FoldPoly(m, evals, rho, n, j), FoldedAt(BatchedPoly(rho, m.polys, n), us, j))
  {
    hide Eq, Same, Gap, ZeroPoly, NextFold, BatchedPoly;
    var a0 := BatchedPoly(rho, m.polys, n);
    if j == 0 {
      SameReflexive(p, a0);
    } else {
      FoldsAreHonest(p, m, evals, rho, us, n, j - 1);
      NoGapIsFold(p, m, evals, rho, us, n, j - 1);
      SameNextFold(p, FoldPoly(m, evals, rho, n, j - 1), FoldedAt(a0, us, j - 1), us[j - 1]);
      HonestNextFold(a0, us, j - 1);
      SameTransitive(p, FoldPoly(m, evals, rho, n, j), NextFold(FoldPoly(m, evals, rho, n, j - 1), us[j - 1]),
                     NextFold(FoldedAt(a0, us, j - 1), us[j - 1]));
    }
  }

  lemma HonestNextFold(a: Poly, us: seq<Fr>, j: nat)
    requires j < |us| && |a| == Pow2(|us|)
    ensures NextFold(FoldedAt(a, us, j), us[j]) == FoldedAt(a, us, j + 1)
  {
    assert |FoldedAt(a, us, j)| == 2 * Pow2(|us| - j - 1);
  }

  /** Then the batched evaluation is the multilinear evaluation of the batched columns. */
  lemma BatchedValueIsTrue(p: Prime, m: Sent, evals: seq<Fr>, rho: Fr, us: seq<Fr>, n: nat)
    requires Traces(m.polys, n) && |m.folds| == n - 1 && n == |us| && NoGaps(p, m, evals, rho, us, n)
    ensures Eq(p, Eval(evals, rho), Multilinear(BatchedPoly(rho, m.polys, n), us))
  {
    hide Eq, NoGaps, BatchedPoly, Multilinear;
    var a0 := BatchedPoly(rho, m.polys, n);
    FoldsAreHonest(p, m, evals, rho, us, n, n);
    LastFold(a0, us, 0);
    var last := FoldedAt(a0, us, n);
    assert Eval(last, 0) == last[0];
    assert Eq(p, Coef([Eval(evals, rho)], 0), Coef(last, 0));
  }

  // ------------------------------------------------------------------- the batch itself

  /** What evaluation `i` should be: entity `i` at the challenges, or its wire shifted by one row. */
  function TrueValue(polys: seq<Poly>, us: seq<Fr>, n: nat, i: nat): Fr
    requires Traces(polys, n) && i < ENTITIES
  {
    if i < UNSHIFTED then Multilinear(polys[i], us) else Multilinear(ShiftDown(polys[i - UNSHIFTED + FIRST_SHIFTABLE]), us)
  }

  /** The errors of the claimed evaluations: fixed before they are batched. */
  function Errors(polys: seq<Poly>, evals: seq<Fr>, us: seq<Fr>, n: nat): (e: Poly)
    requires Traces(polys, n) && |evals| == ENTITIES
    ensures |e| == ENTITIES
  {
    seq(ENTITIES, i requires 0 <= i < ENTITIES => evals[i] - TrueValue(polys, us, n, i))
  }

  function TrueValues(polys: seq<Poly>, us: seq<Fr>, n: nat): (e: Poly)
    requires Traces(polys, n)
    ensures |e| == ENTITIES
  {
    seq(ENTITIES, i requires 0 <= i < ENTITIES => TrueValue(polys, us, n, i))
  }

  lemma {:induction false} EvalMinus(a: Poly, b: Poly, d: Poly, x: Fr)
    requires |a| == |b| == |d| && forall i :: 0 <= i < |a| ==> d[i] == a[i] - b[i]
    ensures Eval(d, x) == Eval(a, x) - Eval(b, x)
  {
    if a != [] {
      EvalMinus(a[1..], b[1..], d[1..], x);
      Distributes(x, Eval(a[1..], x), Eval(b[1..], x));
    }
  }

  lemma ErrorsVanish(p: Prime, m: Sent, o: Opening, c: Challenges, n: nat)
    requires WellSized(o, c, n) && Traces(m.polys, n)
    requires Eq(p, Eval(o.evals, c.rho), Multilinear(BatchedPoly(c.rho, m.polys, n), c.us))
    ensures Eq(p, Eval(Errors(m.polys, o.evals, c.us, n), c.rho), 0)
  {
    hide Eq, Eval, Multilinear, BatchedPoly, TrueValue;
    var t := TrueValues(m.polys, c.us, n);
    TruthIsHonest(p, m, o, c, n);
    BatchedEvaluation(p, m.polys, o.(evals := t), c, n);
    EvalMinus(o.evals, t, Errors(m.polys, o.evals, c.us, n), c.rho);
    EqSub(p, Eval(o.evals, c.rho), Multilinear(BatchedPoly(c.rho, m.polys, n), c.us),
          Eval(t, c.rho), Multilinear(BatchedPoly(c.rho, m.polys, n), c.us));
  }

  lemma TruthIsHonest(p: Prime, m: Sent, o: Opening, c: Challenges, n: nat)
    requires WellSized(o, c, n) && Traces(m.polys, n)
    ensures HonestEvaluations(p, m.polys, o.(evals := TrueValues(m.polys, c.us, n)), c, n)
  {
    hide Eq, Multilinear, ShiftDown;
    forall i | 0 <= i < ENTITIES ensures Eq(p, TrueValue(m.polys, c.us, n, i), TrueValue(m.polys, c.us, n, i)) {
      EqRefl(p, TrueValue(m.polys, c.us, n, i));
    }
  }

  lemma NoErrors(p: Prime, m: Sent, o: Opening, c: Challenges, n: nat)
    requires WellSized(o, c, n) && Traces(m.polys, n) && ZeroPoly(p, Errors(m.polys, o.evals, c.us, n))
    ensures HonestEvaluations(p, m.polys, o, c, n)
  {
    hide Eq, Multilinear, ShiftDown;
    forall i | 0 <= i < ENTITIES ensures Eq(p, o.evals[i], TrueValue(m.polys, c.us, n, i)) {
      assert Eq(p, Errors(m.polys, o.evals, c.us, n)[i], 0);
      EqDifference(p, o.evals[i], TrueValue(m.polys, c.us, n, i));
    }
  }

  // --------------------------------------------------------------------- luck and result

  /** `c(X^2)` */
  function Spread(c: Poly): (r: Poly)
    ensures |r| == 2 * |c|
  {
    if c == [] then [] else [c[0], 0] + Spread(c[1..])
  }

  /** `c(X^(2^k))`: a polynomial in the challenge r itself. */
  function SpreadOut(c: Poly, k: nat): (r: Poly)
    ensures |r| == Pow2(k) * |c|
  {
    if k == 0 then c else
      Assoc(2, Pow2(k - 1), |c|);
      Spread(SpreadOut(c, k - 1))
  }

  lemma {:induction false} EvalSpread(c: Poly, x: Fr)
    ensures Eval(Spread(c), x) == Eval(c, x * x)
  {
    if c != [] {
      EvalSpread(c[1..], x);
      var s := Spread(c);
      assert s[2..] == Spread(c[1..]);
      EvalTwo(s, x);
      assert x * 0 == 0;
    }
  }

  lemma {:induction false} EvalSpreadOut(c: Poly, k: nat, x: Fr)
    ensures Eval(SpreadOut(c, k), x) == Eval(c, Power(x, Pow2(k)))
  {
    hide Eval, Spread, Power;
    if k == 0 {
      FirstPower(x);
    } else {
      EvalSpread(SpreadOut(c, k - 1), x);
      EvalSpreadOut(c, k - 1, x * x);
      PowerSquare(x, Pow2(k - 1));
    }
  }

  lemma {:induction false} ZeroSpread(p: Prime, c: Poly)
    requires ZeroPoly(p, Spread(c))
    ensures ZeroPoly(p, c)
  {
    hide Eq;
    if c != [] {
      var s := Spread(c);
      assert s[2..] == Spread(c[1..]) && s[0] == c[0];
      ZeroSpread(p, c[1..]);
      assert forall i :: 0 < i < |c| ==> c[i] == c[1..][i - 1];
    }
  }

  lemma {:induction false} ZeroSpreadOut(p: Prime, c: Poly, k: nat)
    requires ZeroPoly(p, SpreadOut(c, k))
    ensures ZeroPoly(p, c)
  {
    hide Eq, Spread, ZeroPoly;
    if k > 0 {
      ZeroSpread(p, SpreadOut(c, k - 1));
      ZeroSpreadOut(p, c, k - 1);
    }
  }

  /** The Gemini point was a root of one of the gaps. */
  ghost predicate LuckyPoint(p: Prime, m: Sent, evals: seq<Fr>, rho: Fr, us: seq<Fr>, n: nat, r: Fr)
    requires Traces(m.polys, n) && |m.folds| == n - 1 && n == |us|
  {
    exists j :: 0 <= j < n && Lucky(p, SpreadOut(Gap(m, evals, rho, us, n, j), j + 1), r)
  }

  lemma NoGapLeft(p: Prime, m: Sent, o: Opening, c: Challenges, denoms: seq<Fr>, inv: seq<Fr>, n: nat)
    requires p > 2 && WellSized(o, c, n) && Traces(m.polys, n) && |m.folds| == n - 1
    requires IsDenominators(c, n, denoms) && Inverses(p, denoms, inv) && |inv| == 3 * n + 1
    requires ClaimsHold(p, m, o, c, inv, n) && !LuckyPoint(p, m, o.evals, c.rho, c.us, n, c.r)
    ensures NoGaps(p, m, o.evals, c.rho, c.us, n)
  {
    hide Eq, Eval, ClaimsHold, Gap, IsDenominators, Inverses, Traces, SpreadOut, ZeroPoly, Pow2;
    forall j | 0 <= j < n ensures ZeroPoly(p, Gap(m, o.evals, c.rho, c.us, n, j)) {
      if j == 0 { FirstGapVanishes(p, m, o, c, denoms, inv, n); } else { GapVanishes(p, m, o, c, denoms, inv, n, j); }
      var gap := Gap(m, o.evals, c.rho, c.us, n, j);
      EvalSpreadOut(gap, j + 1, c.r);
      PointIs(c, j + 1);
      assert !Lucky(p, SpreadOut(gap, j + 1), c.r);
      ZeroSpreadOut(p, gap, j + 1);
    }
  }

  lemma PointIs(c: Challenges, j: nat)
    ensures GeminiPoint(c, j) == Power(c.r, Pow2(j))
  {
  }

  lemma AllClaims(p: Prime, m: Sent, o: Opening, c: Challenges, inv: seq<Fr>, n: nat)
    requires WellSized(o, c, n) && |inv| == 3 * n + 1 && Traces(m.polys, n) && |m.folds| == n - 1
    requires forall i :: 0 <= i < 2 * n ==> Holds(p, ClaimsOf(m, o, c, inv, n, n)[i])
    ensures ClaimsHold(p, m, o, c, inv, n)
  {
    hide Holds, ClaimsOf, PosClaim, NegClaim, Traces;
    forall j | 0 <= j < n ensures Holds(p, PosClaim(m, o, c, inv, n, j)) && Holds(p, NegClaim(m, o, c, inv, n, j)) {
      ClaimAt(m, o, c, inv, n, n, j);
    }
  }

  // ------------------------------------------------------------------ different points

  lemma {:induction false} SpreadAt(c: Poly, i: nat)
    ensures Coef(Spread(c), i) == if i % 2 == 0 then Coef(c, i / 2) else 0
  {
    if c != [] && i >= 2 {
      SpreadAt(c[1..], i - 2);
      assert Spread(c)[2..] == Spread(c[1..]);
      assert (i - 2) % 2 == i % 2 && (i - 2) / 2 == i / 2 - 1;
    }
  }

  lemma {:induction false} MonomialAt(k: nat, i: nat)
    ensures Coef(SpreadOut([0, 1], k), i) == if i == Pow2(k) then 1 else 0
  {
    if k > 0 {
      SpreadAt(SpreadOut([0, 1], k - 1), i);
      MonomialAt(k - 1, i / 2);
    }
  }

  lemma {:induction false} Pow2Grows(i: nat, j: nat)
    requires i < j
    ensures Pow2(i) < Pow2(j)
  {
    if i < j - 1 { Pow2Grows(i, j - 1); }
  }

  /** `X^(2^j) - sign * X^(2^i)` */
  function Binomial(i: nat, j: nat, sign: int): Poly {
    Difference(SpreadOut([0, 1], j), Scale(sign, SpreadOut([0, 1], i)))
  }

  lemma BinomialNonzero(p: Prime, i: nat, j: nat, sign: int)
    requires i < j
    ensures !ZeroPoly(p, Binomial(i, j, sign))
  {
    hide Eq, SpreadOut;
    if ZeroPoly(p, Binomial(i, j, sign)) {
      var b := Scale(sign, SpreadOut([0, 1], i));
      NoDifference(p, SpreadOut([0, 1], j), b);
      MonomialAt(j, Pow2(j));
      MonomialAt(i, Pow2(j));
      Pow2Grows(i, j);
      if Pow2(j) < |b| { ScaleAt(sign, SpreadOut([0, 1], i), Pow2(j)); }
      assert Eq(p, Coef(SpreadOut([0, 1], j), Pow2(j)), Coef(b, Pow2(j)));
      SmallDistinct(p, 1, 0);
    }
  }

  /** The point r makes two of the opened points coincide. */
  ghost predicate LuckyCollision(p: Prime, n: nat, r: Fr) {
    exists i: nat, j: nat :: i < j < n && (Lucky(p, Binomial(i, j, 1), r) || Lucky(p, Binomial(i, j, -1), r))
  }

  lemma EvalBinomial(c: Challenges, i: nat, j: nat, sign: int)
    ensures Eval(Binomial(i, j, sign), c.r) == GeminiPoint(c, j) - sign * GeminiPoint(c, i)
  {
    hide Eval, SpreadOut, Power;
    EvalDifference(SpreadOut([0, 1], j), Scale(sign, SpreadOut([0, 1], i)), c.r);
    EvalScale(sign, SpreadOut([0, 1], i), c.r);
    EvalSpreadOut([0, 1], j, c.r);
    EvalSpreadOut([0, 1], i, c.r);
    EvalX(GeminiPoint(c, i));
    EvalX(GeminiPoint(c, j));
  }

  lemma EvalX(x: Fr)
    ensures Eval([0, 1], x) == x
  {
    var c: Poly := [0, 1];
    ConstantPoly(1, x);
    assert c[1..] == [1];
  }

  lemma NoCollision(p: Prime, c: Challenges, n: nat, i: nat, j: nat)
    requires !LuckyCollision(p, n, c.r) && i < j < n
    ensures !Eq(p, GeminiPoint(c, j), GeminiPoint(c, i)) && !Eq(p, GeminiPoint(c, j), 0 - GeminiPoint(c, i))
  {
    hide Eq, GeminiPoint, Binomial, ZeroPoly, Eval;
    BinomialNonzero(p, i, j, 1);
    BinomialNonzero(p, i, j, -1);
    EvalBinomial(c, i, j, 1);
    EvalBinomial(c, i, j, -1);
    EqDifference(p, GeminiPoint(c, j), GeminiPoint(c, i));
    EqDifference(p, GeminiPoint(c, j), 0 - GeminiPoint(c, i));
    assert !Lucky(p, Binomial(i, j, 1), c.r) && !Lucky(p, Binomial(i, j, -1), c.r);
  }

  /** The point at place `i` of the flat list. */
  function PointAt(c: Challenges, i: nat): Fr {
    if i % 2 == 0 then GeminiPoint(c, i / 2) else 0 - GeminiPoint(c, i / 2)
  }

  lemma TwoPointsDiffer(p: Prime, c: Challenges, n: nat, a: nat, b: nat)
    requires p > 2 && !LuckyCollision(p, n, c.r) && !Eq(p, c.r, 0) && a < b < 2 * n
    ensures !Eq(p, PointAt(c, a), PointAt(c, b))
  {
    hide Eq, GeminiPoint, LuckyCollision;
    var i, j := a / 2, b / 2;
    var x, y := GeminiPoint(c, i), GeminiPoint(c, j);
    if Eq(p, PointAt(c, a), PointAt(c, b)) {
      EqSym(p, PointAt(c, a), PointAt(c, b));
      EqScale(p, -1, PointAt(c, b), PointAt(c, a));
      if i < j {
        NoCollision(p, c, n, i, j);
        assert false;
      } else {
        PointNonzero(p, c, i);
        assert a == 2 * i && b == 2 * i + 1;
        Opposite(p, x);
        assert false;
      }
    }
  }

  lemma Opposite(p: Prime, x: Fr)
    requires p > 2 && Eq(p, x, 0 - x)
    ensures Eq(p, x, 0)
  {
    hide Eq;
    EqRefl(p, x);
    EqAdd(p, x, 0 - x, x, x);
    SmallDistinct(p, 2, 0);
    NoZeroDivisors(p, 2, x);
  }

  lemma PointsDiffer(p: Prime, m: Sent, o: Opening, c: Challenges, inv: seq<Fr>, n: nat)
    requires WellSized(o, c, n) && |inv| == 3 * n + 1 && Traces(m.polys, n) && |m.folds| == n - 1
    requires p > 2 && !LuckyCollision(p, n, c.r) && !Eq(p, c.r, 0)
    ensures Distinct(p, Points(ClaimsOf(m, o, c, inv, n, n)))
  {
    hide Eq, GeminiPoint, LuckyCollision, ClaimsOf, Traces, FoldValue, OpenedPoly;
    var xs := Points(ClaimsOf(m, o, c, inv, n, n));
    forall i | 0 <= i < 2 * n ensures xs[i] == PointAt(c, i) {
      ClaimAt(m, o, c, inv, n, n, i / 2);
      assert i == 2 * (i / 2) || i == 2 * (i / 2) + 1;
    }
    forall a, b | 0 <= a < b < |xs| ensures !Eq(p, xs[a], xs[b]) {
      TwoPointsDiffer(p, c, n, a, b);
    }
  }

  // -------------------------------------------------------------------------- soundness

  /** One of the challenges was a root of a nonzero polynomial that does not depend on it. */
  ghost predicate LuckyProof(p: Prime, m: Sent, o: Opening, c: Challenges, inv: seq<Fr>, n: nat, tau: Fr)
    requires WellSized(o, c, n) && |inv| == 3 * n + 1 && Traces(m.polys, n) && |m.folds| == n - 1
  {
    || Lucky(p, Errors(m.polys, o.evals, c.us, n), c.rho)
    || LuckyPoint(p, m, o.evals, c.rho, c.us, n, c.r)
    || LuckyCollision(p, n, c.r)
    || LuckyOpening(p, m.q, m.w, ClaimsOf(m, o, c, inv, n, n), c.nu, c.z, WeightsOf(c, inv, n, n), tau)
  }

  /**
   Soundness for any number of rounds: if the opening equation holds, every claimed evaluation is that of
   the committed column, or one of the challenges rho, r, nu, z and tau was lucky.
   */
  lemma OpeningIsSound(p: Prime, m: Sent, o: Opening, c: Challenges, denoms: seq<Fr>, inv: seq<Fr>, n: nat, tau: Fr)
    requires p > 2 && WellSized(o, c, n) && Committed(p, m, o, c, n, tau)
    requires IsDenominators(c, n, denoms) && Inverses(p, denoms, inv) && |inv| == 3 * n + 1
    requires Eq(p, OpeningEquation(o, c, inv, n, tau), 0)
    ensures HonestEvaluations(p, m.polys, o, c, n) || LuckyProof(p, m, o, c, inv, n, tau)
  {
    hide Eq, Eval, OpeningEquation, IsDenominators, Inverses, LuckyOpening, LuckyPoint, LuckyCollision, HonestEvaluations,
         ClaimsOf, WeightsOf, Errors, NoGaps, Points, Holds, ClaimsHold, Multilinear, BatchedPoly;
    var cs, ws := ClaimsOf(m, o, c, inv, n, n), WeightsOf(c, inv, n, n);
    if !LuckyProof(p, m, o, c, inv, n, tau) {
      RNonzero(p, c, denoms, inv, n);
      PointsDiffer(p, m, o, c, inv, n);
      WeightsFit(p, m, o, c, denoms, inv, n);
      EquationByPolynomials(p, m, o, c, inv, n, tau);
      BatchIsSound(p, m.q, m.w, cs, c.nu, c.z, ws, tau);
      AllClaims(p, m, o, c, inv, n);
      NoGapLeft(p, m, o, c, denoms, inv, n);
      BatchedValueIsTrue(p, m, o.evals, c.rho, c.us, n);
      ErrorsVanish(p, m, o, c, n);
      NoErrors(p, m, o, c, n);
    }
  }

  /** The verifier itself: what it accepts is true of the committed columns, unless a challenge was lucky. */
  method VerifyAnyOpening(p: Prime, o: Opening, c: Challenges, logN: nat, n: nat, tau: Fr, ghost m: Sent)
    returns (r: Result<()>, ghost inv: seq<Fr>)
    requires p > 2 && WellSized(o, c, n) && Committed(p, m, o, c, n, tau)
    ensures r.Ok? ==>
              && logN == n && |inv| == 3 * n + 1
              && (HonestEvaluations(p, m.polys, o, c, n) || LuckyProof(p, m, o, c, inv, n, tau))
  {
    hide Eq, OpeningEquation, HonestEvaluations, LuckyProof, Committed, IsDenominators;
    ghost var denoms;
    r, denoms, inv := VerifyShplemini(p, o, c, logN, n, tau);
    if r.Ok? {
      InverseCount(p, c, denoms, inv, n);
      OpeningIsSound(p, m, o, c, denoms, inv, n, tau);
    }
  }
}
