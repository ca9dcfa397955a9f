/**
 The batch-opening verifier. A group element is represented by its discrete logarithm, so that a
 commitment to a polynomial is the polynomial's value at the secret point `tau` of the setup, the
 multi-scalar multiplication is a dot product, and the pairing check a linear equation.
 */
module Shplemini {
  import opened Field
  import opened Polynomial
  import opened Sumcheck
  import opened GateSeparator

  const ENTITIES := 41
  const UNSHIFTED := 36
  /** The five wires that are also opened shifted: 28 to 32, their shifts being 36 to 40. */
  const FIRST_SHIFTABLE := 28
  const SHIFTABLE := 5

  datatype Opening = Opening(
    evals: seq<Fr>,       // claimed multilinear evaluations, shifted ones last
    comms: seq<Fr>,       // commitments to the unshifted entities
    foldComms: seq<Fr>,   // commitments to the Gemini folds
    aEvals: seq<Fr>,      // fold evaluations at the negated points
    q: Fr,                // Shplonk quotient commitment
    w: Fr)                // KZG quotient commitment

  datatype Challenges = Challenges(us: seq<Fr>, rho: Fr, r: Fr, nu: Fr, z: Fr)

  predicate WellSized(o: Opening, c: Challenges, n: nat) {
    && n > 0 && |o.evals| == ENTITIES && |o.comms| == UNSHIFTED
    && |o.foldComms| == n - 1 && |o.aEvals| == n && |c.us| == n
  }

  // ------------------------------------------------------------------ denominators

  /** The Gemini point of round `j`. */
  function GeminiPoint(c: Challenges, j: nat): Fr {
    Power(c.r, Pow2(j))
  }

  function FoldDenominator(c: Challenges, j: nat): Fr
    requires j < |c.us|
  {
    GeminiPoint(c, j) * (1 - c.us[j]) + c.us[j]
  }

  /** Where the inverses live in the flat batch. */
  function PosSlot(n: nat, j: nat): nat { if j == 0 then 0 else 3 + n + 2 * (j - 1) }
  function NegSlot(n: nat, j: nat): nat { if j == 0 then 1 else 3 + n + 2 * (j - 1) + 1 }
  function FoldSlot(n: nat, j: nat): nat requires j < n { 3 + (n - 1 - j) }
  const R_SLOT := 2

  /** `s` holds all the values whose inverses the verifier needs. */
  ghost predicate IsDenominators(c: Challenges, n: nat, s: seq<Fr>)
    requires |c.us| == n > 0
  {
    && |s| == 3 * n + 1
    && s[R_SLOT] == c.r
    && (forall j :: 0 <= j < n ==> s[FoldSlot(n, j)] == FoldDenominator(c, j))
    && (forall j :: 0 <= j < n ==> s[PosSlot(n, j)] == c.z - GeminiPoint(c, j))
    && (forall j :: 0 <= j < n ==> s[NegSlot(n, j)] == c.z + GeminiPoint(c, j))
  }

  ghost predicate Inverses(p: Prime, s: seq<Fr>, inv: seq<Fr>) {
    |inv| == |s| && forall i :: 0 <= i < |s| ==> Eq(p, s[i] * inv[i], 1)
  }

  method PowerTable(r: Fr, n: nat) returns (rPows: array<Fr>)
    requires n > 0
    ensures fresh(rPows) && rPows.Length == n
    ensures forall j :: 0 <= j < n ==> rPows[j] == Power(r, Pow2(j))
  {
    hide Power, Pow2;
    rPows := new Fr[n];
    rPows[0] := r;
    FirstPower(r);
    for i := 1 to n
      invariant forall j :: 0 <= j < i ==> rPows[j] == Power(r, Pow2(j))
    {
      SquareDoubles(r, i - 1);
      rPows[i] := rPows[i - 1] * rPows[i - 1];
    }
  }

  /** The fold-round denominators, last round first. */
  method FillFoldDenominators(c: Challenges, n: nat, rPows: seq<Fr>, toInvert: array<Fr>)
    requires |c.us| == n > 0 && toInvert.Length == 3 * n + 1
    requires |rPows| == n && forall j :: 0 <= j < n ==> rPows[j] == GeminiPoint(c, j)
    modifies toInvert
    ensures forall j :: 0 <= j < n ==> toInvert[FoldSlot(n, j)] == FoldDenominator(c, j)
    ensures forall i :: 0 <= i < 3 ==> toInvert[i] == old(toInvert[i])
  {
    hide GeminiPoint;
    var j := n;
    while j > 0
      invariant 0 <= j <= n
      invariant forall i :: 0 <= i < 3 ==> toInvert[i] == old(toInvert[i])
      invariant forall k :: j <= k < n ==> toInvert[FoldSlot(n, k)] == FoldDenominator(c, k)
    {
      var u := c.us[j - 1];
      toInvert[3 + (n - j)] := rPows[j - 1] * (1 - u) + u;
      j := j - 1;
    }
  }

  /** The opening denominators of rounds 1 and up, in pairs. */
  method FillOpeningDenominators(c: Challenges, n: nat, rPows: seq<Fr>, toInvert: array<Fr>)
    requires |rPows| == n > 0 && toInvert.Length == 3 * n + 1
    modifies toInvert
    ensures forall k :: 1 <= k < n ==> toInvert[PosSlot(n, k)] == c.z - rPows[k]
    ensures forall k :: 1 <= k < n ==> toInvert[NegSlot(n, k)] == c.z + rPows[k]
    ensures forall i :: 0 <= i < 3 + n ==> toInvert[i] == old(toInvert[i])
  {
    var base := 3 + n;
    for i := 1 to n
      invariant forall k :: 0 <= k < 3 + n ==> toInvert[k] == old(toInvert[k])
      invariant forall k :: 1 <= k < i ==> toInvert[PosSlot(n, k)] == c.z - rPows[k]
      invariant forall k :: 1 <= k < i ==> toInvert[NegSlot(n, k)] == c.z + rPows[k]
    {
      toInvert[base + 2 * (i - 1)] := c.z - rPows[i];
      toInvert[base + 2 * (i - 1) + 1] := c.z + rPows[i];
    }
  }

  method CollectDenominators(c: Challenges, n: nat, rPows: seq<Fr>) returns (toInvert: array<Fr>)
    requires |c.us| == n > 0
    requires |rPows| == n && forall j :: 0 <= j < n ==> rPows[j] == GeminiPoint(c, j)
    ensures fresh(toInvert) && IsDenominators(c, n, toInvert[..])
  {
    hide GeminiPoint, FoldDenominator;
    toInvert := new Fr[3 * n + 1];
    toInvert[0] := c.z - rPows[0];
    toInvert[1] := c.z + rPows[0];
    toInvert[2] := c.r;
    FillFoldDenominators(c, n, rPows, toInvert);
    FillOpeningDenominators(c, n, rPows, toInvert);
  }

  // ------------------------------------------------------------- evaluation scalars

  function IsShiftable(i: int): bool {
    FIRST_SHIFTABLE <= i < FIRST_SHIFTABLE + SHIFTABLE
  }

  /** The scalar of unshifted commitment `i` after its shifted twin has been merged into it. */
  function MergedScalar(c: Challenges, unshifted: Fr, shifted: Fr, i: nat): Fr {
    (0 - unshifted) * Power(c.rho, i)
    + if IsShiftable(i) then (0 - shifted) * Power(c.rho, i + 8) else 0
  }

  method EvaluationScalars(o: Opening, c: Challenges, n: nat, unshifted: Fr, shifted: Fr)
    returns (scalars: array<Fr>, evalAcc: Fr)
    requires WellSized(o, c, n)
    ensures fresh(scalars) && scalars.Length == ENTITIES
    ensures forall i :: 0 <= i < UNSHIFTED ==> scalars[i] == MergedScalar(c, unshifted, shifted, i)
    ensures evalAcc == Eval(o.evals, c.rho)
  {
    scalars := new Fr[ENTITIES];
    var rhoPow := 1;
    evalAcc := 0;
    for i := 0 to ENTITIES
      invariant rhoPow == Power(c.rho, i)
      invariant evalAcc == Eval(o.evals[..i], c.rho)
      invariant forall k :: 0 <= k < i ==>
                  scalars[k] == (if k < UNSHIFTED then 0 - unshifted else 0 - shifted) * Power(c.rho, k)
    {
      scalars[i] := (if i < UNSHIFTED then 0 - unshifted else 0 - shifted) * rhoPow;
      EvalGrows(o.evals, i, c.rho);
      evalAcc := evalAcc + o.evals[i] * rhoPow;
      PowerGrows(c.rho, i);
      rhoPow := rhoPow * c.rho;
    }
    assert o.evals[..ENTITIES] == o.evals;
    for k := 0 to SHIFTABLE
      invariant forall i :: UNSHIFTED <= i < ENTITIES ==> scalars[i] == (0 - shifted) * Power(c.rho, i)
      invariant forall i :: 0 <= i < UNSHIFTED ==>
                  scalars[i] == if i < FIRST_SHIFTABLE + k then MergedScalar(c, unshifted, shifted, i)
                                else (0 - unshifted) * Power(c.rho, i)
    {
      scalars[FIRST_SHIFTABLE + k] := scalars[FIRST_SHIFTABLE + k] + scalars[UNSHIFTED + k];
    }
  }

  lemma PowerGrows(x: Fr, i: nat)
    ensures Power(x, i) * x == Power(x, i + 1)
  {
  }

  lemma {:induction false} EvalGrows(c: Poly, i: nat, x: Fr)
    requires i < |c|
    ensures Eval(c[..i + 1], x) == Eval(c[..i], x) + c[i] * Power(x, i)
  {
    if i == 0 {
      assert c[..1][1..] == [] && c[..1][0] == c[0];
      assert Eval([], x) == 0;
    } else {
      EvalGrows(c[1..], i - 1, x);
      assert c[..i + 1][1..] == c[1..][..i] && c[..i][1..] == c[1..][..i - 1];
      Distributes(x, Eval(c[1..][..i - 1], x), c[i] * Power(x, i - 1));
      Swap(x, c[i], Power(x, i - 1));
    }
  }

  // ----------------------------------------------------------------- fold evaluations

  /** The reconstructed value of fold `j` at its positive point; at `n`, the batched evaluation. */
  function FoldValue(o: Opening, c: Challenges, inv: seq<Fr>, n: nat, j: nat): Fr
    requires WellSized(o, c, n) && |inv| == 3 * n + 1 && j <= n
    decreases n - j
  {
    if j == n then Eval(o.evals, c.rho)
    else
      var r2, u := GeminiPoint(c, j), c.us[j];
      (r2 * FoldValue(o, c, inv, n, j + 1) * 2 - o.aEvals[j] * (r2 * (1 - u) - u)) * inv[FoldSlot(n, j)]
  }

  lemma FoldValueTop(o: Opening, c: Challenges, inv: seq<Fr>, n: nat)
    requires WellSized(o, c, n) && |inv| == 3 * n + 1
    ensures FoldValue(o, c, inv, n, n) == Eval(o.evals, c.rho)
  {
  }

  lemma FoldValueStep(o: Opening, c: Challenges, inv: seq<Fr>, n: nat, j: nat)
    requires WellSized(o, c, n) && |inv| == 3 * n + 1 && j < n
    ensures FoldValue(o, c, inv, n, j)
         == (GeminiPoint(c, j) * FoldValue(o, c, inv, n, j + 1) * 2
             - o.aEvals[j] * (GeminiPoint(c, j) * (1 - c.us[j]) - c.us[j])) * inv[3 + (n - (j + 1))]
  {
  }

  method ReconstructFolds(o: Opening, c: Challenges, n: nat, rPows: seq<Fr>, inv: seq<Fr>, evalAcc: Fr)
    returns (foldPos: array<Fr>)
    requires WellSized(o, c, n) && |inv| == 3 * n + 1
    requires |rPows| == n && forall j :: 0 <= j < n ==> rPows[j] == GeminiPoint(c, j)
    requires evalAcc == Eval(o.evals, c.rho)
    ensures fresh(foldPos) && foldPos.Length == n
    ensures forall j :: 0 <= j < n ==> foldPos[j] == FoldValue(o, c, inv, n, j)
  {
    hide GeminiPoint, Eval, FoldValue;
    foldPos := new Fr[n];
    var cur := evalAcc;
    assert cur == FoldValue(o, c, inv, n, n) by { FoldValueTop(o, c, inv, n); }
    var j := n;
    while j > 0
      invariant 0 <= j <= n
      invariant cur == FoldValue(o, c, inv, n, j)
      invariant forall k :: j <= k < n ==> foldPos[k] == FoldValue(o, c, inv, n, k)
    {
      var r2, u := rPows[j - 1], c.us[j - 1];
      var foldLin := r2 * (1 - u) - u;
      var num := r2 * cur * 2 - o.aEvals[j - 1] * foldLin;
      FoldValueStep(o, c, inv, n, j - 1);
      cur := num * inv[3 + (n - j)];
      foldPos[j - 1] := cur;
      j := j - 1;
    }
  }

  // ---------------------------------------------------------------- the opening claims

  /** `sum rho^i * comm_i` over the first `k` unshifted commitments. */
  function BatchUnshifted(c: Challenges, comms: seq<Fr>, k: nat): Fr
    requires k <= |comms|
  {
    if k == 0 then 0 else BatchUnshifted(c, comms, k - 1) + Power(c.rho, k - 1) * comms[k - 1]
  }

  /** The same over the commitments that are opened shifted, with their own powers of rho. */
  function BatchShiftable(c: Challenges, comms: seq<Fr>, k: nat): Fr
    requires k <= |comms|
  {
    if k == 0 then 0
    else BatchShiftable(c, comms, k - 1)
         + if IsShiftable(k - 1) then Power(c.rho, k - 1 + 8) * comms[k - 1] else 0
  }

  /** The commitment opened at the positive (`sign` 1) or negative (`sign` -1) point of round `j`. */
  function ClaimCommitment(o: Opening, c: Challenges, rInv: Fr, j: nat, sign: int): Fr
    requires j <= |o.foldComms|
  {
    if j == 0 then BatchUnshifted(c, o.comms, |o.comms|) + sign * (rInv * BatchShiftable(c, o.comms, |o.comms|))
    else o.foldComms[j - 1]
  }

  /** The two claims of round `j`: (commitment - value) / (z - point), weighted by powers of nu. */
  function RoundClaims(o: Opening, c: Challenges, inv: seq<Fr>, n: nat, j: nat): Fr
    requires WellSized(o, c, n) && |inv| == 3 * n + 1 && j < n
  {
    Power(c.nu, 2 * j) * inv[PosSlot(n, j)]
      * (ClaimCommitment(o, c, inv[R_SLOT], j, 1) - FoldValue(o, c, inv, n, j))
    + Power(c.nu, 2 * j) * c.nu * inv[NegSlot(n, j)]
      * (ClaimCommitment(o, c, inv[R_SLOT], j, -1) - o.aEvals[j])
  }

  function ClaimSum(o: Opening, c: Challenges, inv: seq<Fr>, n: nat, k: nat): Fr
    requires WellSized(o, c, n) && |inv| == 3 * n + 1 && k <= n
  {
    if k == 0 then 0 else ClaimSum(o, c, inv, n, k - 1) + RoundClaims(o, c, inv, n, k - 1)
  }

  /**
   The Shplonk equation in its plain form: the quotient, minus every weighted claim, opens to zero
   at `z` with the KZG quotient `w`.
   */
  function OpeningEquation(o: Opening, c: Challenges, inv: seq<Fr>, n: nat, tau: Fr): Fr
    requires WellSized(o, c, n) && |inv| == 3 * n + 1
  {
    o.q - ClaimSum(o, c, inv, n, n) + c.z * o.w - tau * o.w
  }

  // --------------------------------------------------------------- merged scalars

  function Dot(a: seq<Fr>, b: seq<Fr>): Fr
    requires |a| == |b|
  {
    if a == [] then 0 else Dot(a[..|a| - 1], b[..|b| - 1]) + a[|a| - 1] * b[|b| - 1]
  }

  /** The generator's scalar after `k` rounds. */
  function ConstantTerm(o: Opening, c: Challenges, inv: seq<Fr>, n: nat, k: nat): Fr
    requires WellSized(o, c, n) && |inv| == 3 * n + 1 && k <= n
  {
    if k == 0 then 0
    else ConstantTerm(o, c, inv, n, k - 1)
         + FoldValue(o, c, inv, n, k - 1) * (Power(c.nu, 2 * (k - 1)) * inv[PosSlot(n, k - 1)])
         + o.aEvals[k - 1] * (Power(c.nu, 2 * (k - 1)) * c.nu * inv[NegSlot(n, k - 1)])
  }

  /** The scalar of the commitment to fold `j`. */
  function FoldScalar(c: Challenges, inv: seq<Fr>, n: nat, j: nat): Fr
    requires 0 < j < n && |inv| == 3 * n + 1
  {
    0 - (Power(c.nu, 2 * j) * inv[PosSlot(n, j)] + Power(c.nu, 2 * j) * c.nu * inv[NegSlot(n, j)])
  }

  function UnshiftedWeight(c: Challenges, inv: seq<Fr>): Fr
    requires |inv| >= 3
  {
    c.nu * inv[1] + inv[0]
  }

  function ShiftedWeight(c: Challenges, inv: seq<Fr>): Fr
    requires |inv| >= 3
  {
    inv[R_SLOT] * (inv[0] - c.nu * inv[1])
  }

  /** The scalars and points handed to the multi-scalar multiplication. */
  ghost predicate IsMsmInput(o: Opening, c: Challenges, inv: seq<Fr>, n: nat, scalars: seq<Fr>, coms: seq<Fr>)
    requires WellSized(o, c, n) && |inv| == 3 * n + 1
  {
    && |scalars| == |coms| == UNSHIFTED + n + 2
    && scalars[0] == 1 && coms[0] == o.q
    && (forall i :: 1 <= i <= UNSHIFTED ==>
          && scalars[i] == MergedScalar(c, UnshiftedWeight(c, inv), ShiftedWeight(c, inv), i - 1)
          && coms[i] == o.comms[i - 1])
    && (forall i :: UNSHIFTED < i < UNSHIFTED + n ==>
          && scalars[i] == FoldScalar(c, inv, n, i - UNSHIFTED)
          && coms[i] == o.foldComms[i - UNSHIFTED - 1])
    && scalars[UNSHIFTED + n] == ConstantTerm(o, c, inv, n, n) && coms[UNSHIFTED + n] == 1
    && scalars[UNSHIFTED + n + 1] == c.z && coms[UNSHIFTED + n + 1] == o.w
  }

  // ------------------------------------------------- merged form equals the plain form

  lemma DotStep(a: seq<Fr>, b: seq<Fr>, i: nat)
    requires i < |a| == |b|
    ensures Dot(a[..i + 1], b[..i + 1]) == Dot(a[..i], b[..i]) + a[i] * b[i]
  {
    assert a[..i + 1][..i] == a[..i] && b[..i + 1][..i] == b[..i];
  }

  lemma MergedTerm(c: Challenges, unshifted: Fr, shifted: Fr, i: nat, comm: Fr, f: Fr, g: Fr)
    ensures (0 - unshifted * f - shifted * g) + MergedScalar(c, unshifted, shifted, i) * comm
         == 0 - unshifted * (f + Power(c.rho, i) * comm)
            - shifted * (g + if IsShiftable(i) then Power(c.rho, i + 8) * comm else 0)
  {
    hide Power;
    var rp, rs := Power(c.rho, i), Power(c.rho, i + 8);
    Assoc(0 - unshifted, rp, comm);
    Assoc(0 - shifted, rs, comm);
    Distributes(unshifted, f, rp * comm);
    Distributes(shifted, g, rs * comm);
    Distributes(comm, (0 - unshifted) * rp, (0 - shifted) * rs);
  }

  lemma {:induction false} DotEvaluations(o: Opening, c: Challenges, inv: seq<Fr>, n: nat, scalars: seq<Fr>, coms: seq<Fr>, k: nat)
    requires WellSized(o, c, n) && |inv| == 3 * n + 1
    requires IsMsmInput(o, c, inv, n, scalars, coms) && k <= UNSHIFTED
    ensures Dot(scalars[..1 + k], coms[..1 + k])
         == o.q - UnshiftedWeight(c, inv) * BatchUnshifted(c, o.comms, k)
            - ShiftedWeight(c, inv) * BatchShiftable(c, o.comms, k)
  {
    hide UnshiftedWeight, ShiftedWeight, MergedScalar, Power, ConstantTerm, FoldScalar, Dot;
    if k == 0 {
      DotOne(scalars, coms);
    } else {
      DotEvaluations(o, c, inv, n, scalars, coms, k - 1);
      DotStep(scalars, coms, k);
      MergedTerm(c, UnshiftedWeight(c, inv), ShiftedWeight(c, inv), k - 1, o.comms[k - 1],
                 BatchUnshifted(c, o.comms, k - 1), BatchShiftable(c, o.comms, k - 1));
    }
  }

  lemma DotOne(a: seq<Fr>, b: seq<Fr>)
    requires |a| == |b| > 0
    ensures Dot(a[..1], b[..1]) == a[0] * b[0]
  {
  }

  lemma FirstRoundAlgebra(pos: Fr, neg: Fr, nu: Fr, rInv: Fr, f: Fr, g: Fr, v: Fr, a: Fr)
    ensures pos * (f + 1 * (rInv * g) - v) + nu * neg * (f + -1 * (rInv * g) - a)
         == (nu * neg + pos) * f + (rInv * (pos - nu * neg)) * g - v * pos - a * (nu * neg)
  {
    var m, h := nu * neg, rInv * g;
    assert (rInv * (pos - m)) * g == (pos - m) * h by {
      Swap(rInv, pos - m, g);
      assert (rInv * g) * (pos - m) == (pos - m) * h;
    }
    assert pos * (f + h - v) == pos * f + pos * h - v * pos;
    assert m * (f - h - a) == m * f - m * h - a * m;
    Distributes(h, pos, m);
    Distributes(f, m, pos);
  }

  /** The part of the dot product up to round `j`, with the constant so far, is the claims so far. */
  lemma {:induction false} DotRounds(o: Opening, c: Challenges, inv: seq<Fr>, n: nat, scalars: seq<Fr>, coms: seq<Fr>, j: nat)
    requires WellSized(o, c, n) && |inv| == 3 * n + 1
    requires IsMsmInput(o, c, inv, n, scalars, coms) && 1 <= j <= n
    ensures Dot(scalars[..UNSHIFTED + j], coms[..UNSHIFTED + j]) + ConstantTerm(o, c, inv, n, j)
         == o.q - ClaimSum(o, c, inv, n, j)
  {
    hide Dot, MergedScalar, FoldValue, BatchUnshifted, BatchShiftable;
    if j == 1 {
      DotEvaluations(o, c, inv, n, scalars, coms, UNSHIFTED);
      FirstRound(o, c, inv, n);
    } else {
      DotRounds(o, c, inv, n, scalars, coms, j - 1);
      DotStep(scalars, coms, UNSHIFTED + (j - 1));
      LaterRound(o, c, inv, n, j - 1);
    }
  }

  lemma FirstRound(o: Opening, c: Challenges, inv: seq<Fr>, n: nat)
    requires WellSized(o, c, n) && |inv| == 3 * n + 1
    ensures ClaimSum(o, c, inv, n, 1) + ConstantTerm(o, c, inv, n, 1)
         == UnshiftedWeight(c, inv) * BatchUnshifted(c, o.comms, UNSHIFTED)
            + ShiftedWeight(c, inv) * BatchShiftable(c, o.comms, UNSHIFTED)
  {
    hide BatchUnshifted, BatchShiftable, FoldValue, GeminiPoint;
    FirstRoundAlgebra(inv[0], inv[1], c.nu, inv[R_SLOT], BatchUnshifted(c, o.comms, UNSHIFTED),
                      BatchShiftable(c, o.comms, UNSHIFTED), FoldValue(o, c, inv, n, 0), o.aEvals[0]);
    assert Power(c.nu, 0) == 1;
    assert ClaimSum(o, c, inv, n, 0) == 0 && ConstantTerm(o, c, inv, n, 0) == 0;
  }

  lemma LaterRound(o: Opening, c: Challenges, inv: seq<Fr>, n: nat, j: nat)
    requires WellSized(o, c, n) && |inv| == 3 * n + 1 && 1 <= j < n
    ensures FoldScalar(c, inv, n, j) * o.foldComms[j - 1]
            + ConstantTerm(o, c, inv, n, j + 1) - ConstantTerm(o, c, inv, n, j)
         == 0 - RoundClaims(o, c, inv, n, j)
  {
    hide FoldValue, Power;
    LaterRoundAlgebra(Power(c.nu, 2 * j) * inv[PosSlot(n, j)], Power(c.nu, 2 * j) * c.nu * inv[NegSlot(n, j)],
                      o.foldComms[j - 1], FoldValue(o, c, inv, n, j), o.aEvals[j]);
  }

  lemma LaterRoundAlgebra(sp: Fr, sn: Fr, comm: Fr, v: Fr, a: Fr)
    ensures (0 - (sp + sn)) * comm + v * sp + a * sn == 0 - (sp * (comm - v) + sn * (comm - a))
  {
    Distributes(sp, comm, v);
    Distributes(sn, comm, a);
    Distributes(comm, sp, sn);
  }

  /** The single multi-scalar multiplication computes the plain opening equation. */
  lemma MsmIsOpeningEquation(o: Opening, c: Challenges, inv: seq<Fr>, n: nat, scalars: seq<Fr>, coms: seq<Fr>, tau: Fr)
    requires WellSized(o, c, n) && |inv| == 3 * n + 1
    requires IsMsmInput(o, c, inv, n, scalars, coms)
    ensures Dot(scalars, coms) + tau * (0 - o.w) == OpeningEquation(o, c, inv, n, tau)
  {
    hide Dot, MergedScalar, FoldValue, BatchUnshifted, BatchShiftable, ClaimSum, ConstantTerm, FoldScalar;
    DotRounds(o, c, inv, n, scalars, coms, n);
    DotStep(scalars, coms, UNSHIFTED + n);
    DotStep(scalars, coms, UNSHIFTED + n + 1);
    assert scalars[..|scalars|] == scalars && coms[..|coms|] == coms;
    Distributes(tau, 0, o.w);
  }

  // --------------------------------------------------------------------- the verifier

  /** Steps 8 to 11: the constant term and the fold, generator and quotient entries. */
  method FinishMsmInput(o: Opening, c: Challenges, n: nat, inv: seq<Fr>, foldPos: seq<Fr>,
                        scalars: array<Fr>, coms: array<Fr>)
    requires WellSized(o, c, n) && |inv| == 3 * n + 1
    requires |foldPos| == n && forall j :: 0 <= j < n ==> foldPos[j] == FoldValue(o, c, inv, n, j)
    requires scalars.Length == coms.Length == UNSHIFTED + n + 2 && scalars != coms
    modifies scalars, coms
    ensures forall i :: 0 <= i <= UNSHIFTED ==> scalars[i] == old(scalars[i]) && coms[i] == old(coms[i])
    ensures forall i :: UNSHIFTED < i < UNSHIFTED + n ==>
              scalars[i] == FoldScalar(c, inv, n, i - UNSHIFTED) && coms[i] == o.foldComms[i - UNSHIFTED - 1]
    ensures scalars[UNSHIFTED + n] == ConstantTerm(o, c, inv, n, n) && coms[UNSHIFTED + n] == 1
    ensures scalars[UNSHIFTED + n + 1] == c.z && coms[UNSHIFTED + n + 1] == o.w
  {
    hide FoldValue, ConstantTerm, FoldScalar, Power;
    var nuSq := c.nu * c.nu;
    var constAcc := foldPos[0] * inv[0] + o.aEvals[0] * c.nu * inv[1];
    var vPow := nuSq;
    FirstConstant(o, c, inv, n);
    for j := 1 to n
      invariant vPow == Power(c.nu, 2 * j)
      invariant constAcc == ConstantTerm(o, c, inv, n, j)
      invariant forall i :: 0 <= i <= UNSHIFTED ==> scalars[i] == old(scalars[i]) && coms[i] == old(coms[i])
      invariant forall i :: UNSHIFTED < i < UNSHIFTED + j ==>
                  scalars[i] == FoldScalar(c, inv, n, i - UNSHIFTED) && coms[i] == o.foldComms[i - UNSHIFTED - 1]
    {
      var sp := vPow * inv[3 + n + 2 * (j - 1)];
      var sn := vPow * c.nu * inv[3 + n + 2 * (j - 1) + 1];
      NextConstant(o, c, inv, n, j, sp, sn);
      scalars[UNSHIFTED + j] := 0 - (sp + sn);
      constAcc := constAcc + o.aEvals[j] * sn + foldPos[j] * sp;
      vPow := vPow * nuSq;
      coms[UNSHIFTED + j] := o.foldComms[j - 1];
    }
    coms[UNSHIFTED + n] := 1;
    scalars[UNSHIFTED + n] := constAcc;
    coms[UNSHIFTED + n + 1] := o.w;
    scalars[UNSHIFTED + n + 1] := c.z;
  }

  lemma FirstConstant(o: Opening, c: Challenges, inv: seq<Fr>, n: nat)
    requires WellSized(o, c, n) && |inv| == 3 * n + 1
    ensures ConstantTerm(o, c, inv, n, 1)
         == FoldValue(o, c, inv, n, 0) * inv[0] + o.aEvals[0] * c.nu * inv[1]
    ensures Power(c.nu, 2) == c.nu * c.nu
  {
    hide FoldValue;
    assert Power(c.nu, 1) == c.nu && Power(c.nu, 0) == 1;
    assert ConstantTerm(o, c, inv, n, 0) == 0;
    Assoc(o.aEvals[0], c.nu, inv[1]);
  }

  lemma NextConstant(o: Opening, c: Challenges, inv: seq<Fr>, n: nat, j: nat, sp: Fr, sn: Fr)
    requires WellSized(o, c, n) && |inv| == 3 * n + 1 && 1 <= j < n
    requires sp == Power(c.nu, 2 * j) * inv[PosSlot(n, j)]
    requires sn == Power(c.nu, 2 * j) * c.nu * inv[NegSlot(n, j)]
    ensures FoldScalar(c, inv, n, j) == 0 - (sp + sn)
    ensures ConstantTerm(o, c, inv, n, j + 1)
         == ConstantTerm(o, c, inv, n, j) + o.aEvals[j] * sn + FoldValue(o, c, inv, n, j) * sp
    ensures Power(c.nu, 2 * (j + 1)) == Power(c.nu, 2 * j) * (c.nu * c.nu)
  {
    hide FoldValue;
    assert Power(c.nu, 2 * (j + 1)) == c.nu * (c.nu * Power(c.nu, 2 * j));
    Assoc(c.nu, c.nu, Power(c.nu, 2 * j));
  }

  /** The multi-scalar multiplication. */
  method Msm(coms: seq<Fr>, scalars: seq<Fr>) returns (r: Fr)
    requires |coms| == |scalars|
    ensures r == Dot(scalars, coms)
  {
    r := 0;
    for i := 0 to |coms|
      invariant r == Dot(scalars[..i], coms[..i])
    {
      DotStep(scalars, coms, i);
      r := r + scalars[i] * coms[i];
    }
    assert coms[..|coms|] == coms && scalars[..|scalars|] == scalars;
  }

  /** Steps 4 to 11: scalars and points of the multi-scalar multiplication. */
  method BuildMsmInput(o: Opening, c: Challenges, n: nat, rPows: seq<Fr>, inv: seq<Fr>)
    returns (scalars: seq<Fr>, coms: seq<Fr>)
    requires WellSized(o, c, n) && |inv| == 3 * n + 1
    requires |rPows| == n && forall j :: 0 <= j < n ==> rPows[j] == GeminiPoint(c, j)
    ensures |scalars| == |coms| && IsMsmInput(o, c, inv, n, scalars, coms)
  {
    hide GeminiPoint, FoldValue, MergedScalar, FoldScalar, ConstantTerm;
    var unshifted := c.nu * inv[1] + inv[0];
    var shifted := inv[R_SLOT] * (inv[0] - c.nu * inv[1]);
    var evalScalars, evalAcc := EvaluationScalars(o, c, n, unshifted, shifted);
    var ss := new Fr[UNSHIFTED + n + 2];
    var cs := new Fr[UNSHIFTED + n + 2];
    ss[0] := 1;
    cs[0] := o.q;
    for j := 0 to UNSHIFTED
      invariant ss[0] == 1 && cs[0] == o.q
      invariant forall i :: 0 <= i < UNSHIFTED ==> evalScalars[i] == MergedScalar(c, unshifted, shifted, i)
      invariant forall i :: 1 <= i <= j ==> ss[i] == MergedScalar(c, unshifted, shifted, i - 1)
                                            && cs[i] == o.comms[i - 1]
    {
      cs[1 + j] := o.comms[j];
      ss[1 + j] := evalScalars[j];
    }
    var foldPos := ReconstructFolds(o, c, n, rPows, inv, evalAcc);
    FinishMsmInput(o, c, n, inv, foldPos[..], ss, cs);
    scalars, coms := ss[..], cs[..];
  }

  /**
   `verify_shplemini`. With the inverses it computes, it accepts exactly when the plain opening
   equation holds; without them it rejects, and it has none exactly when a denominator is zero.
   `tau` is the setup's secret, which the pairing tests without knowing it.
   */
  method VerifyShplemini(p: Prime, o: Opening, c: Challenges, logN: nat, n: nat, tau: Fr)
    returns (r: Result<()>, ghost denoms: seq<Fr>, ghost inv: seq<Fr>)
    requires WellSized(o, c, n)
    ensures logN != n ==> r.Err?
    ensures logN == n ==>
              && IsDenominators(c, n, denoms)
              && ((exists i :: 0 <= i < |denoms| && Eq(p, denoms[i], 0)) ==> r.Err?)
              && ((forall i :: 0 <= i < |denoms| ==> !Eq(p, denoms[i], 0)) ==>
                    && Inverses(p, denoms, inv)
                    && (r.Ok? <==> Eq(p, OpeningEquation(o, c, inv, n, tau), 0)))
  {
    hide Eq, GeminiPoint, Inv, OpeningEquation, IsMsmInput;
    denoms, inv := [], [];
    if logN != n {
      return Err("shplemini: unsupported log_circuit_size"), denoms, inv;
    }
    var rPows := PowerTable(c.r, n);
    var points := rPows[..];
    PointsArePowers(c, points);
    var toInvert := CollectDenominators(c, n, points);
    denoms := toInvert[..];
    var inverted := new Fr[3 * n + 1];
    var ok := BatchInverse(p, toInvert[..], inverted);
    if !ok {
      return Err("shplemini: batch inversion failed"), denoms, inv;
    }
    var inverses := inverted[..];
    inv := inverses;
    assert Inverses(p, denoms, inv);
    for i := 0 to |inverses|
    {
      NoZeroInverse(p, denoms[i], inv[i]);
      if Eq(p, inverses[i], 0) {
        return Err("shplemini: batch inversion produced zero result"), denoms, inv;
      }
    }
    var scalars, coms := BuildMsmInput(o, c, n, points, inverses);
    var p0 := Msm(coms, scalars);
    MsmIsOpeningEquation(o, c, inverses, n, scalars, coms, tau);
    var p1 := 0 - o.w;
    if Eq(p, p0 + tau * p1, 0) {
      return Ok(()), denoms, inv;
    } else {
      return Err("Shplonk pairing check failed"), denoms, inv;
    }
  }

  lemma PointsArePowers(c: Challenges, points: seq<Fr>)
    requires forall j :: 0 <= j < |points| ==> points[j] == Power(c.r, Pow2(j))
    ensures forall j :: 0 <= j < |points| ==> points[j] == GeminiPoint(c, j)
  {
  }

  lemma NoZeroInverse(p: Prime, d: Fr, i: Fr)
    requires Eq(p, d * i, 1)
    ensures !Eq(p, i, 0)
  {
    hide Eq;
    if Eq(p, i, 0) {
      EqScale(p, d, i, 0);
      EqSym(p, d * i, 1);
      EqTrans(p, 1, d * i, 0);
      SmallDistinct(p, 1, 0);
    }
  }
}
