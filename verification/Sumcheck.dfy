/** The sumcheck verifier: barycentric evaluation, the round loop, soundness and completeness. */
module Sumcheck {
  import opened Field
  import opened Polynomial

  datatype Result<+T> = Ok(value: T) | Err(message: string)

  /** The evaluation points of a round univariate. */
  const DOMAIN: seq<Fr> := [0, 1, 2, 3, 4, 5, 6, 7]

  const FR_MODULUS: int := 0x30644e72e131a029b85045b68181585d2833e84879b9709143e1f593f0000001

  /** The hard-coded Lagrange denominators. */
  const BARY_WEIGHTS: seq<Fr> := [
    0x30644e72e131a029b85045b68181585d2833e84879b9709143e1f593efffec51,
    0x2d0,
    0x30644e72e131a029b85045b68181585d2833e84879b9709143e1f593efffff11,
    0x90,
    0x30644e72e131a029b85045b68181585d2833e84879b9709143e1f593efffff71,
    0xf0,
    0x30644e72e131a029b85045b68181585d2833e84879b9709143e1f593effffd31,
    0x13b0
  ]

  lemma VanishSeven(rs: seq<Fr>, x: Fr)
    requires |rs| == 7
    ensures Vanish(rs, x)
         == (x - rs[0]) * (x - rs[1]) * (x - rs[2]) * (x - rs[3]) * (x - rs[4]) * (x - rs[5]) * (x - rs[6])
  {
    var r6, r5, r4, r3, r2, r1 := rs[..6], rs[..5], rs[..4], rs[..3], rs[..2], rs[..1];
    assert r6[..5] == r5 && r5[..4] == r4 && r4[..3] == r3 && r3[..2] == r2 && r2[..1] == r1;
    assert Vanish(r1, x) == x - rs[0];
    assert Vanish(r3, x) == (x - rs[0]) * (x - rs[1]) * (x - rs[2]);
    assert Vanish(r5, x) == Vanish(r3, x) * (x - rs[3]) * (x - rs[4]);
  }

  function Skip(i: nat, k: nat): int {
    if k < i then k else k + 1
  }

  lemma SevenDifferences(i: nat)
    requires i < 8
    ensures (BARY_WEIGHTS[i] - (i - Skip(i, 0)) * (i - Skip(i, 1)) * (i - Skip(i, 2)) * (i - Skip(i, 3))
             * (i - Skip(i, 4)) * (i - Skip(i, 5)) * (i - Skip(i, 6))) % FR_MODULUS == 0
  {
    if i < 4 {
      if i == 0 {} else if i == 1 {} else if i == 2 {} else {}
    } else {
      if i == 4 {} else if i == 5 {} else if i == 6 {} else {}
    }
  }

  /** Each hard-coded weight is the product of `i - j` over the other points, in the scalar field. */
  lemma WeightsAreNodeProducts(i: nat)
    requires i < 8
    ensures (BARY_WEIGHTS[i] - Weight(DOMAIN, i)) % FR_MODULUS == 0
  {
    var o := Others(DOMAIN, i);
    var x := DOMAIN[i];
    assert forall k :: 0 <= k < 7 ==> o[k] == if k < i then k else k + 1;
    VanishSeven(o, x);
    SevenDifferences(i);
  }

  /** So the table meets what the barycentric evaluation asks of its weights. */
  lemma WeightsFitDomain(p: Prime, i: nat)
    requires p == FR_MODULUS && i < 8
    ensures Eq(p, BARY_WEIGHTS[i], Weight(DOMAIN, i))
  {
    hide Weight;
    WeightsAreNodeProducts(i);
    var difference := BARY_WEIGHTS[i] - Weight(DOMAIN, i);
    EqFromMultiple(p, BARY_WEIGHTS[i], Weight(DOMAIN, i), difference / FR_MODULUS);
  }

  lemma DomainDistinct(p: Prime)
    requires p > 7
    ensures Distinct(p, DOMAIN)
  {
    forall i, j | 0 <= i < j < 8
      ensures !Eq(p, DOMAIN[i], DOMAIN[j])
    {
      assert DOMAIN[i] == i && DOMAIN[j] == j;
      SmallDistinct(p, i, j);
    }
  }

  // ---------------------------------------------------------------- one round

  /** The eight claimed values of a round polynomial on the domain. */
  type Univariate = s: seq<Fr> | |s| == 8 witness [0, 0, 0, 0, 0, 0, 0, 0]

  /** `check_sum` */
  predicate CheckSum(p: Prime, univariate: Univariate, target: Fr) {
    Eq(p, univariate[0] + univariate[1], target)
  }

  lemma {:induction false} EvalCongruent(p: Prime, c: Poly, x: Fr, y: Fr)
    requires Eq(p, x, y)
    ensures Eq(p, Eval(c, x), Eval(c, y))
  {
    if c == [] {
      EqRefl(p, 0);
    } else {
      EvalCongruent(p, c[1..], x, y);
      EqMul(p, x, y, Eval(c[1..], x), Eval(c[1..], y));
      EqRefl(p, c[0]);
      EqAdd(p, c[0], c[0], x * Eval(c[1..], x), y * Eval(c[1..], y));
    }
  }

  lemma InterpolateAtNode(p: Prime, xs: seq<Fr>, ys: seq<Fr>, x: Fr, i: nat)
    requires i < |xs| == |ys| && Distinct(p, xs)
    requires Eq(p, x, xs[i])
    ensures Eq(p, ys[i], Interpolate(p, xs, ys, x))
  {
    InterpolantExists(p, xs, ys);
    var c: Poly :| |c| == |xs| && PassesThrough(p, c, xs, ys)
                   && forall x :: Eval(c, x) == Interpolate(p, xs, ys, x);
    EvalCongruent(p, c, x, xs[i]);
    EqTrans(p, Eval(c, x), Eval(c, xs[i]), ys[i]);
    assert Eval(c, x) == Interpolate(p, xs, ys, x);
    EqSym(p, Eval(c, x), ys[i]);
  }

  /** One barycentric term equals the Lagrange term it stands for. */
  lemma BarycentricTerm(p: Prime, xs: seq<Fr>, ys: seq<Fr>, x: Fr, i: nat, w: Fr, inv: Fr)
    requires i < |xs| == |ys| && Distinct(p, xs)
    requires Eq(p, w, Weight(xs, i))
    requires Eq(p, (w * (x - xs[i])) * inv, 1)
    ensures Eq(p, Vanish(xs, x) * (ys[i] * inv), Term(p, xs, ys, x, i))
  {
    var weight, v, d := Weight(xs, i), Vanish(Others(xs, i), x), x - xs[i];
    VanishSplit(xs, i, x);
    WeightNonzero(p, xs, i);
    InvIsInverse(p, weight);
    InverseOfPart(p, w, weight, d, inv);
    TermAlgebra(p, v, d, ys[i], inv, Inv(p, weight));
  }

  lemma TermAlgebra(p: Prime, v: Fr, d: Fr, y: Fr, inv: Fr, weightInv: Fr)
    requires Eq(p, d * inv, weightInv)
    ensures Eq(p, (v * d) * (y * inv), y * weightInv * v)
  {
    EqScale(p, y * v, d * inv, weightInv);
    SwapFour(v, d, y, inv);
    Swap(y, weightInv, v);
    assert v * y == y * v;
  }

  lemma InverseOfPart(p: Prime, w: Fr, weight: Fr, d: Fr, inv: Fr)
    requires Eq(p, w, weight) && Eq(p, (w * d) * inv, 1) && Eq(p, weight * Inv(p, weight), 1)
    requires !Eq(p, weight, 0)
    ensures Eq(p, d * inv, Inv(p, weight))
  {
    EqScale(p, d * inv, w, weight);
    Assoc(w, d, inv);
    EqSym(p, w * (d * inv), weight * (d * inv));
    EqTrans(p, weight * (d * inv), w * (d * inv), 1);
    EqSym(p, weight * Inv(p, weight), 1);
    EqTrans(p, weight * (d * inv), 1, weight * Inv(p, weight));
    Cancel(p, weight, d * inv, Inv(p, weight));
  }

  function Denominators(weights: seq<Fr>, points: seq<Fr>, x: Fr): (d: seq<Fr>)
    requires |weights| == |points|
    ensures |d| == |points|
  {
    seq(|points|, k requires 0 <= k < |points| => weights[k] * (x - points[k]))
  }

  lemma DenominatorNonzero(p: Prime, xs: seq<Fr>, x: Fr, i: nat, w: Fr)
    requires i < |xs| && Distinct(p, xs)
    requires Eq(p, w, Weight(xs, i)) && !Eq(p, x, xs[i])
    ensures !Eq(p, w * (x - xs[i]), 0)
  {
    WeightNonzero(p, xs, i);
    if Eq(p, w * (x - xs[i]), 0) {
      NoZeroDivisors(p, w, x - xs[i]);
      EqDifference(p, x, xs[i]);
      if Eq(p, w, 0) {
        EqSym(p, w, Weight(xs, i));
        EqTrans(p, Weight(xs, i), w, 0);
      }
    }
  }

  lemma DenominatorsNonzero(p: Prime, weights: seq<Fr>, points: seq<Fr>, x: Fr)
    requires |weights| == |points| && Distinct(p, points)
    requires forall i :: 0 <= i < |points| ==> Eq(p, weights[i], Weight(points, i)) && !Eq(p, x, points[i])
    ensures forall k :: 0 <= k < |points| ==> !Eq(p, Denominators(weights, points, x)[k], 0)
  {
    forall k | 0 <= k < |points|
      ensures !Eq(p, Denominators(weights, points, x)[k], 0)
    {
      DenominatorNonzero(p, points, x, k, weights[k]);
    }
  }

  method NodeDifferences(x: Fr, weights: seq<Fr>, points: seq<Fr>) returns (bPoly: Fr, denoms: array<Fr>)
    requires |weights| == |points|
    ensures bPoly == Vanish(points, x)
    ensures fresh(denoms) && denoms[..] == Denominators(weights, points, x)
  {
    var n := |points|;
    denoms := new Fr[n];
    bPoly := 1;
    for i := 0 to n
      invariant bPoly == Vanish(points[..i], x)
      invariant denoms[..i] == Denominators(weights, points, x)[..i]
    {
      var diff := x - points[i];
      assert points[..i + 1][..i] == points[..i];
      bPoly := bPoly * diff;
      denoms[i] := weights[i] * diff;
    }
    assert points[..n] == points && denoms[..n] == denoms[..];
  }

  /**
   `compute_next_target_sum`: the value at `x` of the polynomial through the univariate's points,
   at every challenge; the inversion never meets a zero denominator.
   */
  method ComputeNextTargetSum(p: Prime, ys: seq<Fr>, x: Fr, weights: seq<Fr>, points: seq<Fr>)
    returns (r: Result<Fr>)
    requires |ys| == |weights| == |points|
    requires Distinct(p, points)
    requires forall i :: 0 <= i < |points| ==> Eq(p, weights[i], Weight(points, i))
    ensures r.Ok? && Eq(p, r.value, Interpolate(p, points, ys, x))
  {
    hide Eq, Weight, Vanish, Term, Denominators;
    var n := |points|;
    for i := 0 to n
      invariant forall k :: 0 <= k < i ==> !Eq(p, x, points[k])
    {
      if Eq(p, x, points[i]) {
        InterpolateAtNode(p, points, ys, x, i);
        return Ok(ys[i]);
      }
    }
    var bPoly, denoms := NodeDifferences(x, weights, points);
    DenominatorsNonzero(p, weights, points, x);
    var inverses := new Fr[n];
    var ok := BatchInverse(p, denoms[..], inverses);
    if !ok {
      return Err("sumcheck: barycentric denominator is zero");
    }
    ghost var inv := inverses[..];
    assert AreInverses(p, weights, points, x, inv);
    var acc := 0;
    EqRefl(p, 0);
    for i := 0 to n
      invariant inverses[..] == inv
      invariant Eq(p, Vanish(points, x) * acc, LagrangeSum(p, points, ys, x, i))
    {
      AccumulateTerm(p, points, ys, x, i, weights, inv, acc);
      acc := acc + ys[i] * inverses[i];
    }
    return Ok(bPoly * acc);
  }

  ghost predicate AreInverses(p: Prime, weights: seq<Fr>, points: seq<Fr>, x: Fr, inverses: seq<Fr>) {
    && |weights| == |points| == |inverses|
    && forall k :: 0 <= k < |points| ==> Eq(p, Denominators(weights, points, x)[k] * inverses[k], 1)
  }

  lemma AccumulateTerm(p: Prime, xs: seq<Fr>, ys: seq<Fr>, x: Fr, i: nat, weights: seq<Fr>, inverses: seq<Fr>, acc: Fr)
    requires i < |xs| == |ys| && Distinct(p, xs)
    requires AreInverses(p, weights, xs, x, inverses) && Eq(p, weights[i], Weight(xs, i))
    requires Eq(p, Vanish(xs, x) * acc, LagrangeSum(p, xs, ys, x, i))
    ensures Eq(p, Vanish(xs, x) * (acc + ys[i] * inverses[i]), LagrangeSum(p, xs, ys, x, i + 1))
  {
    var b, t := Vanish(xs, x), ys[i] * inverses[i];
    BarycentricTerm(p, xs, ys, x, i, weights[i], inverses[i]);
    Distribute(p, b, acc, t, LagrangeSum(p, xs, ys, x, i), Term(p, xs, ys, x, i));
  }

  lemma Distribute(p: Prime, b: Fr, s: Fr, t: Fr, bs: Fr, bt: Fr)
    requires Eq(p, b * s, bs) && Eq(p, b * t, bt)
    ensures Eq(p, b * (s + t), bs + bt)
  {
    EqAdd(p, b * s, bs, b * t, bt);
    Distributes(b, s, t);
  }

  // --------------------------------------------------------------- the round loop

  /** `partially_evaluate_pow` */
  function PartiallyEvaluatePow(gate: Fr, pow: Fr, u: Fr): Fr {
    pow * (1 + u * (gate - 1))
  }

  /** The gate separator after `k` rounds. */
  function PowAfter(gates: seq<Fr>, us: seq<Fr>, k: nat): Fr
    requires k <= |gates| && k <= |us|
  {
    if k == 0 then 1 else PartiallyEvaluatePow(gates[k - 1], PowAfter(gates, us, k - 1), us[k - 1])
  }

  /** The claimed sum entering round `k`. */
  function Target(p: Prime, unis: seq<Univariate>, us: seq<Fr>, k: nat): Fr
    requires k <= |unis| == |us|
  {
    if k == 0 then 0 else Interpolate(p, DOMAIN, unis[k - 1], us[k - 1])
  }

  ghost predicate RoundsPass(p: Prime, unis: seq<Univariate>, us: seq<Fr>)
    requires |unis| == |us|
  {
    forall k :: 0 <= k < |unis| ==> CheckSum(p, unis[k], Target(p, unis, us, k))
  }

  /**
   `verify_sumcheck`. The number of rounds is that of the proof layout, `|unis|`; `relation` is the
   batched relation at the claimed evaluations as a function of the gate separator.
   */
  method VerifySumcheck(p: Prime, logN: nat, unis: seq<Univariate>, us: seq<Fr>, gates: seq<Fr>,
                        weights: seq<Fr>, relation: Fr -> Fr)
    returns (r: Result<()>)
    requires p > 7
    requires |unis| == |us| == |gates|
    requires |weights| == 8 && forall i :: 0 <= i < 8 ==> Eq(p, weights[i], Weight(DOMAIN, i))
    ensures r.Ok? <==>
            && logN == |unis|
            && RoundsPass(p, unis, us)
            && Eq(p, relation(PowAfter(gates, us, |us|)), Target(p, unis, us, |unis|))
  {
    hide Eq, Interpolate, CheckSum;
    if logN != |unis| {
      return Err("sumcheck: unsupported log_circuit_size");
    }
    DomainDistinct(p);
    var target := 0;
    var pow := 1;
    EqRefl(p, 0);
    for round := 0 to logN
      invariant Eq(p, target, Target(p, unis, us, round))
      invariant pow == PowAfter(gates, us, round)
      invariant forall k :: 0 <= k < round ==> CheckSum(p, unis[k], Target(p, unis, us, k))
    {
      SumCongruent(p, unis[round], target, Target(p, unis, us, round));
      if !CheckSum(p, unis[round], target) {
        return Err("round failed");
      }
      var next := ComputeNextTargetSum(p, unis[round], us[round], weights, DOMAIN);
      // The error path of the source is dead: the call never fails.
      target := next.value;
      pow := PartiallyEvaluatePow(gates[round], pow, us[round]);
    }
    EqTransport(p, relation(pow), target, Target(p, unis, us, logN));
    if Eq(p, relation(pow), target) {
      return Ok(());
    } else {
      return Err("sumcheck final mismatch");
    }
  }

  lemma EqTransport(p: Prime, a: Fr, b: Fr, c: Fr)
    requires Eq(p, b, c)
    ensures Eq(p, a, b) <==> Eq(p, a, c)
  {
    if Eq(p, a, b) { EqTrans(p, a, b, c); }
    if Eq(p, a, c) { EqSym(p, b, c); EqTrans(p, a, c, b); }
  }

  lemma SumCongruent(p: Prime, s: Univariate, t: Fr, t': Fr)
    requires Eq(p, t, t')
    ensures CheckSum(p, s, t) <==> CheckSum(p, s, t')
  {
    EqTransport(p, s[0] + s[1], t, t');
  }

  // ------------------------------------------------------- the statement being verified

  /** The sum of `f` over all 0/1 continuations of length `m` of the prefix `pre`. */
  ghost function CubeSum(f: seq<Fr> -> Fr, pre: seq<Fr>, m: nat): Fr
    decreases m
  {
    if m == 0 then f(pre) else CubeSum(f, pre + [0], m - 1) + CubeSum(f, pre + [1], m - 1)
  }

  lemma CubeSumStep(f: seq<Fr> -> Fr, pre: seq<Fr>, m: nat)
    ensures CubeSum(f, pre, m + 1) == CubeSum(f, pre + [0], m) + CubeSum(f, pre + [1], m)
  {
  }

  lemma CubeSumNone(f: seq<Fr> -> Fr, us: seq<Fr>)
    ensures CubeSum(f, us, 0) == f(us)
  {
  }

  ghost predicate LineIs(p: Prime, f: seq<Fr> -> Fr, pre: seq<Fr>, post: seq<Fr>, m: nat, c: Poly) {
    |c| == 8 && forall x :: Eq(p, CubeSum(f, pre + [x] + post, m), Eval(c, x))
  }

  ghost predicate HasLine(p: Prime, f: seq<Fr> -> Fr, pre: seq<Fr>, post: seq<Fr>, m: nat) {
    exists c: Poly :: LineIs(p, f, pre, post, m, c)
  }

  /** `f` has degree at most 7 in each of its `n` variables. */
  ghost predicate LowDegree(p: Prime, f: seq<Fr> -> Fr, n: nat) {
    forall pre: seq<Fr>, post: seq<Fr> {:trigger HasLine(p, f, pre, post, 0)} :: |pre| + 1 + |post| == n ==> HasLine(p, f, pre, post, 0)
  }

  /** What an honest prover sends in the round after prefix `pre`, with `m` variables left to sum. */
  ghost function Honest(f: seq<Fr> -> Fr, pre: seq<Fr>, m: nat): (h: seq<Fr>)
    ensures |h| == 8
  {
    seq(8, i requires 0 <= i < 8 => CubeSum(f, pre + [DOMAIN[i]], m))
  }

  lemma LineSum(p: Prime, f: seq<Fr> -> Fr, pre: seq<Fr>, post: seq<Fr>, m: nat, c: Poly, d: Poly, x: Fr)
    requires m > 0
    requires Eq(p, CubeSum(f, pre + [x] + (post + [0]), m - 1), Eval(c, x))
    requires Eq(p, CubeSum(f, pre + [x] + (post + [1]), m - 1), Eval(d, x))
    requires |c| == |d|
    ensures Eq(p, CubeSum(f, pre + [x] + post, m), Eval(Add(c, d), x))
  {
    CubeSumSplit(f, pre, x, post, m);
    EvalAdd(c, d, x);
    EqAdd(p, CubeSum(f, pre + [x] + (post + [0]), m - 1), Eval(c, x),
          CubeSum(f, pre + [x] + (post + [1]), m - 1), Eval(d, x));
  }

  lemma CubeSumSplit(f: seq<Fr> -> Fr, pre: seq<Fr>, x: Fr, post: seq<Fr>, m: nat)
    requires m > 0
    ensures CubeSum(f, pre + [x] + post, m)
         == CubeSum(f, pre + [x] + (post + [0]), m - 1) + CubeSum(f, pre + [x] + (post + [1]), m - 1)
  {
    assert pre + [x] + (post + [0]) == pre + [x] + post + [0];
    assert pre + [x] + (post + [1]) == pre + [x] + post + [1];
  }

  /** Partial sums of a low-degree function have low degree. */
  lemma {:induction false} PartialSumLine(p: Prime, f: seq<Fr> -> Fr, n: nat, pre: seq<Fr>, post: seq<Fr>, m: nat)
    requires LowDegree(p, f, n) && |pre| + 1 + |post| + m == n
    ensures HasLine(p, f, pre, post, m)
    decreases m
  {
    if m > 0 {
      PartialSumLine(p, f, n, pre, post + [0], m - 1);
      PartialSumLine(p, f, n, pre, post + [1], m - 1);
      var c: Poly :| LineIs(p, f, pre, post + [0], m - 1, c);
      var d: Poly :| LineIs(p, f, pre, post + [1], m - 1, d);
      forall x
        ensures Eq(p, CubeSum(f, pre + [x] + post, m), Eval(Add(c, d), x))
      {
        LineSum(p, f, pre, post, m, c, d, x);
      }
      assert LineIs(p, f, pre, post, m, Add(c, d));
    }
  }

  /** The honest univariate interpolates to the partial sum at any challenge. */
  lemma HonestInterpolates(p: Prime, f: seq<Fr> -> Fr, n: nat, pre: seq<Fr>, m: nat, u: Fr)
    requires p > 7 && LowDegree(p, f, n) && |pre| + 1 + m == n
    ensures Eq(p, CubeSum(f, pre + [u], m), Interpolate(p, DOMAIN, Honest(f, pre, m), u))
  {
    DomainDistinct(p);
    PartialSumLine(p, f, n, pre, [], m);
    var c: Poly :| LineIs(p, f, pre, [], m, c);
    var h := Honest(f, pre, m);
    forall i | 0 <= i < 8
      ensures Eq(p, Eval(c, DOMAIN[i]), h[i])
    {
      assert pre + [DOMAIN[i]] + [] == pre + [DOMAIN[i]];
      EqSym(p, CubeSum(f, pre + [DOMAIN[i]] + [], m), Eval(c, DOMAIN[i]));
    }
    assert pre + [u] + [] == pre + [u];
    InterpolantUnique(p, DOMAIN, h, c, u);
    EqTrans(p, CubeSum(f, pre + [u], m), Eval(c, u), Interpolate(p, DOMAIN, h, u));
  }

  /** Two univariates are different field vectors. */
  ghost predicate Differ(p: Prime, a: seq<Fr>, b: seq<Fr>)
    requires |a| == |b|
  {
    exists i :: 0 <= i < |a| && !Eq(p, a[i], b[i])
  }

  /** A submitted univariate that is wrong, yet right at the challenge `u`. */
  ghost predicate LuckyRound(p: Prime, f: seq<Fr> -> Fr, pre: seq<Fr>, m: nat, s: seq<Fr>, u: Fr)
    requires |s| == 8
  {
    Differ(p, s, Honest(f, pre, m)) && Eq(p, Interpolate(p, DOMAIN, s, u), CubeSum(f, pre + [u], m))
  }

  /** The target entering round `k` is the true partial sum. */
  ghost predicate OnTrack(p: Prime, f: seq<Fr> -> Fr, unis: seq<Univariate>, us: seq<Fr>, k: nat)
    requires k <= |unis| == |us|
  {
    Eq(p, Target(p, unis, us, k), CubeSum(f, us[..k], |us| - k))
  }

  lemma PrefixStep(us: seq<Fr>, k: nat)
    requires k < |us|
    ensures us[..k + 1] == us[..k] + [us[k]]
  {
  }

  /** A round that turns a wrong target into a right one is lucky. */
  lemma BackOnTrack(p: Prime, f: seq<Fr> -> Fr, unis: seq<Univariate>, us: seq<Fr>, k: nat)
    requires p > 7 && k < |unis| == |us|
    requires RoundsPass(p, unis, us)
    requires !OnTrack(p, f, unis, us, k) && OnTrack(p, f, unis, us, k + 1)
    ensures LuckyRound(p, f, us[..k], |us| - k - 1, unis[k], us[k])
  {
    hide CubeSum, Interpolate, Eq;
    var pre, m, s := us[..k], |us| - k - 1, unis[k];
    var h := Honest(f, pre, m);
    PrefixStep(us, k);
    var target, sum := Target(p, unis, us, k), CubeSum(f, pre, m + 1);
    CubeSumStep(f, pre, m);
    assert h[0] == CubeSum(f, pre + [0], m) && h[1] == CubeSum(f, pre + [1], m);
    assert CheckSum(p, s, target);
    if !Differ(p, s, h) {
      assert Eq(p, s[0], h[0]) && Eq(p, s[1], h[1]);
      EqAdd(p, s[0], h[0], s[1], h[1]);
      EqSym(p, s[0] + s[1], target);
      EqTrans(p, target, s[0] + s[1], sum);
    }
  }

  lemma {:induction false} SomeRoundIsLucky(p: Prime, f: seq<Fr> -> Fr, unis: seq<Univariate>, us: seq<Fr>, k: nat)
    requires p > 7 && k <= |unis| == |us|
    requires RoundsPass(p, unis, us)
    requires !OnTrack(p, f, unis, us, 0) && OnTrack(p, f, unis, us, k)
    ensures exists j :: 0 <= j < k && LuckyRound(p, f, us[..j], |us| - j - 1, unis[j], us[j])
  {
    hide *;
    if OnTrack(p, f, unis, us, k - 1) {
      SomeRoundIsLucky(p, f, unis, us, k - 1);
    } else {
      BackOnTrack(p, f, unis, us, k - 1);
    }
  }

  /**
   Soundness: if the true sum over the cube is not the starting target 0 and still every check
   passes, some round's univariate was wrong and its challenge hid that.
   */
  lemma SumcheckSound(p: Prime, f: seq<Fr> -> Fr, unis: seq<Univariate>, us: seq<Fr>)
    requires p > 7 && |unis| == |us|
    requires RoundsPass(p, unis, us) && Eq(p, f(us), Target(p, unis, us, |us|))
    requires !Eq(p, CubeSum(f, [], |us|), 0)
    ensures exists k :: 0 <= k < |us| && LuckyRound(p, f, us[..k], |us| - k - 1, unis[k], us[k])
  {
    hide CubeSum, Interpolate, Eq;
    assert us[..0] == [] && us[..|us|] == us;
    if OnTrack(p, f, unis, us, 0) {
      EqSym(p, 0, CubeSum(f, [], |us|));
    }
    CubeSumNone(f, us);
    EqSym(p, f(us), Target(p, unis, us, |us|));
    SomeRoundIsLucky(p, f, unis, us, |us|);
  }

  /** At most 7 field elements can make a given wrong univariate lucky. */
  lemma FewLuckyChallenges(p: Prime, f: seq<Fr> -> Fr, n: nat, pre: seq<Fr>, m: nat, s: Univariate, lucky: seq<Fr>)
    requires p > 7 && LowDegree(p, f, n) && |pre| + 1 + m == n
    requires Distinct(p, lucky)
    requires forall i :: 0 <= i < |lucky| ==> LuckyRound(p, f, pre, m, s, lucky[i])
    ensures |lucky| <= 7
  {
    hide *;
    if |lucky| >= 8 {
      var us, h := lucky[..8], Honest(f, pre, m);
      DistinctPrefix(p, lucky);
      DomainDistinct(p);
      assert |DOMAIN| == 8 by { DomainSize(); }
      InterpolantExists(p, DOMAIN, s);
      InterpolantExists(p, DOMAIN, h);
      var c: Poly :| |c| == |DOMAIN| && PassesThrough(p, c, DOMAIN, s)
                     && forall x :: Eval(c, x) == Interpolate(p, DOMAIN, s, x);
      var d: Poly :| |d| == |DOMAIN| && PassesThrough(p, d, DOMAIN, h)
                     && forall x :: Eval(d, x) == Interpolate(p, DOMAIN, h, x);
      forall i | 0 <= i < 8
        ensures Eq(p, Eval(c, us[i]), Eval(d, us[i]))
      {
        LuckyAgrees(p, f, n, pre, m, s, lucky[i]);
        assert us[i] == lucky[i];
      }
      LuckyAgrees(p, f, n, pre, m, s, lucky[0]);
      NotDifferent(p, us, c, d, s, h);
    }
  }

  lemma DomainSize()
    ensures |DOMAIN| == 8
  {
  }

  lemma DistinctPrefix(p: Prime, xs: seq<Fr>)
    requires |xs| >= 8 && Distinct(p, xs)
    ensures Distinct(p, xs[..8])
  {
  }

  lemma LuckyAgrees(p: Prime, f: seq<Fr> -> Fr, n: nat, pre: seq<Fr>, m: nat, s: Univariate, u: Fr)
    requires p > 7 && LowDegree(p, f, n) && |pre| + 1 + m == n
    requires LuckyRound(p, f, pre, m, s, u)
    ensures Differ(p, s, Honest(f, pre, m))
    ensures Eq(p, Interpolate(p, DOMAIN, s, u), Interpolate(p, DOMAIN, Honest(f, pre, m), u))
  {
    hide CubeSum, Interpolate, Eq, LowDegree;
    HonestInterpolates(p, f, n, pre, m, u);
    EqTrans(p, Interpolate(p, DOMAIN, s, u), CubeSum(f, pre + [u], m), Interpolate(p, DOMAIN, Honest(f, pre, m), u));
  }

  lemma NotDifferent(p: Prime, us: seq<Fr>, c: Poly, d: Poly, s: seq<Fr>, h: seq<Fr>)
    requires |us| == |c| == |d| == |s| == |h| == 8 && Distinct(p, us)
    requires forall i :: 0 <= i < 8 ==> Eq(p, Eval(c, us[i]), Eval(d, us[i]))
    requires PassesThrough(p, c, DOMAIN, s) && PassesThrough(p, d, DOMAIN, h)
    ensures !Differ(p, s, h)
  {
    var values: seq<Fr> := seq(8, i requires 0 <= i < 8 => Eval(d, us[i]));
    forall i | 0 <= i < 8 ensures Eq(p, Eval(d, us[i]), values[i]) { EqRefl(p, values[i]); }
    assert PassesThrough(p, c, us, values) && PassesThrough(p, d, us, values);
    forall i | 0 <= i < 8
      ensures Eq(p, s[i], h[i])
    {
      var x := DOMAIN[i];
      AgreeEverywhere(p, us, values, c, d, x);
      EqSym(p, Eval(c, x), s[i]);
      EqTrans(p, s[i], Eval(c, x), Eval(d, x));
      EqTrans(p, s[i], Eval(d, x), h[i]);
    }
  }

  ghost predicate AllHonest(f: seq<Fr> -> Fr, unis: seq<Univariate>, us: seq<Fr>)
    requires |unis| == |us|
  {
    forall k :: 0 <= k < |us| ==> unis[k] == Honest(f, us[..k], |us| - k - 1)
  }

  lemma HonestOnTrack(p: Prime, f: seq<Fr> -> Fr, unis: seq<Univariate>, us: seq<Fr>, k: nat)
    requires p > 7 && k <= |unis| == |us| && LowDegree(p, f, |us|)
    requires AllHonest(f, unis, us) && Eq(p, CubeSum(f, [], |us|), 0)
    ensures OnTrack(p, f, unis, us, k)
  {
    hide CubeSum, Interpolate, Eq;
    if k == 0 {
      assert us[..0] == [];
      EqSym(p, CubeSum(f, [], |us|), 0);
    } else {
      PrefixStep(us, k - 1);
      HonestInterpolates(p, f, |us|, us[..k - 1], |us| - k, us[k - 1]);
      EqSym(p, CubeSum(f, us[..k], |us| - k), Target(p, unis, us, k));
    }
  }

  lemma HonestCheckSum(p: Prime, f: seq<Fr> -> Fr, pre: seq<Fr>, n: nat, target: Fr)
    requires n > 0 && Eq(p, target, CubeSum(f, pre, n))
    ensures CheckSum(p, Honest(f, pre, n - 1), target)
  {
    EqSym(p, target, CubeSum(f, pre, n));
  }

  lemma HonestRound(p: Prime, f: seq<Fr> -> Fr, unis: seq<Univariate>, us: seq<Fr>, k: nat)
    requires p > 7 && k < |unis| == |us| && LowDegree(p, f, |us|)
    requires AllHonest(f, unis, us) && Eq(p, CubeSum(f, [], |us|), 0)
    ensures CheckSum(p, unis[k], Target(p, unis, us, k))
  {
    hide CubeSum, Interpolate, Eq;
    HonestOnTrack(p, f, unis, us, k);
    HonestCheckSum(p, f, us[..k], |us| - k, Target(p, unis, us, k));
  }

  /** Completeness: the honest prover of a true statement passes every check. */
  lemma SumcheckComplete(p: Prime, f: seq<Fr> -> Fr, unis: seq<Univariate>, us: seq<Fr>)
    requires p > 7 && |unis| == |us| && LowDegree(p, f, |us|)
    requires AllHonest(f, unis, us) && Eq(p, CubeSum(f, [], |us|), 0)
    ensures RoundsPass(p, unis, us) && Eq(p, f(us), Target(p, unis, us, |us|))
  {
    hide Interpolate, Eq;
    forall k | 0 <= k < |us|
      ensures CheckSum(p, unis[k], Target(p, unis, us, k))
    {
      HonestRound(p, f, unis, us, k);
    }
    HonestOnTrack(p, f, unis, us, |us|);
    assert us[..|us|] == us;
    EqSym(p, Target(p, unis, us, |us|), CubeSum(f, us, 0));
  }
}
