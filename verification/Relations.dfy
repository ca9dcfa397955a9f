/** The permutation and range subrelations, their batching, and the public-input delta. */
module Relations {
  import opened Field
  import opened Polynomial
  import opened Sumcheck

  // ---------------------------------------------------------------- wires of a row

  const SIGMA1 := 0
  const ID1 := 4
  const LAGRANGE_FIRST := 8
  const LAGRANGE_LAST := 9
  const Q_RANGE := 22
  const WL := 28
  const WR := 29
  const WO := 30
  const W4 := 31
  const Z_PERM := 32
  const WL_SHIFT := 36
  const Z_PERM_SHIFT := 40

  /** The values of the 41 entities in one row. */
  type Row = r: seq<Fr> | |r| == 41 witness seq(41, _ => 0)

  datatype Parameters = Parameters(beta: Fr, gamma: Fr, delta: Fr)

  /** The product over the four wires of `wire + id * beta + gamma`, the ids starting at `base`. */
  function GrandFactor(r: Row, rp: Parameters, base: nat): Fr
    requires base <= 4
  {
    (r[WL] + r[base] * rp.beta + rp.gamma)
    * (r[WR] + r[base + 1] * rp.beta + rp.gamma)
    * (r[WO] + r[base + 2] * rp.beta + rp.gamma)
    * (r[W4] + r[base + 3] * rp.beta + rp.gamma)
  }

  function Numerator(r: Row, rp: Parameters): Fr { GrandFactor(r, rp, ID1) }

  function Denominator(r: Row, rp: Parameters): Fr { GrandFactor(r, rp, SIGMA1) }

  function Recurrence(r: Row, rp: Parameters): Fr {
    (r[Z_PERM] + r[LAGRANGE_FIRST]) * Numerator(r, rp)
    - (r[Z_PERM_SHIFT] + r[LAGRANGE_LAST] * rp.delta) * Denominator(r, rp)
  }

  /** `accumulate_permutation_relation` */
  method AccumulatePermutation(r: Row, rp: Parameters, evals: array<Fr>, domainSep: Fr)
    requires evals.Length == 29
    modifies evals
    ensures evals[0] == Recurrence(r, rp) * domainSep
    ensures evals[1] == r[LAGRANGE_LAST] * r[Z_PERM_SHIFT] * domainSep
    ensures evals[2] == r[LAGRANGE_FIRST] * r[Z_PERM] * domainSep
    ensures evals[3..] == old(evals[3..])
  {
    var num := r[WL] + r[ID1] * rp.beta + rp.gamma;
    num := num * (r[WR] + r[ID1 + 1] * rp.beta + rp.gamma)
           * (r[WO] + r[ID1 + 2] * rp.beta + rp.gamma)
           * (r[W4] + r[ID1 + 3] * rp.beta + rp.gamma);
    var den := r[WL] + r[SIGMA1] * rp.beta + rp.gamma;
    den := den * (r[WR] + r[SIGMA1 + 1] * rp.beta + rp.gamma)
           * (r[WO] + r[SIGMA1 + 2] * rp.beta + rp.gamma)
           * (r[W4] + r[SIGMA1 + 3] * rp.beta + rp.gamma);
    evals[0] := ((r[Z_PERM] + r[LAGRANGE_FIRST]) * num
                 - (r[Z_PERM_SHIFT] + r[LAGRANGE_LAST] * rp.delta) * den) * domainSep;
    evals[1] := r[LAGRANGE_LAST] * r[Z_PERM_SHIFT] * domainSep;
    evals[2] := r[LAGRANGE_FIRST] * r[Z_PERM] * domainSep;
  }

  // ---------------------------------------------------------------- the whole trace

  /** The shape the circuit fixes: where the Lagrange columns are one, and what the shift column holds. */
  ghost predicate IsTrace(p: Prime, rows: seq<Row>) {
    && (forall i :: 0 <= i < |rows| ==>
                      && rows[i][LAGRANGE_FIRST] == (if i == 0 then 1 else 0)
                      && rows[i][LAGRANGE_LAST] == (if i == |rows| - 1 then 1 else 0))
    && (forall i :: 0 <= i < |rows| - 1 ==> Eq(p, rows[i][Z_PERM_SHIFT], rows[i + 1][Z_PERM]))
  }

  /** Permutation subrelations 0 to 2 vanish on the row, with a nonzero gate separator. */
  ghost predicate RowHolds(p: Prime, r: Row, rp: Parameters, domainSep: Fr) {
    && !Eq(p, domainSep, 0)
    && Eq(p, Recurrence(r, rp) * domainSep, 0)
    && Eq(p, r[LAGRANGE_LAST] * r[Z_PERM_SHIFT] * domainSep, 0)
    && Eq(p, r[LAGRANGE_FIRST] * r[Z_PERM] * domainSep, 0)
  }

  function Numerators(rows: seq<Row>, rp: Parameters): Fr {
    if rows == [] then 1 else Numerators(rows[..|rows| - 1], rp) * Numerator(rows[|rows| - 1], rp)
  }

  function Denominators(rows: seq<Row>, rp: Parameters): Fr {
    if rows == [] then 1 else Denominators(rows[..|rows| - 1], rp) * Denominator(rows[|rows| - 1], rp)
  }

  lemma DropSeparator(p: Prime, x: Fr, domainSep: Fr)
    requires !Eq(p, domainSep, 0) && Eq(p, x * domainSep, 0)
    ensures Eq(p, x, 0)
  {
    NoZeroDivisors(p, x, domainSep);
  }

  /** What one row says once the separator is divided out: `zIn * N = zOut * D`. */
  lemma RowStep(p: Prime, r: Row, rp: Parameters, domainSep: Fr, zIn: Fr, zOut: Fr)
    requires RowHolds(p, r, rp, domainSep)
    requires Eq(p, r[Z_PERM] + r[LAGRANGE_FIRST], zIn)
    requires Eq(p, r[Z_PERM_SHIFT] + r[LAGRANGE_LAST] * rp.delta, zOut)
    ensures Eq(p, zIn * Numerator(r, rp), zOut * Denominator(r, rp))
  {
    hide Eq, GrandFactor;
    var a, b := r[Z_PERM] + r[LAGRANGE_FIRST], r[Z_PERM_SHIFT] + r[LAGRANGE_LAST] * rp.delta;
    var n, d := Numerator(r, rp), Denominator(r, rp);
    DropSeparator(p, Recurrence(r, rp), domainSep);
    EqDifference(p, a * n, b * d);
    EqScale(p, n, a, zIn);
    EqScale(p, d, b, zOut);
    EqSym(p, a * n, zIn * n);
    EqTrans(p, zIn * n, a * n, b * d);
    EqTrans(p, zIn * n, b * d, zOut * d);
  }

  /** The running product entering row `k`. */
  function RunningProduct(rows: seq<Row>, rp: Parameters, k: nat): Fr
    requires k <= |rows|
  {
    if k == 0 then 1 else if k == |rows| then rp.delta else rows[k][Z_PERM]
  }

  lemma RowInOut(p: Prime, rows: seq<Row>, rp: Parameters, k: nat, domainSep: Fr)
    requires k < |rows| && IsTrace(p, rows) && RowHolds(p, rows[k], rp, domainSep)
    ensures Eq(p, RunningProduct(rows, rp, k) * Numerator(rows[k], rp),
               RunningProduct(rows, rp, k + 1) * Denominator(rows[k], rp))
  {
    hide Eq, GrandFactor, Recurrence;
    var r := rows[k];
    var zIn, zOut := RunningProduct(rows, rp, k), RunningProduct(rows, rp, k + 1);
    if k == 0 {
      assert r[LAGRANGE_FIRST] * r[Z_PERM] * domainSep == r[Z_PERM] * domainSep;
      DropSeparator(p, r[Z_PERM], domainSep);
      EqRefl(p, 1);
      EqAdd(p, r[Z_PERM], 0, 1, 1);
    } else {
      EqRefl(p, r[Z_PERM]);
    }
    if k == |rows| - 1 {
      assert r[LAGRANGE_LAST] * r[Z_PERM_SHIFT] * domainSep == r[Z_PERM_SHIFT] * domainSep;
      DropSeparator(p, r[Z_PERM_SHIFT], domainSep);
      EqRefl(p, rp.delta);
      EqAdd(p, r[Z_PERM_SHIFT], 0, rp.delta, rp.delta);
    }
    assert r[LAGRANGE_LAST] * rp.delta == if k == |rows| - 1 then rp.delta else 0;
    RowStep(p, r, rp, domainSep, zIn, zOut);
  }

  lemma ChainStep(p: Prime, nums: Fr, dens: Fr, n: Fr, d: Fr, zIn: Fr, zOut: Fr)
    requires Eq(p, nums, zIn * dens) && Eq(p, zIn * n, zOut * d)
    ensures Eq(p, nums * n, zOut * (dens * d))
  {
    hide Eq;
    EqScale(p, n, nums, zIn * dens);
    Swap(zIn, dens, n);
    EqScale(p, dens, zIn * n, zOut * d);
    Assoc(zOut, d, dens);
    assert d * dens == dens * d;
    EqTrans(p, nums * n, (zIn * n) * dens, zOut * (dens * d));
  }

  lemma {:induction false} PermutationPrefix(p: Prime, rows: seq<Row>, rp: Parameters, seps: seq<Fr>, k: nat)
    requires k <= |rows| == |seps| && IsTrace(p, rows)
    requires forall i :: 0 <= i < |rows| ==> RowHolds(p, rows[i], rp, seps[i])
    ensures Eq(p, Numerators(rows[..k], rp), RunningProduct(rows, rp, k) * Denominators(rows[..k], rp))
  {
    hide Eq, GrandFactor, IsTrace, RowHolds, Numerator, Denominator;
    if k == 0 {
      EqRefl(p, 1);
    } else {
      var front := rows[..k - 1];
      assert rows[..k][..k - 1] == front;
      PermutationPrefix(p, rows, rp, seps, k - 1);
      RowInOut(p, rows, rp, k - 1, seps[k - 1]);
      ChainStep(p, Numerators(front, rp), Denominators(front, rp),
                Numerator(rows[k - 1], rp), Denominator(rows[k - 1], rp),
                RunningProduct(rows, rp, k - 1), RunningProduct(rows, rp, k));
    }
  }

  /**
   Telescoping: when the three subrelations vanish on every row, the product of all numerators is
   delta times the product of all denominators, whether or not some grand-product values are zero.
   */
  lemma PermutationTelescopes(p: Prime, rows: seq<Row>, rp: Parameters, seps: seq<Fr>)
    requires |rows| == |seps| > 0 && IsTrace(p, rows)
    requires forall i :: 0 <= i < |rows| ==> RowHolds(p, rows[i], rp, seps[i])
    ensures Eq(p, Numerators(rows, rp), rp.delta * Denominators(rows, rp))
  {
    hide Eq, RowHolds, Numerators, Denominators;
    PermutationPrefix(p, rows, rp, seps, |rows|);
    assert rows[..|rows|] == rows;
  }

  // ------------------------------------------------------------------ public inputs

  /** The permutation ids of public input `i` in the two products; ids live in a domain of 2^28. */
  function IdShift(beta: Fr, gamma: Fr, offset: nat, i: nat): Fr {
    gamma + beta * (0x1000_0000 + offset + i)
  }

  function SigmaShift(beta: Fr, gamma: Fr, offset: nat, i: nat): Fr {
    gamma - beta * (1 + offset + i)
  }

  lemma ShiftStep(beta: Fr, gamma: Fr, offset: nat, i: nat)
    ensures IdShift(beta, gamma, offset, i + 1) == IdShift(beta, gamma, offset, i) + beta
    ensures SigmaShift(beta, gamma, offset, i + 1) == SigmaShift(beta, gamma, offset, i) - beta
  {
    Distributes(beta, 0x1000_0000 + offset + i, 1);
    Distributes(beta, 1 + offset + i, 1);
  }

  function DeltaNumerators(inputs: seq<Fr>, beta: Fr, gamma: Fr, offset: nat): (s: seq<Fr>)
    ensures |s| == |inputs|
  {
    seq(|inputs|, i requires 0 <= i < |inputs| => IdShift(beta, gamma, offset, i) + inputs[i])
  }

  function DeltaDenominators(inputs: seq<Fr>, beta: Fr, gamma: Fr, offset: nat): (s: seq<Fr>)
    ensures |s| == |inputs|
  {
    seq(|inputs|, i requires 0 <= i < |inputs| => SigmaShift(beta, gamma, offset, i) + inputs[i])
  }

  /**
   `compute_public_input_delta` over the public inputs followed by the accumulator limbs: fails
   exactly when some denominator factor is zero, and otherwise is the ratio of the two products.
   */
  method ComputePublicInputDelta(p: Prime, publicInputs: seq<Fr>, limbs: seq<Fr>, beta: Fr, gamma: Fr, offset: nat)
    returns (r: Result<Fr>)
    ensures var dens := DeltaDenominators(publicInputs + limbs, beta, gamma, offset);
            var nums := DeltaNumerators(publicInputs + limbs, beta, gamma, offset);
            && (r.Ok? <==> forall i :: 0 <= i < |dens| ==> !Eq(p, dens[i], 0))
            && (r.Ok? ==> Eq(p, Product(nums), r.value * Product(dens)))
  {
    hide Eq, Product, IdShift, SigmaShift, Inv;
    ghost var all := publicInputs + limbs;
    ghost var nums := DeltaNumerators(all, beta, gamma, offset);
    ghost var dens := DeltaDenominators(all, beta, gamma, offset);
    var n := |publicInputs|;
    var numerator, denominator := 1, 1;
    var numeratorAcc := gamma + beta * (0x1000_0000 + offset);
    var denominatorAcc := gamma - beta * (offset + 1);
    DeltaStart(nums, dens, beta, gamma, offset);
    for i := 0 to n
      invariant numerator == Product(nums[..i]) && denominator == Product(dens[..i])
      invariant numeratorAcc == IdShift(beta, gamma, offset, i)
      invariant denominatorAcc == SigmaShift(beta, gamma, offset, i)
    {
      DeltaStep(nums, dens, beta, gamma, offset, i);
      numerator := numerator * (numeratorAcc + publicInputs[i]);
      denominator := denominator * (denominatorAcc + publicInputs[i]);
      numeratorAcc := numeratorAcc + beta;
      denominatorAcc := denominatorAcc - beta;
    }
    for j := 0 to |limbs|
      invariant numerator == Product(nums[..n + j]) && denominator == Product(dens[..n + j])
      invariant numeratorAcc == IdShift(beta, gamma, offset, n + j)
      invariant denominatorAcc == SigmaShift(beta, gamma, offset, n + j)
    {
      DeltaStep(nums, dens, beta, gamma, offset, n + j);
      numerator := numerator * (numeratorAcc + limbs[j]);
      denominator := denominator * (denominatorAcc + limbs[j]);
      numeratorAcc := numeratorAcc + beta;
      denominatorAcc := denominatorAcc - beta;
    }
    assert nums[..|all|] == nums && dens[..|all|] == dens;
    ProductZero(p, dens);
    if Eq(p, denominator, 0) {
      return Err("denominator is zero in public_input_delta");
    }
    var inverse := Inv(p, denominator);
    RatioTimesDenominator(p, numerator, denominator);
    return Ok(numerator * inverse);
  }

  lemma DeltaStart(nums: seq<Fr>, dens: seq<Fr>, beta: Fr, gamma: Fr, offset: nat)
    ensures Product(nums[..0]) == Product(dens[..0]) == 1
    ensures gamma + beta * (0x1000_0000 + offset) == IdShift(beta, gamma, offset, 0)
    ensures gamma - beta * (offset + 1) == SigmaShift(beta, gamma, offset, 0)
  {
  }

  lemma DeltaStep(nums: seq<Fr>, dens: seq<Fr>, beta: Fr, gamma: Fr, offset: nat, i: nat)
    requires i < |nums| == |dens|
    ensures Product(nums[..i + 1]) == Product(nums[..i]) * nums[i]
    ensures Product(dens[..i + 1]) == Product(dens[..i]) * dens[i]
    ensures IdShift(beta, gamma, offset, i + 1) == IdShift(beta, gamma, offset, i) + beta
    ensures SigmaShift(beta, gamma, offset, i + 1) == SigmaShift(beta, gamma, offset, i) - beta
  {
    ProductStep(nums, i);
    ProductStep(dens, i);
    ShiftStep(beta, gamma, offset, i);
  }

  lemma RatioTimesDenominator(p: Prime, n: Fr, d: Fr)
    requires !Eq(p, d, 0)
    ensures Eq(p, n, (n * Inv(p, d)) * d)
  {
    hide Eq, Inv;
    InvIsInverse(p, d);
    EqScale(p, n, Inv(p, d) * d, 1);
    Assoc(n, Inv(p, d), d);
    EqSym(p, (n * Inv(p, d)) * d, n);
  }

  lemma DeltaBalances(p: Prime, rows: seq<Row>, rp: Parameters, seps: seq<Fr>, nums: Fr, dens: Fr)
    requires |rows| == |seps| > 0 && IsTrace(p, rows)
    requires forall i :: 0 <= i < |rows| ==> RowHolds(p, rows[i], rp, seps[i])
    requires Eq(p, nums, rp.delta * dens)
    ensures Eq(p, Numerators(rows, rp) * dens, nums * Denominators(rows, rp))
  {
    hide *;
    var n, d := Numerators(rows, rp), Denominators(rows, rp);
    PermutationTelescopes(p, rows, rp, seps);
    EqScale(p, dens, n, rp.delta * d);
    Swap(rp.delta, d, dens);
    EqScale(p, d, nums, rp.delta * dens);
    EqSym(p, nums * d, (rp.delta * dens) * d);
    EqTrans(p, n * dens, (rp.delta * dens) * d, nums * d);
  }

  /** A trace on every row of which the permutation subrelations vanish under these parameters. */
  ghost predicate PermutationHolds(p: Prime, rows: seq<Row>, rp: Parameters, seps: seq<Fr>) {
    && |rows| == |seps| > 0 && IsTrace(p, rows)
    && forall i :: 0 <= i < |rows| ==> RowHolds(p, rows[i], rp, seps[i])
  }

  /** The products of the trace and of the public inputs followed by the limbs balance each other. */
  ghost predicate Balanced(p: Prime, rows: seq<Row>, rp: Parameters, inputs: seq<Fr>, offset: nat) {
    Eq(p, Numerators(rows, rp) * Product(DeltaDenominators(inputs, rp.beta, rp.gamma, offset)),
       Product(DeltaNumerators(inputs, rp.beta, rp.gamma, offset)) * Denominators(rows, rp))
  }

  /**
   The step of `verify` that completes the relation parameters: under the parameters it answers, every
   trace whose permutation subrelations vanish balances the public inputs and the accumulator limbs.
   */
  method CompleteParameters(p: Prime, publicInputs: seq<Fr>, limbs: seq<Fr>, beta: Fr, gamma: Fr, offset: nat)
    returns (r: Result<Parameters>)
    ensures r.Ok? ==> r.value.beta == beta && r.value.gamma == gamma
    ensures r.Ok? ==>
              forall rows, seps :: PermutationHolds(p, rows, r.value, seps) ==>
                Balanced(p, rows, r.value, publicInputs + limbs, offset)
    ensures r.Ok? <==> forall i :: 0 <= i < |publicInputs + limbs| ==>
                         !Eq(p, DeltaDenominators(publicInputs + limbs, beta, gamma, offset)[i], 0)
  {
    hide Eq, Product, PermutationHolds, Balanced, DeltaNumerators, DeltaDenominators;
    var delta := ComputePublicInputDelta(p, publicInputs, limbs, beta, gamma, offset);
    if delta.Err? {
      return Err(delta.message);
    }
    var rp := Parameters(beta, gamma, delta.value);
    forall rows, seps | PermutationHolds(p, rows, rp, seps)
      ensures Balanced(p, rows, rp, publicInputs + limbs, offset)
    {
      PermutationWithPublicInputs(p, rows, rp, seps, publicInputs + limbs, offset);
    }
    return Ok(rp);
  }

  /** With delta the ratio of the public-input products, the wire products balance against them. */
  lemma PermutationWithPublicInputs(p: Prime, rows: seq<Row>, rp: Parameters, seps: seq<Fr>, inputs: seq<Fr>, offset: nat)
    requires PermutationHolds(p, rows, rp, seps)
    requires Eq(p, Product(DeltaNumerators(inputs, rp.beta, rp.gamma, offset)),
                rp.delta * Product(DeltaDenominators(inputs, rp.beta, rp.gamma, offset)))
    ensures Balanced(p, rows, rp, inputs, offset)
  {
    hide Eq, Product, RowHolds, IsTrace, DeltaNumerators, DeltaDenominators;
    DeltaBalances(p, rows, rp, seps, Product(DeltaNumerators(inputs, rp.beta, rp.gamma, offset)),
                  Product(DeltaDenominators(inputs, rp.beta, rp.gamma, offset)));
  }

  // ---------------------------------------------------------------- range relation

  function RangeProduct(d: Fr): Fr {
    d * (d - 1) * (d - 2) * (d - 3)
  }

  function Delta(r: Row, i: nat): Fr
    requires i < 4
  {
    if i == 0 then r[WR] - r[WL] else if i == 1 then r[WO] - r[WR]
    else if i == 2 then r[W4] - r[WO] else r[WL_SHIFT] - r[W4]
  }

  /** `accumulate_delta_range_relation` */
  method AccumulateDeltaRange(r: Row, evals: array<Fr>, domainSep: Fr)
    requires evals.Length == 29
    modifies evals
    ensures forall i :: 0 <= i < 4 ==> evals[8 + i] == RangeProduct(Delta(r, i)) * (r[Q_RANGE] * domainSep)
    ensures evals[..8] == old(evals[..8]) && evals[12..] == old(evals[12..])
  {
    var deltas := [r[WR] - r[WL], r[WO] - r[WR], r[W4] - r[WO], r[WL_SHIFT] - r[W4]];
    var negs := [-1, -2, -3];
    var qRangeDom := r[Q_RANGE] * domainSep;
    for i := 0 to 4
      invariant forall k :: 0 <= k < i ==> evals[8 + k] == RangeProduct(Delta(r, k)) * qRangeDom
      invariant evals[..8] == old(evals[..8]) && evals[12..] == old(evals[12..])
    {
      var acc := deltas[i];
      for j := 0 to 3
        invariant acc == if j == 0 then deltas[i]
                         else if j == 1 then deltas[i] * (deltas[i] - 1)
                         else if j == 2 then deltas[i] * (deltas[i] - 1) * (deltas[i] - 2)
                         else RangeProduct(deltas[i])
      {
        acc := acc * (deltas[i] + negs[j]);
      }
      evals[8 + i] := acc * qRangeDom;
    }
  }

  /** On an active row the range subrelation vanishes exactly for differences 0 to 3. */
  lemma RangeVanishesIff(p: Prime, d: Fr, selector: Fr)
    requires !Eq(p, selector, 0)
    ensures Eq(p, RangeProduct(d) * selector, 0)
       <==> Eq(p, d, 0) || Eq(p, d, 1) || Eq(p, d, 2) || Eq(p, d, 3)
  {
    hide Eq;
    EqDifference(p, d, 1);
    EqDifference(p, d, 2);
    EqDifference(p, d, 3);
    if Eq(p, RangeProduct(d) * selector, 0) {
      NoZeroDivisors(p, RangeProduct(d), selector);
      NoZeroDivisors(p, d * (d - 1) * (d - 2), d - 3);
      if !Eq(p, d - 3, 0) {
        NoZeroDivisors(p, d * (d - 1), d - 2);
        if !Eq(p, d - 2, 0) { NoZeroDivisors(p, d, d - 1); }
      }
    }
    if Eq(p, d, 0) || Eq(p, d, 1) || Eq(p, d, 2) || Eq(p, d, 3) {
      if Eq(p, d, 0) || Eq(p, d, 1) { ZeroFactor(p, d, d - 1); }
      if Eq(p, d * (d - 1), 0) || Eq(p, d, 2) { ZeroFactor(p, d * (d - 1), d - 2); }
      ZeroFactor(p, d * (d - 1) * (d - 2), d - 3);
      ZeroFactor(p, RangeProduct(d), selector);
    }
  }

  /** The wires in the order in which the range relation steps through them, four a row. */
  function WireAt(rows: seq<Row>, i: nat): Fr
    requires rows != [] && i <= 4 * |rows|
  {
    if i == 4 * |rows| then rows[|rows| - 1][WL_SHIFT] else rows[i / 4][WL + i % 4]
  }

  /** The shifted first wire is the next row's first wire. */
  ghost predicate Shifted(p: Prime, rows: seq<Row>) {
    forall i :: 0 <= i < |rows| - 1 ==> Eq(p, rows[i][WL_SHIFT], rows[i + 1][WL])
  }

  ghost predicate SmallStep(p: Prime, a: Fr, b: Fr) {
    Eq(p, b - a, 0) || Eq(p, b - a, 1) || Eq(p, b - a, 2) || Eq(p, b - a, 3)
  }

  ghost predicate RangeHolds(p: Prime, rows: seq<Row>, seps: seq<Fr>)
    requires |rows| == |seps|
  {
    forall i, k :: 0 <= i < |rows| && 0 <= k < 4 ==> Eq(p, RangeProduct(Delta(rows[i], k)) * (rows[i][Q_RANGE] * seps[i]), 0)
  }

  lemma DeltaIsStep(p: Prime, rows: seq<Row>, i: nat, k: nat)
    requires Shifted(p, rows) && i < |rows| && k < 4
    ensures Eq(p, WireAt(rows, 4 * i + k + 1) - WireAt(rows, 4 * i + k), Delta(rows[i], k))
  {
    hide Eq;
    var j := 4 * i + k;
    assert j / 4 == i && j % 4 == k;
    if k < 3 {
      assert (j + 1) / 4 == i && (j + 1) % 4 == k + 1;
      EqRefl(p, Delta(rows[i], k));
    } else if i == |rows| - 1 {
      EqRefl(p, Delta(rows[i], k));
    } else {
      assert (j + 1) / 4 == i + 1 && (j + 1) % 4 == 0;
      EqRefl(p, rows[i][W4]);
      EqSym(p, rows[i][WL_SHIFT], rows[i + 1][WL]);
      EqSub(p, rows[i + 1][WL], rows[i][WL_SHIFT], rows[i][W4], rows[i][W4]);
    }
  }

  lemma SameStep(p: Prime, a: Fr, b: Fr, d: Fr)
    requires Eq(p, b - a, d)
    ensures SmallStep(p, a, b) <==> Eq(p, d, 0) || Eq(p, d, 1) || Eq(p, d, 2) || Eq(p, d, 3)
  {
    hide Eq;
    EqSym(p, b - a, d);
    forall x ensures Eq(p, b - a, x) <==> Eq(p, d, x) {
      if Eq(p, b - a, x) { EqTrans(p, d, b - a, x); }
      if Eq(p, d, x) { EqTrans(p, b - a, d, x); }
    }
  }

  /** On consecutive active rows the range subrelations vanish exactly if no step from wire to wire exceeds 3. */
  lemma RangeRowsExactly(p: Prime, rows: seq<Row>, seps: seq<Fr>)
    requires |rows| == |seps| > 0 && Shifted(p, rows)
    requires forall i :: 0 <= i < |rows| ==> !Eq(p, rows[i][Q_RANGE] * seps[i], 0)
    ensures RangeHolds(p, rows, seps) <==> forall j :: 0 <= j < 4 * |rows| ==> SmallStep(p, WireAt(rows, j), WireAt(rows, j + 1))
  {
    hide Eq, Delta, RangeProduct, WireAt, SmallStep;
    forall i, k | 0 <= i < |rows| && 0 <= k < 4
      ensures Eq(p, RangeProduct(Delta(rows[i], k)) * (rows[i][Q_RANGE] * seps[i]), 0)
              <==> SmallStep(p, WireAt(rows, 4 * i + k), WireAt(rows, 4 * i + k + 1))
    {
      RangeVanishesIff(p, Delta(rows[i], k), rows[i][Q_RANGE] * seps[i]);
      DeltaIsStep(p, rows, i, k);
      SameStep(p, WireAt(rows, 4 * i + k), WireAt(rows, 4 * i + k + 1), Delta(rows[i], k));
    }
    forall j | 0 <= j < 4 * |rows| && RangeHolds(p, rows, seps) ensures SmallStep(p, WireAt(rows, j), WireAt(rows, j + 1)) {
      var i, k := j / 4, j % 4;
      assert j == 4 * i + k && Eq(p, RangeProduct(Delta(rows[i], k)) * (rows[i][Q_RANGE] * seps[i]), 0);
    }
  }

  ghost predicate Ahead(p: Prime, a: Fr, b: Fr, t: nat) {
    Eq(p, b, a + t)
  }

  /** Then the wires climb: the one at place j exceeds the first by at most 3 j. */
  lemma {:induction false} RangeClimbs(p: Prime, rows: seq<Row>, j: nat)
    requires rows != [] && j <= 4 * |rows|
    requires forall i :: 0 <= i < 4 * |rows| ==> SmallStep(p, WireAt(rows, i), WireAt(rows, i + 1))
    ensures exists t: nat :: t <= 3 * j && Ahead(p, WireAt(rows, 0), WireAt(rows, j), t)
  {
    hide Eq, WireAt;
    if j == 0 {
      EqRefl(p, WireAt(rows, 0) + 0);
      assert Ahead(p, WireAt(rows, 0), WireAt(rows, 0), 0);
    } else {
      RangeClimbs(p, rows, j - 1);
      var t: nat :| t <= 3 * (j - 1) && Ahead(p, WireAt(rows, 0), WireAt(rows, j - 1), t);
      var a, b := WireAt(rows, j - 1), WireAt(rows, j);
      assert SmallStep(p, a, WireAt(rows, j - 1 + 1));
      var d: nat := if Eq(p, b - a, 0) then 0 else if Eq(p, b - a, 1) then 1 else if Eq(p, b - a, 2) then 2 else 3;
      EqAdd(p, b - a, d, a, WireAt(rows, 0) + t);
      assert Ahead(p, WireAt(rows, 0), b, t + d);
    }
  }

  // ---------------------------------------------------------------------- batching

  /**
   `scale_and_batch_subrelations`: with successive powers of one challenge as weights, the batched
   value is the polynomial whose coefficients are the subrelation values.
   */
  method ScaleAndBatch(evals: seq<Fr>, alphas: seq<Fr>, ghost alpha: Fr) returns (r: Fr)
    requires |evals| == |alphas| + 1
    requires forall k :: 0 <= k < |alphas| ==> alphas[k] == Power(alpha, k + 1)
    ensures r == Eval(evals, alpha)
  {
    r := evals[0];
    assert Eval([], alpha) == 0 && evals[..1] == [evals[0]];
    for i := 1 to |evals|
      invariant r == Eval(evals[..i], alpha)
    {
      EvalAppend(evals[..i], evals[i], alpha);
      assert evals[..i + 1] == evals[..i] + [evals[i]];
      r := r + evals[i] * alphas[i - 1];
    }
    assert evals[..|evals|] == evals;
  }

  lemma {:induction false} EvalAppend(c: Poly, last: Fr, x: Fr)
    ensures Eval(c + [last], x) == Eval(c, x) + last * Power(x, |c|)
  {
    if c == [] {
      assert ([] + [last])[1..] == [];
    } else {
      EvalAppend(c[1..], last, x);
      assert (c + [last])[1..] == c[1..] + [last];
      Distributes(x, Eval(c[1..], x), last * Power(x, |c| - 1));
      Swap(x, last, Power(x, |c| - 1));
    }
  }

  /** Batching hides a violated subrelation for fewer challenges than there are subrelations. */
  lemma BatchingSeparates(p: Prime, evals: seq<Fr>, alphas: seq<Fr>)
    requires Distinct(p, alphas)
    requires forall i :: 0 <= i < |alphas| ==> Eq(p, Eval(evals, alphas[i]), 0)
    requires exists j :: 0 <= j < |evals| && !Eq(p, evals[j], 0)
    ensures |alphas| < |evals|
  {
    hide Eq;
    if |alphas| >= |evals| {
      var roots := alphas[..|evals|];
      CoefficientsVanish(p, evals, roots);
    }
  }

  lemma {:induction false} CoefficientsVanish(p: Prime, c: Poly, roots: seq<Fr>)
    requires |roots| == |c| && Distinct(p, roots) && VanishesAt(p, c, roots)
    ensures forall j :: 0 <= j < |c| ==> Eq(p, c[j], 0)
    decreases |c|
  {
    hide Eq;
    if c != [] {
      TooManyRoots(p, c, roots, 0);
      assert Eval(c, 0) == c[0];
      var rest := DropZero(p, c, roots);
      CoefficientsVanish(p, c[1..], rest);
      forall j | 0 <= j < |c| ensures Eq(p, c[j], 0) {
        if j > 0 { assert c[j] == c[1..][j - 1]; }
      }
    }
  }

  /** Dropping the root 0, if there is one, leaves roots of the remaining coefficients. */
  lemma DropZero(p: Prime, c: Poly, roots: seq<Fr>) returns (rest: seq<Fr>)
    requires c != [] && |roots| == |c| && Distinct(p, roots) && VanishesAt(p, c, roots)
    requires Eq(p, c[0], 0)
    ensures |rest| == |c| - 1 && Distinct(p, rest) && VanishesAt(p, c[1..], rest)
  {
    hide Eq;
    var z := if exists k :: 0 <= k < |roots| && Eq(p, roots[k], 0)
             then var k :| 0 <= k < |roots| && Eq(p, roots[k], 0); k else 0;
    rest := Others(roots, z);
    forall i | 0 <= i < |rest|
      ensures Eq(p, Eval(c[1..], rest[i]), 0)
    {
      var k := if i < z then i else i + 1;
      var x := roots[k];
      assert rest[i] == x && !Eq(p, x, 0) by { OnlyOneZero(p, roots, z, k); }
      EqSub(p, Eval(c, x), 0, c[0], 0);
      NoZeroDivisors(p, x, Eval(c[1..], x));
    }
    DistinctOthers(p, roots, z);
  }

  lemma OnlyOneZero(p: Prime, roots: seq<Fr>, z: nat, k: nat)
    requires z < |roots| && k < |roots| && k != z && Distinct(p, roots)
    requires (exists j :: 0 <= j < |roots| && Eq(p, roots[j], 0)) ==> Eq(p, roots[z], 0)
    ensures !Eq(p, roots[k], 0)
  {
    hide Eq;
    if Eq(p, roots[k], 0) {
      EqSym(p, roots[z], 0);
      EqTrans(p, roots[k], 0, roots[z]);
      EqSym(p, roots[k], roots[z]);
    }
  }

  lemma DistinctOthers(p: Prime, xs: seq<Fr>, z: nat)
    requires z < |xs| && Distinct(p, xs)
    ensures Distinct(p, Others(xs, z))
  {
    hide Eq;
    var o := Others(xs, z);
    forall i, j | 0 <= i < j < |o|
      ensures !Eq(p, o[i], o[j])
    {
      var i', j' := if i < z then i else i + 1, if j < z then j else j + 1;
      assert o[i] == xs[i'] && o[j] == xs[j'] && i' < j';
    }
  }
}
