/** From rows to one sum: the separated, batched relation over the cube, and what its vanishing says. */
module ZeroCheck {
  import opened Field
  import opened Polynomial
  import opened Sumcheck
  import opened GateSeparator
  import Relations

  // ------------------------------------------------------------------ the cube, row by row

  ghost function RowSum(h: nat -> Fr, rows: nat): Fr {
    if rows == 0 then 0 else RowSum(h, rows - 1) + h(rows - 1)
  }

  lemma {:induction false} EvenAndOdd(h: nat -> Fr, even: nat -> Fr, odd: nat -> Fr, rows: nat)
    requires forall k :: 0 <= k < rows ==> even(k) == h(2 * k) && odd(k) == h(2 * k + 1)
    ensures RowSum(h, 2 * rows) == RowSum(even, rows) + RowSum(odd, rows)
  {
    if rows > 0 {
      EvenAndOdd(h, even, odd, rows - 1);
      assert RowSum(h, 2 * rows) == RowSum(h, 2 * rows - 1) + h(2 * rows - 1);
      assert RowSum(h, 2 * rows - 1) == RowSum(h, 2 * (rows - 1)) + h(2 * (rows - 1));
    }
  }

  /** The row of a cube point after a prefix. */
  function AtRow(f: seq<Fr> -> Fr, pre: seq<Fr>, m: nat): nat -> Fr {
    (k: nat) => f(pre + Bits(m, k))
  }

  lemma SplitRow(f: seq<Fr> -> Fr, pre: seq<Fr>, m: nat, k: nat)
    requires m > 0
    ensures AtRow(f, pre, m)(2 * k) == AtRow(f, pre + [0], m - 1)(k)
    ensures AtRow(f, pre, m)(2 * k + 1) == AtRow(f, pre + [1], m - 1)(k)
  {
    assert (2 * k) % 2 == 0 && (2 * k) / 2 == k && (2 * k + 1) % 2 == 1 && (2 * k + 1) / 2 == k;
    assert pre + Bits(m, 2 * k) == (pre + [0]) + Bits(m - 1, k);
    assert pre + Bits(m, 2 * k + 1) == (pre + [1]) + Bits(m - 1, k);
  }

  lemma SinglePoint(f: seq<Fr> -> Fr, pre: seq<Fr>)
    ensures RowSum(AtRow(f, pre, 0), 1) == f(pre)
  {
    assert pre + Bits(0, 0) == pre;
    assert RowSum(AtRow(f, pre, 0), 0) == 0;
  }

  lemma Doubled(m: nat)
    ensures Pow2(0) == 1 && Pow2(m + 1) == 2 * Pow2(m)
  {
  }

  /** The points of the cube are the bits of the row numbers. */
  lemma {:induction false} CubeIsRows(f: seq<Fr> -> Fr, pre: seq<Fr>, m: nat)
    ensures CubeSum(f, pre, m) == RowSum(AtRow(f, pre, m), Pow2(m))
    decreases m
  {
    hide RowSum, AtRow, Pow2, Bits, CubeSum;
    if m == 0 {
      Doubled(0);
      SinglePoint(f, pre);
      CubeSumNone(f, pre);
    } else {
      CubeIsRows(f, pre + [0], m - 1);
      CubeIsRows(f, pre + [1], m - 1);
      forall k | 0 <= k < Pow2(m - 1)
        ensures AtRow(f, pre + [0], m - 1)(k) == AtRow(f, pre, m)(2 * k)
        ensures AtRow(f, pre + [1], m - 1)(k) == AtRow(f, pre, m)(2 * k + 1)
      {
        SplitRow(f, pre, m, k);
      }
      EvenAndOdd(AtRow(f, pre, m), AtRow(f, pre + [0], m - 1), AtRow(f, pre + [1], m - 1), Pow2(m - 1));
      Doubled(m - 1);
      CubeSumStep(f, pre, m - 1);
    }
  }

  // ------------------------------------------------------------------- the batched relation

  /** The one subrelation without the gate separator: the lookup sum, which need not vanish row by row. */
  const LOOKUP_SUM: nat := 4

  /** The subrelation values at a point, each but the lookup sum times the separator. */
  function Weighted(values: seq<Fr>, pow: Fr): (w: seq<Fr>)
    ensures |w| == |values|
  {
    seq(|values|, j requires 0 <= j < |values| => if j == LOOKUP_SUM then values[j] else values[j] * pow)
  }

  /** What the sumcheck sums: the batched subrelations at a point, with the separator there. */
  function Batched(subs: seq<Fr> -> seq<Fr>, gates: seq<Fr>, alpha: Fr): seq<Fr> -> Fr {
    us => if |us| == |gates| then Eval(Weighted(subs(us), PowAfter(gates, us, |us|)), alpha) else 0
  }

  /** `m` subrelations on each of the `2^n` rows. */
  ghost predicate Sized(subs: seq<Fr> -> seq<Fr>, n: nat, m: nat) {
    forall k: nat :: k < Pow2(n) ==> |subs(Bits(n, k))| == m
  }

  /** Subrelation `j` on the rows. */
  function Column(subs: seq<Fr> -> seq<Fr>, n: nat, j: nat): nat -> Fr {
    (k: nat) => if j < |subs(Bits(n, k))| then subs(Bits(n, k))[j] else 0
  }

  function Separated(h: nat -> Fr, g: Fr): nat -> Fr {
    (k: nat) => h(k) * Power(g, k)
  }

  /** What the first rows contribute to the coefficient of subrelation `j`. */
  ghost function Coefficient(subs: seq<Fr> -> seq<Fr>, n: nat, g: Fr, j: nat, rows: nat): Fr {
    if j == LOOKUP_SUM then RowSum(Column(subs, n, j), rows) else RowSum(Separated(Column(subs, n, j), g), rows)
  }

  ghost function Coefficients(subs: seq<Fr> -> seq<Fr>, n: nat, m: nat, g: Fr, rows: nat): (c: Poly)
    ensures |c| == m
  {
    seq(m, j requires 0 <= j < m => Coefficient(subs, n, g, j, rows))
  }

  lemma RowAdds(subs: seq<Fr> -> seq<Fr>, n: nat, m: nat, g: Fr, rows: nat)
    requires Sized(subs, n, m) && rows < Pow2(n)
    ensures Coefficients(subs, n, m, g, rows + 1)
            == Add(Coefficients(subs, n, m, g, rows), Weighted(subs(Bits(n, rows)), Power(g, rows)))
  {
    var before, more := Coefficients(subs, n, m, g, rows), Weighted(subs(Bits(n, rows)), Power(g, rows));
    forall j | 0 <= j < m ensures Coefficients(subs, n, m, g, rows + 1)[j] == Add(before, more)[j] {
      AddAt(before, more, j);
    }
  }

  lemma {:induction false} AddAt(c: Poly, d: Poly, j: nat)
    requires j < |c| == |d|
    ensures Add(c, d)[j] == c[j] + d[j]
  {
    if j > 0 { AddAt(c[1..], d[1..], j - 1); }
  }

  lemma {:induction false} EvalZeros(c: Poly, x: Fr)
    requires forall j :: 0 <= j < |c| ==> c[j] == 0
    ensures Eval(c, x) == 0
  {
    if c != [] { EvalZeros(c[1..], x); }
  }

  /** The value of the batched relation on a row. */
  lemma BatchedAtRow(subs: seq<Fr> -> seq<Fr>, gates: seq<Fr>, g: Fr, alpha: Fr, k: nat)
    requires RepeatedSquares(g, gates) && k < Pow2(|gates|)
    ensures |Bits(|gates|, k)| == |gates|
    ensures Batched(subs, gates, alpha)(Bits(|gates|, k)) == Eval(Weighted(subs(Bits(|gates|, k)), Power(g, k)), alpha)
  {
    IndicatorAtRow(|gates|, k, k);
    SeparatorIsPowerExtension(g, gates, Bits(|gates|, k));
    ExtensionAtRow(|gates|, k, g);
  }

  lemma {:induction false} RowsBatch(subs: seq<Fr> -> seq<Fr>, gates: seq<Fr>, m: nat, g: Fr, alpha: Fr, rows: nat)
    requires RepeatedSquares(g, gates) && Sized(subs, |gates|, m) && rows <= Pow2(|gates|)
    ensures RowSum(AtRow(Batched(subs, gates, alpha), [], |gates|), rows)
            == Eval(Coefficients(subs, |gates|, m, g, rows), alpha)
  {
    hide RepeatedSquares, Batched, Eval, Weighted, Coefficient, Sized;
    var n := |gates|;
    if rows == 0 {
      NoRows(subs, n, m, g);
      EvalZeros(Coefficients(subs, n, m, g, 0), alpha);
    } else {
      RowsBatch(subs, gates, m, g, alpha, rows - 1);
      BatchedAtRow(subs, gates, g, alpha, rows - 1);
      assert [] + Bits(n, rows - 1) == Bits(n, rows - 1);
      RowAdds(subs, n, m, g, rows - 1);
      SizedAt(subs, n, m, rows - 1);
      EvalAdd(Coefficients(subs, n, m, g, rows - 1), Weighted(subs(Bits(n, rows - 1)), Power(g, rows - 1)), alpha);
    }
  }

  lemma NoRows(subs: seq<Fr> -> seq<Fr>, n: nat, m: nat, g: Fr)
    ensures forall j :: 0 <= j < m ==> Coefficients(subs, n, m, g, 0)[j] == 0
  {
  }

  lemma SizedAt(subs: seq<Fr> -> seq<Fr>, n: nat, m: nat, k: nat)
    requires Sized(subs, n, m) && k < Pow2(n)
    ensures |subs(Bits(n, k))| == m
  {
  }

  /**
   The sum over the cube is a polynomial in the batching challenge. Its coefficients are, for the lookup
   sum, the sum over the rows, and for every other subrelation the polynomial whose coefficients are its
   values on the rows, at the gate challenge.
   */
  lemma CubeSumIsBatch(subs: seq<Fr> -> seq<Fr>, gates: seq<Fr>, m: nat, g: Fr, alpha: Fr)
    requires RepeatedSquares(g, gates) && Sized(subs, |gates|, m)
    ensures CubeSum(Batched(subs, gates, alpha), [], |gates|)
            == Eval(Coefficients(subs, |gates|, m, g, Pow2(|gates|)), alpha)
    ensures forall j :: 0 <= j < m && j != LOOKUP_SUM ==>
              Coefficients(subs, |gates|, m, g, Pow2(|gates|))[j] == Eval(Values(subs, |gates|, j), g)
  {
    hide RepeatedSquares, Batched, Eval, Sized, CubeSum, RowSum;
    CubeIsRows(Batched(subs, gates, alpha), [], |gates|);
    RowsBatch(subs, gates, m, g, alpha, Pow2(|gates|));
    forall j | 0 <= j < m && j != LOOKUP_SUM
      ensures Coefficients(subs, |gates|, m, g, Pow2(|gates|))[j] == Eval(Values(subs, |gates|, j), g)
    {
      ColumnIsPolynomial(Column(subs, |gates|, j), Values(subs, |gates|, j), g, Pow2(|gates|));
    }
  }

  /** The values of subrelation `j` on all rows. */
  function Values(subs: seq<Fr> -> seq<Fr>, n: nat, j: nat): (c: Poly)
    ensures |c| == Pow2(n)
  {
    seq(Pow2(n), k requires 0 <= k < Pow2(n) => Column(subs, n, j)(k))
  }

  lemma {:induction false} ColumnIsPolynomial(h: nat -> Fr, c: Poly, g: Fr, rows: nat)
    requires rows <= |c| && forall k :: 0 <= k < |c| ==> c[k] == h(k)
    ensures RowSum(Separated(h, g), rows) == Eval(c[..rows], g)
    ensures rows == |c| ==> RowSum(Separated(h, g), rows) == Eval(c, g)
  {
    hide Eval;
    if rows == 0 {
      EvalZeros(c[..0], g);
    } else {
      ColumnIsPolynomial(h, c, g, rows - 1);
      assert c[..rows] == c[..rows - 1] + [c[rows - 1]];
      Relations.EvalAppend(c[..rows - 1], c[rows - 1], g);
    }
    assert c[..|c|] == c;
  }

  // ------------------------------------------------------------------------ the zero check

  /** The gate challenges of one challenge. */
  function Squares(g: Fr, n: nat): (gates: seq<Fr>)
    ensures |gates| == n && RepeatedSquares(g, gates)
  {
    seq(n, k requires 0 <= k < n => Power(g, Pow2(k)))
  }

  /** The claim that the sumcheck starts from, at one gate challenge and one batching challenge. */
  ghost predicate SumsToZero(p: Prime, subs: seq<Fr> -> seq<Fr>, n: nat, g: Fr, alpha: Fr) {
    Eq(p, CubeSum(Batched(subs, Squares(g, n), alpha), [], n), 0)
  }

  ghost predicate RowsHold(p: Prime, subs: seq<Fr> -> seq<Fr>, n: nat, m: nat) {
    forall j: nat, k: nat :: j < m && j != LOOKUP_SUM && k < Pow2(n) ==> Eq(p, Values(subs, n, j)[k], 0)
  }

  /** Every subrelation vanishes on every row, but the lookup sum only over all rows together. */
  ghost predicate Satisfied(p: Prime, subs: seq<Fr> -> seq<Fr>, n: nat, m: nat) {
    && RowsHold(p, subs, n, m)
    && (LOOKUP_SUM < m ==> Eq(p, RowSum(Column(subs, n, LOOKUP_SUM), Pow2(n)), 0))
  }

  lemma {:induction false} ZeroPolynomial(p: Prime, c: Poly, x: Fr)
    requires forall j :: 0 <= j < |c| ==> Eq(p, c[j], 0)
    ensures Eq(p, Eval(c, x), 0)
  {
    hide Eq;
    if c == [] {
      EqRefl(p, 0);
    } else {
      ZeroPolynomial(p, c[1..], x);
      ZeroFactor(p, x, Eval(c[1..], x));
      EqAdd(p, c[0], 0, x * Eval(c[1..], x), 0);
    }
  }

  /** Completeness: a satisfied circuit sums to zero at all challenges. */
  lemma SatisfiedSumsToZero(p: Prime, subs: seq<Fr> -> seq<Fr>, n: nat, m: nat, g: Fr, alpha: Fr)
    requires Sized(subs, n, m) && Satisfied(p, subs, n, m)
    ensures SumsToZero(p, subs, n, g, alpha)
  {
    hide Eq, Eval, CubeSum, RowSum, Batched, Sized, Squares, Values;
    var c := Coefficients(subs, n, m, g, Pow2(n));
    CubeSumIsBatch(subs, Squares(g, n), m, g, alpha);
    forall j | 0 <= j < m ensures Eq(p, c[j], 0) {
      if j != LOOKUP_SUM { ZeroPolynomial(p, Values(subs, n, j), g); }
    }
    ZeroPolynomial(p, c, alpha);
  }

  /** One nonzero coefficient leaves fewer batching challenges than subrelations. */
  lemma FewBatchings(p: Prime, subs: seq<Fr> -> seq<Fr>, n: nat, m: nat, g: Fr, alphas: seq<Fr>, j: nat)
    requires Sized(subs, n, m) && Distinct(p, alphas) && j < m
    requires forall i :: 0 <= i < |alphas| ==> SumsToZero(p, subs, n, g, alphas[i])
    requires !Eq(p, Coefficients(subs, n, m, g, Pow2(n))[j], 0)
    ensures |alphas| < m
  {
    hide Eq, Eval, CubeSum, Coefficient, Batched, Sized, Squares, Distinct;
    var c := Coefficients(subs, n, m, g, Pow2(n));
    forall i | 0 <= i < |alphas| ensures Eq(p, Eval(c, alphas[i]), 0) {
      CubeSumIsBatch(subs, Squares(g, n), m, g, alphas[i]);
    }
    Relations.BatchingSeparates(p, c, alphas);
  }

  /**
   Soundness: when some row violates a subrelation, or the lookup sum is not zero, all but fewer than
   `2^n` gate challenges leave fewer than `m` batching challenges at which the cube sums to zero.
   */
  lemma FewBadChallenges(p: Prime, subs: seq<Fr> -> seq<Fr>, n: nat, m: nat, gs: seq<Fr>, alphas: seq<seq<Fr>>)
    requires Sized(subs, n, m) && !Satisfied(p, subs, n, m)
    requires Distinct(p, gs) && |alphas| == |gs|
    requires forall i :: 0 <= i < |gs| ==> Distinct(p, alphas[i]) && |alphas[i]| >= m
    requires forall i, l :: 0 <= i < |gs| && 0 <= l < |alphas[i]| ==> SumsToZero(p, subs, n, gs[i], alphas[i][l])
    ensures |gs| < Pow2(n)
  {
    hide Eq, Eval, CubeSum, RowSum, Sized, Distinct, SumsToZero, Values;
    if !RowsHold(p, subs, n, m) {
      var j: nat, k: nat :| j < m && j != LOOKUP_SUM && k < Pow2(n) && !Eq(p, Values(subs, n, j)[k], 0);
      forall i | 0 <= i < |gs| ensures Eq(p, Eval(Values(subs, n, j), gs[i]), 0) {
        CoefficientVanishes(p, subs, n, m, gs[i], alphas[i], j);
        CubeSumIsBatch(subs, Squares(gs[i], n), m, gs[i], 0);
      }
      Relations.BatchingSeparates(p, Values(subs, n, j), gs);
    } else if gs != [] {
      CoefficientVanishes(p, subs, n, m, gs[0], alphas[0], LOOKUP_SUM);
    }
  }

  lemma CoefficientVanishes(p: Prime, subs: seq<Fr> -> seq<Fr>, n: nat, m: nat, g: Fr, alphas: seq<Fr>, j: nat)
    requires Sized(subs, n, m) && Distinct(p, alphas) && |alphas| >= m && j < m
    requires forall l :: 0 <= l < |alphas| ==> SumsToZero(p, subs, n, g, alphas[l])
    ensures Eq(p, Coefficients(subs, n, m, g, Pow2(n))[j], 0)
  {
    hide *;
    if !Eq(p, Coefficients(subs, n, m, g, Pow2(n))[j], 0) {
      FewBatchings(p, subs, n, m, g, alphas, j);
    }
  }

  /**
   What an accepted sumcheck says of the circuit: unless some round was lucky, the batched relation
   sums to zero at the challenges, which by the above few challenges do for a circuit that is not
   satisfied.
   */
  lemma AcceptedSumsToZero(p: Prime, subs: seq<Fr> -> seq<Fr>, g: Fr, alpha: Fr, unis: seq<Univariate>, us: seq<Fr>)
    requires p > 7 && |unis| == |us| && RoundsPass(p, unis, us)
    requires var gates := Squares(g, |us|);
             Eq(p, Eval(Weighted(subs(us), PowAfter(gates, us, |us|)), alpha), Target(p, unis, us, |us|))
    ensures var f := Batched(subs, Squares(g, |us|), alpha);
            || SumsToZero(p, subs, |us|, g, alpha)
            || exists k :: 0 <= k < |us| && LuckyRound(p, f, us[..k], |us| - k - 1, unis[k], us[k])
  {
    hide Eq, Eval, CubeSum, Weighted, Squares, RoundsPass, PowAfter, Target, LuckyRound;
    var f := Batched(subs, Squares(g, |us|), alpha);
    if !SumsToZero(p, subs, |us|, g, alpha) {
      SumcheckSound(p, f, unis, us);
    }
  }
}
