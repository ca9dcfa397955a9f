/**
 The proof verifier as a whole: sumcheck, then the batch opening of the evaluations that the sumcheck
 ended with. What it accepts are columns that satisfy the circuit on every row, unless a challenge was
 lucky; and an honest prover of such columns is accepted.
 */
module Verifier {
  import opened Field
  import opened Polynomial
  import opened Sumcheck
  import opened GateSeparator
  import opened ZeroCheck
  import opened Shplemini
  import opened Gemini
  import opened Shplonk
  import HonestOpening
  import HonestVerifier
  import O = OpeningSound
  import R = Relations
  import W = Wiring
  import L = Lookup

  /** The subrelations, without separator, as functions of the values of the entities. */
  type Relation = seq<Fr> -> seq<Fr>

  ghost predicate SameEntries(p: Prime, a: seq<Fr>, b: seq<Fr>) {
    |a| == |b| && forall i :: 0 <= i < |a| ==> Eq(p, a[i], b[i])
  }

  /** `m` subrelations on field elements: which representatives are taken makes no difference. */
  ghost predicate IsRelation(p: Prime, rel: Relation, m: nat) {
    forall a, b :: |a| == ENTITIES && SameEntries(p, a, b) ==> |rel(a)| == m && SameEntries(p, rel(a), rel(b))
  }

  // --------------------------------------------------------------------------- the rows

  /** The values of all entities on row `k`: the shifted wires are those of the next row. */
  function RowValues(polys: seq<Poly>, n: nat, k: nat): (r: seq<Fr>)
    requires HonestOpening.Traces(polys, n) && k < Pow2(n)
    ensures |r| == ENTITIES
  {
    seq(ENTITIES, i requires 0 <= i < ENTITIES =>
      if i < UNSHIFTED then polys[i][k]
      else if k + 1 < Pow2(n) then polys[i - UNSHIFTED + FIRST_SHIFTABLE][k + 1] else 0)
  }

  function LookupTotal(rel: Relation, polys: seq<Poly>, n: nat, rows: nat): Fr
    requires HonestOpening.Traces(polys, n) && rows <= Pow2(n)
    requires forall k :: 0 <= k < rows ==> |rel(RowValues(polys, n, k))| > LOOKUP_SUM
  {
    if rows == 0 then 0 else LookupTotal(rel, polys, n, rows - 1) + rel(RowValues(polys, n, rows - 1))[LOOKUP_SUM]
  }

  ghost predicate RowsVanish(p: Prime, rel: Relation, m: nat, polys: seq<Poly>, n: nat)
    requires HonestOpening.Traces(polys, n)
  {
    && (forall k :: 0 <= k < Pow2(n) ==> |rel(RowValues(polys, n, k))| == m)
    && (forall k, j :: 0 <= k < Pow2(n) && 0 <= j < m && j != LOOKUP_SUM ==> Eq(p, rel(RowValues(polys, n, k))[j], 0))
  }

  /** Every subrelation vanishes on every row, the lookup sum only in total. */
  ghost predicate CircuitHolds(p: Prime, rel: Relation, m: nat, polys: seq<Poly>, n: nat)
    requires HonestOpening.Traces(polys, n)
  {
    && RowsVanish(p, rel, m, polys, n)
    && (LOOKUP_SUM < m ==> Eq(p, LookupTotal(rel, polys, n, Pow2(n)), 0))
  }

  /** The subrelations of the multilinear extensions of the columns. */
  function Extended(rel: Relation, polys: seq<Poly>, n: nat): seq<Fr> -> seq<Fr>
    requires HonestOpening.Traces(polys, n)
  {
    us => rel(O.TrueValues(polys, us, n))
  }

  lemma {:induction false} SumAtRow(a: Poly, n: nat, k: nat, rows: nat)
    requires k < Pow2(n) && rows <= |a| == Pow2(n)
    ensures MultilinearSum(a, Bits(n, k), rows) == if k < rows then a[k] else 0
  {
    hide RowIndicator, Bits;
    if rows > 0 {
      SumAtRow(a, n, k, rows - 1);
      IndicatorAtRow(n, k, rows - 1);
      MultilinearTerm(a, Bits(n, k), rows - 1);
      assert 1 * a[rows - 1] == a[rows - 1] && 0 * a[rows - 1] == 0;
    }
  }

  /** On the bits of a row, the multilinear extensions take the values of that row. */
  lemma ValuesAtRow(polys: seq<Poly>, n: nat, k: nat)
    requires HonestOpening.Traces(polys, n) && k < Pow2(n)
    ensures O.TrueValues(polys, Bits(n, k), n) == RowValues(polys, n, k)
  {
    hide MultilinearSum, Bits, Pow2;
    forall i | 0 <= i < ENTITIES ensures O.TrueValues(polys, Bits(n, k), n)[i] == RowValues(polys, n, k)[i] {
      if i < UNSHIFTED {
        SumAtRow(polys[i], n, k, Pow2(n));
      } else {
        SumAtRow(HonestOpening.ShiftDown(polys[i - UNSHIFTED + FIRST_SHIFTABLE]), n, k, Pow2(n));
      }
    }
  }

  lemma RowsMatter(p: Prime, rel: Relation, m: nat, polys: seq<Poly>, n: nat)
    requires HonestOpening.Traces(polys, n) && IsRelation(p, rel, m)
    ensures Sized(Extended(rel, polys, n), n, m)
    ensures forall k :: 0 <= k < Pow2(n) ==> Extended(rel, polys, n)(Bits(n, k)) == rel(RowValues(polys, n, k))
  {
    hide Bits, Pow2, O.TrueValues, RowValues, Eq;
    forall k | 0 <= k < Pow2(n)
      ensures |rel(RowValues(polys, n, k))| == m
      ensures Extended(rel, polys, n)(Bits(n, k)) == rel(RowValues(polys, n, k))
    {
      ValuesAtRow(polys, n, k);
      SameItself(p, RowValues(polys, n, k));
    }
  }

  lemma SameItself(p: Prime, a: seq<Fr>)
    ensures SameEntries(p, a, a)
  {
    hide Eq;
    forall i | 0 <= i < |a| ensures Eq(p, a[i], a[i]) { EqRefl(p, a[i]); }
  }

  lemma {:induction false} TotalIsRowSum(p: Prime, rel: Relation, m: nat, polys: seq<Poly>, n: nat, rows: nat)
    requires HonestOpening.Traces(polys, n) && IsRelation(p, rel, m) && m > LOOKUP_SUM && rows <= Pow2(n)
    ensures forall k :: 0 <= k < rows ==> |rel(RowValues(polys, n, k))| > LOOKUP_SUM
    ensures RowSum(Column(Extended(rel, polys, n), n, LOOKUP_SUM), rows) == LookupTotal(rel, polys, n, rows)
  {
    hide Bits, RowValues, Extended, IsRelation;
    RowsMatter(p, rel, m, polys, n);
    forall k | 0 <= k < rows ensures |rel(RowValues(polys, n, k))| == m {
      SizedAt(Extended(rel, polys, n), n, m, k);
    }
    if rows > 0 {
      TotalIsRowSum(p, rel, m, polys, n, rows - 1);
    }
  }

  lemma ValueAtRow(p: Prime, rel: Relation, m: nat, polys: seq<Poly>, n: nat, k: nat, j: nat)
    requires HonestOpening.Traces(polys, n) && IsRelation(p, rel, m) && k < Pow2(n) && j < m
    ensures |rel(RowValues(polys, n, k))| == m
    ensures Values(Extended(rel, polys, n), n, j)[k] == rel(RowValues(polys, n, k))[j]
  {
    hide Bits, RowValues, IsRelation, Extended;
    var subs := Extended(rel, polys, n);
    RowsMatter(p, rel, m, polys, n);
    SizedAt(subs, n, m, k);
    assert subs(Bits(n, k)) == rel(RowValues(polys, n, k));
    assert Column(subs, n, j)(k) == subs(Bits(n, k))[j];
    assert Values(subs, n, j)[k] == Column(subs, n, j)(k);
  }

  lemma RowsVanishExactly(p: Prime, rel: Relation, m: nat, polys: seq<Poly>, n: nat)
    requires HonestOpening.Traces(polys, n) && IsRelation(p, rel, m)
    ensures RowsHold(p, Extended(rel, polys, n), n, m) <==> RowsVanish(p, rel, m, polys, n)
  {
    hide Bits, RowValues, Extended, IsRelation, Eq, Values, Pow2, HonestOpening.Traces;
    var subs := Extended(rel, polys, n);
    RowsMatter(p, rel, m, polys, n);
    forall k: nat | k < Pow2(n) ensures |rel(RowValues(polys, n, k))| == m {
      SizedAt(subs, n, m, k);
    }
    forall k: nat, j: nat | k < Pow2(n) && j < m
      ensures Values(subs, n, j)[k] == rel(RowValues(polys, n, k))[j]
    {
      ValueAtRow(p, rel, m, polys, n, k, j);
    }
    if RowsVanish(p, rel, m, polys, n) {
      forall j: nat, k: nat | j < m && j != LOOKUP_SUM && k < Pow2(n) ensures Eq(p, Values(subs, n, j)[k], 0) {
        assert Eq(p, rel(RowValues(polys, n, k))[j], 0);
      }
    }
    if RowsHold(p, subs, n, m) {
      forall k, j | 0 <= k < Pow2(n) && 0 <= j < m && j != LOOKUP_SUM ensures Eq(p, rel(RowValues(polys, n, k))[j], 0) {
        assert Eq(p, Values(subs, n, j)[k], 0);
      }
    }
  }

  /** The circuit of the committed columns is the zero check of their extensions. */
  lemma CircuitIsSatisfied(p: Prime, rel: Relation, m: nat, polys: seq<Poly>, n: nat)
    requires HonestOpening.Traces(polys, n) && IsRelation(p, rel, m)
    ensures Satisfied(p, Extended(rel, polys, n), n, m) <==> CircuitHolds(p, rel, m, polys, n)
  {
    hide Bits, RowValues, Extended, IsRelation, Eq, RowSum, LookupTotal, Values, Pow2, RowsHold, HonestOpening.Traces;
    RowsVanishExactly(p, rel, m, polys, n);
    if LOOKUP_SUM < m { TotalIsRowSum(p, rel, m, polys, n, Pow2(n)); }
  }

  // --------------------------------------------------------------------------- soundness

  lemma {:induction false} EvalSame(p: Prime, a: Poly, b: Poly, x: Fr)
    requires SameEntries(p, a, b)
    ensures Eq(p, Eval(a, x), Eval(b, x))
  {
    hide Eq;
    if a == [] {
      EqRefl(p, 0);
    } else {
      EvalSame(p, a[1..], b[1..], x);
      EqScale(p, x, Eval(a[1..], x), Eval(b[1..], x));
      EqAdd(p, a[0], b[0], x * Eval(a[1..], x), x * Eval(b[1..], x));
    }
  }

  lemma WeightedSame(p: Prime, a: seq<Fr>, b: seq<Fr>, pow: Fr)
    requires SameEntries(p, a, b)
    ensures SameEntries(p, ZeroCheck.Weighted(a, pow), ZeroCheck.Weighted(b, pow))
  {
    hide Eq;
    forall i | 0 <= i < |a| ensures Eq(p, ZeroCheck.Weighted(a, pow)[i], ZeroCheck.Weighted(b, pow)[i]) {
      EqScale(p, pow, a[i], b[i]);
    }
  }

  /** With the right evaluations, the verifier's last relation is the relation of the columns. */
  lemma RightEvaluations(p: Prime, rel: Relation, m: nat, polys: seq<Poly>, o: Opening, c: Challenges, n: nat, pow: Fr, alpha: Fr)
    requires WellSized(o, c, n) && HonestOpening.Traces(polys, n) && IsRelation(p, rel, m)
    requires HonestOpening.HonestEvaluations(p, polys, o, c, n)
    ensures Eq(p, Eval(ZeroCheck.Weighted(rel(o.evals), pow), alpha), Eval(ZeroCheck.Weighted(Extended(rel, polys, n)(c.us), pow), alpha))
  {
    hide Eq, Eval, ZeroCheck.Weighted, Multilinear, HonestOpening.ShiftDown;
    var t := O.TrueValues(polys, c.us, n);
    assert SameEntries(p, o.evals, t);
    WeightedSame(p, rel(o.evals), rel(t), pow);
    EvalSame(p, ZeroCheck.Weighted(rel(o.evals), pow), ZeroCheck.Weighted(rel(t), pow), alpha);
  }

  /** The gate or the batching challenge was a root of a nonzero polynomial of the columns. */
  ghost predicate LuckyBatching(p: Prime, subs: seq<Fr> -> seq<Fr>, n: nat, m: nat, g: Fr, alpha: Fr) {
    || Lucky(p, Coefficients(subs, n, m, g, Pow2(n)), alpha)
    || exists j: nat :: j < m && j != LOOKUP_SUM && Lucky(p, Values(subs, n, j), g)
  }

  lemma SatisfiedOrLucky(p: Prime, subs: seq<Fr> -> seq<Fr>, n: nat, m: nat, g: Fr, alpha: Fr)
    requires Sized(subs, n, m) && SumsToZero(p, subs, n, g, alpha)
    ensures Satisfied(p, subs, n, m) || LuckyBatching(p, subs, n, m, g, alpha)
  {
    hide Eq, Eval, CubeSum, RowSum, Batched, Sized, Squares, Values;
    var c := Coefficients(subs, n, m, g, Pow2(n));
    CubeSumIsBatch(subs, Squares(g, n), m, g, alpha);
    if !LuckyBatching(p, subs, n, m, g, alpha) {
      assert !Lucky(p, c, alpha) && ZeroPoly(p, c);
      forall j: nat | j < m && j != LOOKUP_SUM ensures ZeroPoly(p, Values(subs, n, j)) {
        assert Eq(p, c[j], 0) && !Lucky(p, Values(subs, n, j), g);
      }
      if LOOKUP_SUM < m { assert Eq(p, c[LOOKUP_SUM], 0); }
    }
  }

  /** Some round of the sumcheck was lucky. */
  ghost predicate LuckySumcheck(p: Prime, subs: seq<Fr> -> seq<Fr>, g: Fr, alpha: Fr, unis: seq<Univariate>, us: seq<Fr>)
    requires |unis| == |us|
  {
    exists k :: 0 <= k < |us|
                && LuckyRound(p, Batched(subs, Squares(g, |us|), alpha), us[..k], |us| - k - 1, unis[k], us[k])
  }

  /** Some challenge of the whole proof was lucky. */
  ghost predicate LuckyAnywhere(p: Prime, rel: Relation, m: nat, sent: O.Sent, o: Opening, c: Challenges, inv: seq<Fr>, n: nat,
                                tau: Fr, g: Fr, alpha: Fr, unis: seq<Univariate>)
    requires WellSized(o, c, n) && |inv| == 3 * n + 1 && HonestOpening.Traces(sent.polys, n) && |sent.folds| == n - 1
    requires |unis| == n
  {
    || O.LuckyProof(p, sent, o, c, inv, n, tau)
    || LuckySumcheck(p, Extended(rel, sent.polys, n), g, alpha, unis, c.us)
    || LuckyBatching(p, Extended(rel, sent.polys, n), n, m, g, alpha)
  }

  /** Both halves of the verifier accept. */
  ghost predicate Accepts(p: Prime, rel: Relation, o: Opening, c: Challenges, inv: seq<Fr>, n: nat, tau: Fr,
                          g: Fr, alpha: Fr, unis: seq<Univariate>)
    requires WellSized(o, c, n) && |inv| == 3 * n + 1 && |unis| == n
  {
    && RoundsPass(p, unis, c.us)
    && Eq(p, Eval(ZeroCheck.Weighted(rel(o.evals), PowAfter(Squares(g, n), c.us, n)), alpha), Target(p, unis, c.us, n))
    && Eq(p, OpeningEquation(o, c, inv, n, tau), 0)
  }

  /**
   Soundness of the whole verifier, for any subrelations and any number of rounds: if both halves accept,
   the committed columns satisfy the circuit on every row, or some challenge was lucky.
   */
  lemma AcceptedCircuitHolds(p: Prime, rel: Relation, m: nat, sent: O.Sent, o: Opening, c: Challenges, denoms: seq<Fr>,
                             inv: seq<Fr>, n: nat, tau: Fr, g: Fr, alpha: Fr, unis: seq<Univariate>)
    requires p > 7 && IsRelation(p, rel, m) && WellSized(o, c, n) && O.Committed(p, sent, o, c, n, tau)
    requires IsDenominators(c, n, denoms) && Inverses(p, denoms, inv) && |inv| == 3 * n + 1 && |unis| == n
    requires Accepts(p, rel, o, c, inv, n, tau, g, alpha, unis)
    ensures || CircuitHolds(p, rel, m, sent.polys, n)
            || LuckyAnywhere(p, rel, m, sent, o, c, inv, n, tau, g, alpha, unis)
  {
    hide Eq, Eval, OpeningEquation, IsDenominators, Inverses, RoundsPass, PowAfter, Target, Squares, IsRelation, Extended,
         O.LuckyProof, LuckySumcheck, LuckyBatching, CircuitHolds, Satisfied, Sized, SumsToZero, HonestOpening.HonestEvaluations,
         HonestOpening.Traces, ZeroCheck.Weighted;
    var subs, pow := Extended(rel, sent.polys, n), PowAfter(Squares(g, n), c.us, n);
    O.OpeningIsSound(p, sent, o, c, denoms, inv, n, tau);
    if !LuckyAnywhere(p, rel, m, sent, o, c, inv, n, tau, g, alpha, unis) {
      RightEvaluations(p, rel, m, sent.polys, o, c, n, pow, alpha);
      var ours, theirs := Eval(ZeroCheck.Weighted(subs(c.us), pow), alpha), Eval(ZeroCheck.Weighted(rel(o.evals), pow), alpha);
      EqSym(p, theirs, ours);
      EqTrans(p, ours, theirs, Target(p, unis, c.us, n));
      SumcheckSays(p, subs, g, alpha, unis, c.us);
      RowsMatter(p, rel, m, sent.polys, n);
      SatisfiedOrLucky(p, subs, n, m, g, alpha);
      CircuitIsSatisfied(p, rel, m, sent.polys, n);
    }
  }

  lemma SumcheckSays(p: Prime, subs: seq<Fr> -> seq<Fr>, g: Fr, alpha: Fr, unis: seq<Univariate>, us: seq<Fr>)
    requires p > 7 && |unis| == |us| && RoundsPass(p, unis, us)
    requires Eq(p, Eval(ZeroCheck.Weighted(subs(us), PowAfter(Squares(g, |us|), us, |us|)), alpha), Target(p, unis, us, |us|))
    requires !LuckySumcheck(p, subs, g, alpha, unis, us)
    ensures SumsToZero(p, subs, |us|, g, alpha)
  {
    hide Eq, Eval, RoundsPass, PowAfter, Target, Squares, ZeroCheck.Weighted, SumsToZero, LuckyRound, Batched;
    AcceptedSumsToZero(p, subs, g, alpha, unis, us);
  }

  // ------------------------------------------------------------------------ completeness

  /**
   Completeness: of columns that satisfy the circuit, the honest prover's messages are accepted by both
   halves, at all challenges that make no inverted value zero.
   */
  lemma HonestProofAccepted(p: Prime, rel: Relation, m: nat, polys: seq<Poly>, o: Opening, c: Challenges, denoms: seq<Fr>,
                            inv: seq<Fr>, n: nat, tau: Fr, g: Fr, alpha: Fr, unis: seq<Univariate>)
    requires p > 7 && IsRelation(p, rel, m) && WellSized(o, c, n) && HonestOpening.PolysFit(polys, n)
    requires IsDenominators(c, n, denoms) && Inverses(p, denoms, inv) && |inv| == 3 * n + 1 && |unis| == n
    requires HonestOpening.Honest(p, polys, o, c, inv, n, tau)
    requires var f := Batched(Extended(rel, polys, n), Squares(g, n), alpha); LowDegree(p, f, n) && AllHonest(f, unis, c.us)
    requires CircuitHolds(p, rel, m, polys, n)
    ensures Accepts(p, rel, o, c, inv, n, tau, g, alpha, unis)
  {
    hide Eq, Eval, OpeningEquation, IsDenominators, Inverses, RoundsPass, PowAfter, Target, Squares, IsRelation, Extended, CircuitHolds,
         Satisfied, Sized, HonestOpening.HonestEvaluations, HonestOpening.Traces, ZeroCheck.Weighted, CubeSum, AllHonest, LowDegree;
    var subs, gates, pow := Extended(rel, polys, n), Squares(g, n), PowAfter(Squares(g, n), c.us, n);
    RowsMatter(p, rel, m, polys, n);
    CircuitIsSatisfied(p, rel, m, polys, n);
    SatisfiedSumsToZero(p, subs, n, m, g, alpha);
    SumcheckComplete(p, Batched(subs, gates, alpha), unis, c.us);
    RightEvaluations(p, rel, m, polys, o, c, n, pow, alpha);
    EqTrans(p, Eval(ZeroCheck.Weighted(rel(o.evals), pow), alpha), Eval(ZeroCheck.Weighted(subs(c.us), pow), alpha),
            Target(p, unis, c.us, n));
    HonestOpening.HonestOpeningAccepted(p, polys, o, c, denoms, inv, n, tau);
  }

  // -------------------------------------------------------------------------- the wiring

  function RowsOf(polys: seq<Poly>, n: nat): (rows: seq<R.Row>)
    requires HonestOpening.Traces(polys, n)
    ensures |rows| == Pow2(n)
  {
    seq(Pow2(n), k requires 0 <= k < Pow2(n) => RowValues(polys, n, k))
  }

  /** The two columns of the circuit that mark its first and last row. */
  ghost predicate MarksEnds(polys: seq<Poly>, n: nat)
    requires HonestOpening.Traces(polys, n)
  {
    forall k :: 0 <= k < Pow2(n) ==>
      && polys[R.LAGRANGE_FIRST][k] == (if k == 0 then 1 else 0)
      && polys[R.LAGRANGE_LAST][k] == (if k == Pow2(n) - 1 then 1 else 0)
  }

  /** The first three subrelations are those of the permutation, as `accumulate_permutation_relation` writes them. */
  ghost predicate HasPermutation(rel: Relation, rp: R.Parameters) {
    forall r: R.Row ::
      && |rel(r)| > LOOKUP_SUM && rel(r)[0] == R.Recurrence(r, rp)
      && rel(r)[1] == r[R.LAGRANGE_LAST] * r[R.Z_PERM_SHIFT] && rel(r)[2] == r[R.LAGRANGE_FIRST] * r[R.Z_PERM]
  }

  /**
   Columns that satisfy the circuit balance the public inputs: at these challenges their wiring is
   provable, which few challenges allow of a broken one (`Wiring.BrokenCopyIsSeen`).
   */
  lemma CircuitIsWired(p: Prime, rel: Relation, m: nat, polys: seq<Poly>, n: nat, rp: R.Parameters, inputs: seq<Fr>, offset: nat)
    requires HonestOpening.Traces(polys, n) && CircuitHolds(p, rel, m, polys, n)
    requires MarksEnds(polys, n) && HasPermutation(rel, rp)
    requires Eq(p, Product(R.DeltaNumerators(inputs, rp.beta, rp.gamma, offset)),
                rp.delta * Product(R.DeltaDenominators(inputs, rp.beta, rp.gamma, offset)))
    ensures W.Provable(p, RowsOf(polys, n), inputs, offset, rp.beta, rp.gamma)
  {
    hide Eq, LookupTotal, R.Recurrence, Product, R.DeltaNumerators, R.DeltaDenominators;
    var rows, ones := RowsOf(polys, n), seq(Pow2(n), _ => 1);
    forall k | 0 <= k < |rows| ensures R.RowHolds(p, rows[k], rp, ones[k]) {
      RowIsWired(p, rel, m, polys, n, rp, k);
    }
    TraceOf(p, polys, n);
    assert R.PermutationHolds(p, rows, rp, ones);
    assert W.SameWires(rows, rows) && rp == R.Parameters(rp.beta, rp.gamma, rp.delta);
  }

  lemma RowIsWired(p: Prime, rel: Relation, m: nat, polys: seq<Poly>, n: nat, rp: R.Parameters, k: nat)
    requires HonestOpening.Traces(polys, n) && CircuitHolds(p, rel, m, polys, n) && HasPermutation(rel, rp) && k < Pow2(n)
    ensures R.RowHolds(p, RowsOf(polys, n)[k], rp, 1)
  {
    hide Eq, LookupTotal, R.Recurrence, RowValues;
    var r := RowValues(polys, n, k);
    assert RowsOf(polys, n)[k] == r;
    assert Eq(p, rel(r)[0], 0) && Eq(p, rel(r)[1], 0) && Eq(p, rel(r)[2], 0);
    SmallDistinct(p, 1, 0);
  }

  lemma TraceOf(p: Prime, polys: seq<Poly>, n: nat)
    requires HonestOpening.Traces(polys, n) && MarksEnds(polys, n)
    ensures R.IsTrace(p, RowsOf(polys, n))
  {
    hide Eq;
    var rows := RowsOf(polys, n);
    forall i | 0 <= i < |rows| - 1 ensures Eq(p, rows[i][R.Z_PERM_SHIFT], rows[i + 1][R.Z_PERM]) {
      EqRefl(p, rows[i + 1][R.Z_PERM]);
    }
  }

  // ------------------------------------------------------------------------- the lookups

  /** Two of the three lookup subrelations, as `accumulate_log_derivative_lookup_relation` writes them. */
  ghost predicate HasLookup(rel: Relation, rp: R.Parameters) {
    forall r: R.Row :: |rel(r)| > 5 && rel(r)[3] == L.InverseGap(r, rp) && rel(r)[4] == L.SumPart(r, rp)
  }

  lemma {:induction false} LookupTotals(rel: Relation, polys: seq<Poly>, n: nat, rp: R.Parameters, k: nat)
    requires HonestOpening.Traces(polys, n) && HasLookup(rel, rp) && k <= Pow2(n)
    requires forall i :: 0 <= i < k ==> |rel(RowValues(polys, n, i))| > LOOKUP_SUM
    ensures LookupTotal(rel, polys, n, k) == L.SumTotal(RowsOf(polys, n)[..k], rp)
  {
    hide RowValues, Pow2, L.SumPart, L.InverseGap;
    if k > 0 {
      LookupTotals(rel, polys, n, rp, k - 1);
      var rows := RowsOf(polys, n);
      assert rows[..k][..k - 1] == rows[..k - 1] && rows[..k][k - 1] == RowValues(polys, n, k - 1);
      var r: R.Row := RowValues(polys, n, k - 1);
      assert rel(r)[4] == L.SumPart(r, rp);
    }
  }

  /** In columns that satisfy the circuit every selected row looks up a listed entry, or a challenge was lucky. */
  lemma CircuitLooksUp(p: Prime, rel: Relation, m: nat, polys: seq<Poly>, n: nat, rp: R.Parameters, i: nat)
    requires HonestOpening.Traces(polys, n) && CircuitHolds(p, rel, m, polys, n) && HasLookup(rel, rp)
    requires L.Selectors(p, RowsOf(polys, n)) && i < Pow2(n) < p && Eq(p, RowsOf(polys, n)[i][L.Q_LOOKUP], 1)
    ensures var rows := RowsOf(polys, n);
            L.InTable(p, rows, L.Looked(rows[i])) || L.LuckyLookup(p, rows, rp, i)
  {
    hide Eq, RowValues, Pow2, L.SumPart, L.InverseGap, L.SumTotal, L.Selectors, L.Looked, LookupTotal;
    var rows := RowsOf(polys, n);
    forall k | 0 <= k < |rows| ensures Eq(p, L.InverseGap(rows[k], rp), 0) && |rel(RowValues(polys, n, k))| > LOOKUP_SUM {
      var r: R.Row := RowValues(polys, n, k);
      assert rows[k] == r && rel(r)[3] == L.InverseGap(r, rp);
      assert Eq(p, rel(RowValues(polys, n, k))[3], 0);
    }
    LookupTotals(rel, polys, n, rp, Pow2(n));
    assert rows[..Pow2(n)] == rows;
    RowsThere(n);
    assert LOOKUP_SUM < m by { assert |rel(RowValues(polys, n, 0))| == m; }
    L.LookedUpIsListed(p, rows, rp, i);
  }

  lemma RowsThere(n: nat)
    ensures Pow2(n) > 0
  {
  }

  /**
   The relations in terms of the columns of the proof: which column holds what on a row that is not the
   last, the steps of the wires being taken from the row after.
   */
  lemma RelationsOfColumns(polys: seq<Poly>, n: nat, k: nat)
    requires HonestOpening.Traces(polys, n) && k + 1 < Pow2(n)
    ensures var r := RowsOf(polys, n)[k];
            && W.IdCells(r) == [W.Cell(polys[28][k], polys[4][k]), W.Cell(polys[29][k], polys[5][k]),
                                W.Cell(polys[30][k], polys[6][k]), W.Cell(polys[31][k], polys[7][k])]
            && W.SigmaCells(r) == [W.Cell(polys[28][k], polys[0][k]), W.Cell(polys[29][k], polys[1][k]),
                                   W.Cell(polys[30][k], polys[2][k]), W.Cell(polys[31][k], polys[3][k])]
            && L.Listed(r) == L.Entry(polys[11][k], polys[12][k], polys[13][k], polys[14][k])
            && L.Looked(r) == L.Entry(polys[28][k] + polys[16][k] * polys[28][k + 1],
                                      polys[29][k] + polys[15][k] * polys[29][k + 1],
                                      polys[30][k] + polys[18][k] * polys[30][k + 1], polys[17][k])
            && (forall i :: 0 <= i < 3 ==> R.Delta(r, i) == polys[29 + i][k] - polys[28 + i][k])
            && R.Delta(r, 3) == polys[28][k + 1] - polys[31][k]
  {
    hide Pow2;
    var r := RowsOf(polys, n)[k];
    assert forall i :: 0 <= i < UNSHIFTED ==> r[i] == polys[i][k];
    assert r[L.WR_SHIFT] == polys[29][k + 1] && r[L.WO_SHIFT] == polys[30][k + 1] && r[R.WL_SHIFT] == polys[28][k + 1];
  }

  // ------------------------------------------------------------------------ the verifier

  /**
   `verify`, from the challenges on: the public-input delta, the sumcheck and the batch opening, in this
   order. `relOf` gives the subrelations under the completed parameters.
   */
  method Verify(p: Prime, o: Opening, c: Challenges, unis: seq<Univariate>, gates: seq<Fr>, weights: seq<Fr>, alpha: Fr,
                logN: nat, n: nat, tau: Fr, publicInputs: seq<Fr>, limbs: seq<Fr>, beta: Fr, gamma: Fr, offset: nat,
                relOf: R.Parameters -> Relation, ghost m: nat, ghost g: Fr, ghost sent: O.Sent)
    returns (r: Result<()>, ghost rp: R.Parameters, ghost inv: seq<Fr>)
    requires p > 7 && WellSized(o, c, n) && |unis| == n && gates == Squares(g, n)
    requires |weights| == 8 && forall i :: 0 <= i < 8 ==> Eq(p, weights[i], Weight(DOMAIN, i))
    requires O.Committed(p, sent, o, c, n, tau) && forall rp :: IsRelation(p, relOf(rp), m)
    ensures r.Ok? ==>
              && logN == n && |inv| == 3 * n + 1 && rp.beta == beta && rp.gamma == gamma
              && (|| CircuitHolds(p, relOf(rp), m, sent.polys, n)
                  || LuckyAnywhere(p, relOf(rp), m, sent, o, c, inv, n, tau, g, alpha, unis))
    ensures r.Ok? && MarksEnds(sent.polys, n) && HasPermutation(relOf(rp), rp) ==>
              || W.Provable(p, RowsOf(sent.polys, n), publicInputs + limbs, offset, beta, gamma)
              || LuckyAnywhere(p, relOf(rp), m, sent, o, c, inv, n, tau, g, alpha, unis)
    ensures r.Ok? && L.Selectors(p, RowsOf(sent.polys, n)) && HasLookup(relOf(rp), rp) && Pow2(n) < p ==>
              var rows := RowsOf(sent.polys, n);
              || (forall i :: 0 <= i < |rows| && Eq(p, rows[i][L.Q_LOOKUP], 1) ==>
                    L.InTable(p, rows, L.Looked(rows[i])) || L.LuckyLookup(p, rows, rp, i))
              || LuckyAnywhere(p, relOf(rp), m, sent, o, c, inv, n, tau, g, alpha, unis)
  {
    hide Eq, Eval, OpeningEquation, IsDenominators, RoundsPass, PowAfter, Target, Squares, IsRelation, O.Committed, CircuitHolds,
         LuckyAnywhere, ZeroCheck.Weighted, Product, R.DeltaNumerators, R.DeltaDenominators, W.Provable, MarksEnds, HasPermutation,
         HasLookup, L.Selectors, L.InTable, L.LuckyLookup, L.Looked, Pow2;
    rp, inv := R.Parameters(beta, gamma, 0), [];
    var delta := R.ComputePublicInputDelta(p, publicInputs, limbs, beta, gamma, offset);
    if delta.Err? {
      return Err(delta.message), rp, inv;
    }
    var completed := R.Parameters(beta, gamma, delta.value);
    rp := completed;
    var rel := relOf(completed);
    var first := VerifySumcheck(p, logN, unis, c.us, gates, weights, pow => Eval(ZeroCheck.Weighted(rel(o.evals), pow), alpha));
    if first.Err? {
      return first, rp, inv;
    }
    ghost var denoms;
    r, denoms, inv := VerifyShplemini(p, o, c, logN, n, tau);
    if r.Ok? {
      O.InverseCount(p, c, denoms, inv, n);
      CommittedTraces(p, sent, o, c, n, tau);
      AcceptedCircuitHolds(p, rel, m, sent, o, c, denoms, inv, n, tau, g, alpha, unis);
      if MarksEnds(sent.polys, n) && HasPermutation(rel, rp) && CircuitHolds(p, rel, m, sent.polys, n) {
        CircuitIsWired(p, rel, m, sent.polys, n, rp, publicInputs + limbs, offset);
      }
      if L.Selectors(p, RowsOf(sent.polys, n)) && HasLookup(rel, rp) && CircuitHolds(p, rel, m, sent.polys, n) && Pow2(n) < p {
        forall i | 0 <= i < Pow2(n) && Eq(p, RowsOf(sent.polys, n)[i][L.Q_LOOKUP], 1)
          ensures L.InTable(p, RowsOf(sent.polys, n), L.Looked(RowsOf(sent.polys, n)[i]))
                  || L.LuckyLookup(p, RowsOf(sent.polys, n), rp, i)
        {
          CircuitLooksUp(p, rel, m, sent.polys, n, rp, i);
        }
      }
    }
  }

  lemma CommittedTraces(p: Prime, sent: O.Sent, o: Opening, c: Challenges, n: nat, tau: Fr)
    requires WellSized(o, c, n) && O.Committed(p, sent, o, c, n, tau)
    ensures HonestOpening.Traces(sent.polys, n) && |sent.folds| == n - 1
  {
  }
}
