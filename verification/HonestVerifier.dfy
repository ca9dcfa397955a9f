/** The honest opening against the verifier itself: which inverses are used makes no difference. */
module HonestVerifier {
  import opened Field
  import opened Polynomial
  import opened Sumcheck
  import opened Shplemini
  import opened HonestOpening

  /** Two tables of inverses of the same values agree as field elements. */
  ghost predicate SameTable(p: Prime, inv: seq<Fr>, other: seq<Fr>) {
    |inv| == |other| && forall i :: 0 <= i < |inv| ==> Eq(p, inv[i], other[i])
  }

  lemma InverseUnique(p: Prime, d: Fr, i: Fr, j: Fr)
    requires Eq(p, d * i, 1) && Eq(p, d * j, 1)
    ensures Eq(p, i, j)
  {
    hide Eq;
    EqScale(p, i, d * j, 1);
    EqScale(p, j, d * i, 1);
    assert i * (d * j) == j * (d * i) by { Swap(d, i, j); Regroup(d, i, j); }
    EqSym(p, i * (d * j), i * 1);
    EqTrans(p, i, i * (d * j), j);
  }

  lemma Regroup(d: Fr, i: Fr, j: Fr)
    ensures i * (d * j) == j * (d * i)
  {
  }

  lemma TablesAgree(p: Prime, denoms: seq<Fr>, inv: seq<Fr>, other: seq<Fr>)
    requires Inverses(p, denoms, inv) && Inverses(p, denoms, other)
    ensures SameTable(p, inv, other)
  {
    hide Eq;
    forall i | 0 <= i < |inv| ensures Eq(p, inv[i], other[i]) {
      InverseUnique(p, denoms[i], inv[i], other[i]);
    }
  }

  lemma {:induction false} FoldValuesAgree(p: Prime, o: Opening, c: Challenges, inv: seq<Fr>, other: seq<Fr>, n: nat, j: nat)
    requires WellSized(o, c, n) && |inv| == 3 * n + 1 && j <= n && SameTable(p, inv, other)
    ensures Eq(p, FoldValue(o, c, inv, n, j), FoldValue(o, c, other, n, j))
    decreases n - j
  {
    hide Eq, Eval, GeminiPoint, FoldValue;
    if j == n {
      FoldValueTop(o, c, inv, n);
      FoldValueTop(o, c, other, n);
      EqRefl(p, Eval(o.evals, c.rho));
    } else {
      FoldValuesAgree(p, o, c, inv, other, n, j + 1);
      FoldValueStep(o, c, inv, n, j);
      FoldValueStep(o, c, other, n, j);
      FoldStepAgrees(p, GeminiPoint(c, j), FoldValue(o, c, inv, n, j + 1), FoldValue(o, c, other, n, j + 1),
                     o.aEvals[j] * (GeminiPoint(c, j) * (1 - c.us[j]) - c.us[j]), inv[3 + (n - (j + 1))], other[3 + (n - (j + 1))]);
    }
  }

  lemma FoldStepAgrees(p: Prime, x: Fr, f: Fr, g: Fr, a: Fr, i: Fr, k: Fr)
    requires Eq(p, f, g) && Eq(p, i, k)
    ensures Eq(p, (x * f * 2 - a) * i, (x * g * 2 - a) * k)
  {
    hide Eq;
    EqScale(p, x, f, g);
    EqScale(p, 2, x * f, x * g);
    EqRefl(p, a);
    EqSub(p, x * f * 2, x * g * 2, a, a);
    EqMul(p, x * f * 2 - a, x * g * 2 - a, i, k);
  }

  lemma CommitmentAgrees(p: Prime, o: Opening, c: Challenges, rInv: Fr, other: Fr, j: nat, sign: int)
    requires j <= |o.foldComms| && Eq(p, rInv, other)
    ensures Eq(p, ClaimCommitment(o, c, rInv, j, sign), ClaimCommitment(o, c, other, j, sign))
  {
    hide Eq, BatchUnshifted, BatchShiftable;
    if j == 0 {
      var u, b := BatchUnshifted(c, o.comms, |o.comms|), BatchShiftable(c, o.comms, |o.comms|);
      EqScale(p, b, rInv, other);
      EqScale(p, sign, rInv * b, other * b);
      EqRefl(p, u);
      EqAdd(p, u, u, sign * (rInv * b), sign * (other * b));
    } else {
      EqRefl(p, o.foldComms[j - 1]);
    }
  }

  lemma ClaimAgrees(p: Prime, s: Fr, i: Fr, k: Fr, comm: Fr, comm': Fr, v: Fr, v': Fr)
    requires Eq(p, i, k) && Eq(p, comm, comm') && Eq(p, v, v')
    ensures Eq(p, s * i * (comm - v), s * k * (comm' - v'))
  {
    hide Eq;
    EqScale(p, s, i, k);
    EqSub(p, comm, comm', v, v');
    EqMul(p, s * i, s * k, comm - v, comm' - v');
  }

  lemma RoundAgrees(p: Prime, o: Opening, c: Challenges, inv: seq<Fr>, other: seq<Fr>, n: nat, j: nat)
    requires WellSized(o, c, n) && |inv| == 3 * n + 1 && j < n && SameTable(p, inv, other)
    ensures Eq(p, RoundClaims(o, c, inv, n, j), RoundClaims(o, c, other, n, j))
  {
    hide Eq, FoldValue, ClaimCommitment, Power;
    var s, pos, neg := Power(c.nu, 2 * j), PosSlot(n, j), NegSlot(n, j);
    FoldValuesAgree(p, o, c, inv, other, n, j);
    CommitmentAgrees(p, o, c, inv[R_SLOT], other[R_SLOT], j, 1);
    CommitmentAgrees(p, o, c, inv[R_SLOT], other[R_SLOT], j, -1);
    EqRefl(p, o.aEvals[j]);
    var plus, plus' := ClaimCommitment(o, c, inv[R_SLOT], j, 1), ClaimCommitment(o, c, other[R_SLOT], j, 1);
    var minus, minus' := ClaimCommitment(o, c, inv[R_SLOT], j, -1), ClaimCommitment(o, c, other[R_SLOT], j, -1);
    ClaimAgrees(p, s, inv[pos], other[pos], plus, plus', FoldValue(o, c, inv, n, j), FoldValue(o, c, other, n, j));
    ClaimAgrees(p, s * c.nu, inv[neg], other[neg], minus, minus', o.aEvals[j], o.aEvals[j]);
    EqAdd(p, s * inv[pos] * (plus - FoldValue(o, c, inv, n, j)), s * other[pos] * (plus' - FoldValue(o, c, other, n, j)),
          s * c.nu * inv[neg] * (minus - o.aEvals[j]), s * c.nu * other[neg] * (minus' - o.aEvals[j]));
  }

  lemma {:induction false} ClaimSumsAgree(p: Prime, o: Opening, c: Challenges, inv: seq<Fr>, other: seq<Fr>, n: nat, k: nat)
    requires WellSized(o, c, n) && |inv| == 3 * n + 1 && k <= n && SameTable(p, inv, other)
    ensures Eq(p, ClaimSum(o, c, inv, n, k), ClaimSum(o, c, other, n, k))
  {
    hide Eq, RoundClaims;
    if k == 0 {
      EqRefl(p, 0);
    } else {
      ClaimSumsAgree(p, o, c, inv, other, n, k - 1);
      RoundAgrees(p, o, c, inv, other, n, k - 1);
      EqAdd(p, ClaimSum(o, c, inv, n, k - 1), ClaimSum(o, c, other, n, k - 1),
            RoundClaims(o, c, inv, n, k - 1), RoundClaims(o, c, other, n, k - 1));
    }
  }

  /** The opening equation does not depend on which inverses were computed. */
  lemma EquationsAgree(p: Prime, o: Opening, c: Challenges, denoms: seq<Fr>, inv: seq<Fr>, other: seq<Fr>, n: nat, tau: Fr)
    requires WellSized(o, c, n) && |inv| == 3 * n + 1
    requires Inverses(p, denoms, inv) && Inverses(p, denoms, other)
    requires Eq(p, OpeningEquation(o, c, inv, n, tau), 0)
    ensures Eq(p, OpeningEquation(o, c, other, n, tau), 0)
  {
    hide Eq, ClaimSum;
    TablesAgree(p, denoms, inv, other);
    ClaimSumsAgree(p, o, c, other, inv, n, n) by { TablesAgree(p, denoms, other, inv); }
    var rest := o.q + c.z * o.w - tau * o.w;
    EqRefl(p, rest);
    EqSub(p, rest, rest, ClaimSum(o, c, other, n, n), ClaimSum(o, c, inv, n, n));
    EqTrans(p, OpeningEquation(o, c, other, n, tau), OpeningEquation(o, c, inv, n, tau), 0);
  }

  /** The same values are inverted in every run: the denominators depend on the challenges alone. */
  lemma DenominatorsUnique(c: Challenges, n: nat, s: seq<Fr>, t: seq<Fr>)
    requires |c.us| == n > 0 && IsDenominators(c, n, s) && IsDenominators(c, n, t)
    ensures s == t
  {
    hide FoldDenominator, GeminiPoint;
    forall i | 0 <= i < |s| ensures s[i] == t[i] {
      if i == R_SLOT {
      } else if i < 2 {
        assert PosSlot(n, 0) == 0 && NegSlot(n, 0) == 1;
      } else if i < 3 + n {
        assert i == FoldSlot(n, n - 1 - (i - 3));
      } else {
        var j := (i - 3 - n) / 2 + 1;
        assert i == PosSlot(n, j) || i == NegSlot(n, j);
      }
    }
  }

  /**
   The verifier accepts every honest opening, for any number of rounds, unless a challenge makes one of
   the inverted values zero. The prover used inverses of its own.
   */
  method VerifyHonestOpening(p: Prime, o: Opening, c: Challenges, n: nat, tau: Fr,
                             ghost polys: seq<Poly>, ghost denoms: seq<Fr>, ghost proverInv: seq<Fr>)
    returns (r: Result<()>)
    requires WellSized(o, c, n) && PolysFit(polys, n)
    requires IsDenominators(c, n, denoms) && Inverses(p, denoms, proverInv)
    requires HonestOpening.Honest(p, polys, o, c, proverInv, n, tau)
    ensures r.Ok?
  {
    hide Eq, OpeningEquation, HonestOpening.Honest, PolysFit;
    ghost var found, inv;
    r, found, inv := VerifyShplemini(p, o, c, n, n, tau);
    DenominatorsUnique(c, n, found, denoms);
    forall i | 0 <= i < |denoms| ensures !Eq(p, denoms[i], 0) {
      InvertedIsNonzero(p, denoms[i], proverInv[i]);
    }
    HonestOpeningAccepted(p, polys, o, c, denoms, proverInv, n, tau);
    EquationsAgree(p, o, c, denoms, proverInv, inv, n, tau);
  }

  lemma InvertedIsNonzero(p: Prime, d: Fr, i: Fr)
    requires Eq(p, d * i, 1)
    ensures !Eq(p, d, 0)
  {
    hide Eq;
    if Eq(p, d, 0) {
      EqScale(p, i, d, 0);
      EqSym(p, d * i, 1);
      EqTrans(p, 1, d * i, 0);
      SmallDistinct(p, 1, 0);
    }
  }
}
