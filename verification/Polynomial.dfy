/** Univariate polynomials over the field: roots and interpolation. */
module Polynomial {
  import opened Field

  /** Coefficients, lowest degree first; `n` coefficients mean degree at most `n - 1`. */
  type Poly = seq<Fr>

  function Eval(c: Poly, x: Fr): Fr {
    if c == [] then 0 else c[0] + x * Eval(c[1..], x)
  }

  // ---------------------------------------------------------------- factor theorem

  /** The quotient of `c` by `X - a`. */
  function Quotient(c: Poly, a: Fr): (q: Poly)
    ensures |q| == if c == [] then 0 else |c| - 1
  {
    if |c| <= 1 then [] else [Eval(c[1..], a)] + Quotient(c[1..], a)
  }

  lemma {:induction false} FactorTheorem(c: Poly, a: Fr, x: Fr)
    ensures Eval(c, x) == Eval(c, a) + (x - a) * Eval(Quotient(c, a), x)
  {
    if |c| <= 1 {
      if |c| == 1 { assert c[1..] == []; }
    } else {
      var t := c[1..];
      var q := Quotient(t, a);
      FactorTheorem(t, a, x);
      assert Quotient(c, a)[1..] == q;
      FactorStep(c[0], Eval(t, a), Eval(t, x), Eval(q, x), a, x);
    }
  }

  lemma FactorStep(c: Fr, ta: Fr, tx: Fr, q: Fr, a: Fr, x: Fr)
    requires tx == ta + (x - a) * q
    ensures c + x * tx == (c + a * ta) + (x - a) * (ta + x * q)
  {
    assert x * tx == x * ta + (x - a) * (x * q);
  }

  ghost predicate Distinct(p: Prime, xs: seq<Fr>) {
    forall i, j :: 0 <= i < j < |xs| ==> !Eq(p, xs[i], xs[j])
  }

  ghost predicate VanishesAt(p: Prime, c: Poly, xs: seq<Fr>) {
    forall i :: 0 <= i < |xs| ==> Eq(p, Eval(c, xs[i]), 0)
  }

  /** A polynomial with as many distinct roots as coefficients is zero everywhere. */
  lemma {:induction false} TooManyRoots(p: Prime, c: Poly, roots: seq<Fr>, x: Fr)
    requires |roots| == |c|
    requires Distinct(p, roots)
    requires VanishesAt(p, c, roots)
    ensures Eq(p, Eval(c, x), 0)
    decreases |c|
  {
    if c == [] {
      EqRefl(p, 0);
    } else {
      var a, q := roots[0], Quotient(c, roots[0]);
      var rest := roots[1..];
      forall i | 0 <= i < |rest|
        ensures Eq(p, Eval(q, rest[i]), 0)
      {
        assert rest[i] == roots[i + 1];
        assert !Eq(p, roots[0], roots[i + 1]);
        RootOfQuotient(p, c, a, roots[i + 1]);
      }
      assert Distinct(p, rest) by {
        forall i, j | 0 <= i < j < |rest| ensures !Eq(p, rest[i], rest[j]) {
          assert rest[i] == roots[i + 1] && rest[j] == roots[j + 1];
        }
      }
      TooManyRoots(p, q, rest, x);
      FactorTheorem(c, a, x);
      ZeroFactor(p, x - a, Eval(q, x));
      EqAdd(p, Eval(c, a), 0, (x - a) * Eval(q, x), 0);
    }
  }

  lemma RootOfQuotient(p: Prime, c: Poly, a: Fr, b: Fr)
    requires Eq(p, Eval(c, a), 0) && Eq(p, Eval(c, b), 0)
    requires !Eq(p, a, b)
    ensures Eq(p, Eval(Quotient(c, a), b), 0)
  {
    var q := Eval(Quotient(c, a), b);
    FactorTheorem(c, a, b);
    EqSub(p, Eval(c, b), 0, Eval(c, a), 0);
    assert Eval(c, b) - Eval(c, a) == (b - a) * q;
    NoZeroDivisors(p, b - a, q);
    EqDifference(p, b, a);
    if Eq(p, b, a) { EqSym(p, b, a); }
  }

  // -------------------------------------------------------------- building polynomials

  function Add(c: Poly, d: Poly): (r: Poly)
    requires |c| == |d|
    ensures |r| == |c|
  {
    if c == [] then [] else [c[0] + d[0]] + Add(c[1..], d[1..])
  }

  function Scale(s: Fr, c: Poly): (r: Poly)
    ensures |r| == |c|
  {
    if c == [] then [] else [s * c[0]] + Scale(s, c[1..])
  }

  lemma {:induction false} EvalAdd(c: Poly, d: Poly, x: Fr)
    requires |c| == |d|
    ensures Eval(Add(c, d), x) == Eval(c, x) + Eval(d, x)
  {
    if c != [] {
      EvalAdd(c[1..], d[1..], x);
      assert Add(c, d)[1..] == Add(c[1..], d[1..]);
    }
  }

  lemma {:induction false} EvalScale(s: Fr, c: Poly, x: Fr)
    ensures Eval(Scale(s, c), x) == s * Eval(c, x)
  {
    if c != [] {
      EvalScale(s, c[1..], x);
      assert Scale(s, c)[1..] == Scale(s, c[1..]);
      assert x * (s * Eval(c[1..], x)) == s * (x * Eval(c[1..], x));
    }
  }

  lemma {:induction false} EvalPadded(c: Poly, x: Fr)
    ensures Eval(c + [0], x) == Eval(c, x)
  {
    if c == [] {
      var z: Poly := [0];
      assert z[1..] == [];
      assert x * 0 == 0;
    } else {
      EvalPadded(c[1..], x);
      assert (c + [0])[1..] == c[1..] + [0];
    }
  }

  /** `(X - a) * c`. */
  function TimesLinear(c: Poly, a: Fr): (r: Poly)
    ensures |r| == |c| + 1
  {
    Add([0] + c, Scale(0 - a, c + [0]))
  }

  lemma EvalTimesLinear(c: Poly, a: Fr, x: Fr)
    ensures Eval(TimesLinear(c, a), x) == Eval(c, x) * (x - a)
  {
    EvalAdd([0] + c, Scale(0 - a, c + [0]), x);
    EvalScale(0 - a, c + [0], x);
    EvalPadded(c, x);
    assert ([0] + c)[1..] == c;
  }

  /** The value at `x` of the product of all `X - r`. */
  function Vanish(rs: seq<Fr>, x: Fr): Fr {
    if rs == [] then 1 else Vanish(rs[..|rs| - 1], x) * (x - rs[|rs| - 1])
  }

  function VanishPoly(rs: seq<Fr>): (c: Poly)
    ensures |c| == |rs| + 1
  {
    if rs == [] then [1] else TimesLinear(VanishPoly(rs[..|rs| - 1]), rs[|rs| - 1])
  }

  lemma {:induction false} EvalVanishPoly(rs: seq<Fr>, x: Fr)
    ensures Eval(VanishPoly(rs), x) == Vanish(rs, x)
  {
    if rs == [] {
      var one: Poly := [1];
      assert one[1..] == [];
      assert x * 0 == 0;
    } else {
      EvalVanishPoly(rs[..|rs| - 1], x);
      EvalTimesLinear(VanishPoly(rs[..|rs| - 1]), rs[|rs| - 1], x);
    }
  }

  function Others(xs: seq<Fr>, i: nat): seq<Fr>
    requires i < |xs|
  {
    xs[..i] + xs[i + 1..]
  }

  lemma {:induction false} VanishSplit(xs: seq<Fr>, i: nat, x: Fr)
    requires i < |xs|
    ensures Vanish(xs, x) == Vanish(Others(xs, i), x) * (x - xs[i])
  {
    var m := |xs| - 1;
    if i == m {
      assert Others(xs, i) == xs[..m];
    } else {
      var front := xs[..m];
      VanishSplit(front, i, x);
      var o := Others(xs, i);
      assert o[..|o| - 1] == Others(front, i);
      assert o[|o| - 1] == xs[m];
      Swap(Vanish(Others(front, i), x), x - xs[i], x - xs[m]);
    }
  }

  lemma {:induction false} VanishNonzero(p: Prime, rs: seq<Fr>, x: Fr)
    requires forall i :: 0 <= i < |rs| ==> !Eq(p, x, rs[i])
    ensures !Eq(p, Vanish(rs, x), 0)
  {
    if rs == [] {
      SmallDistinct(p, 1, 0);
    } else {
      var m := |rs| - 1;
      VanishNonzero(p, rs[..m], x);
      if Eq(p, Vanish(rs, x), 0) {
        NoZeroDivisors(p, Vanish(rs[..m], x), x - rs[m]);
        EqDifference(p, x, rs[m]);
      }
    }
  }

  /** The weight of node `i`: the product of its differences to the other nodes. */
  function Weight(xs: seq<Fr>, i: nat): Fr
    requires i < |xs|
  {
    Vanish(Others(xs, i), xs[i])
  }

  lemma WeightNonzero(p: Prime, xs: seq<Fr>, i: nat)
    requires i < |xs| && Distinct(p, xs)
    ensures !Eq(p, Weight(xs, i), 0)
  {
    var o := Others(xs, i);
    forall k | 0 <= k < |o|
      ensures !Eq(p, xs[i], o[k])
    {
      if k < i {
        if Eq(p, xs[i], o[k]) { EqSym(p, xs[i], o[k]); }
      } else {
        assert o[k] == xs[k + 1];
      }
    }
    VanishNonzero(p, o, xs[i]);
  }

  // ------------------------------------------------------------------ interpolation

  function Term(p: Prime, xs: seq<Fr>, ys: seq<Fr>, x: Fr, i: nat): Fr
    requires i < |xs| == |ys|
  {
    ys[i] * Inv(p, Weight(xs, i)) * Vanish(Others(xs, i), x)
  }

  /** Lagrange's formula for the first `k` nodes' terms. */
  function LagrangeSum(p: Prime, xs: seq<Fr>, ys: seq<Fr>, x: Fr, k: nat): Fr
    requires k <= |xs| == |ys|
  {
    if k == 0 then 0
    else LagrangeSum(p, xs, ys, x, k - 1) + Term(p, xs, ys, x, k - 1)
  }

  /** The value at `x` of the polynomial of degree below `|xs|` through the points `(xs[i], ys[i])`. */
  function Interpolate(p: Prime, xs: seq<Fr>, ys: seq<Fr>, x: Fr): Fr
    requires |xs| == |ys|
  {
    LagrangeSum(p, xs, ys, x, |xs|)
  }

  function LagrangePoly(p: Prime, xs: seq<Fr>, ys: seq<Fr>, k: nat): (c: Poly)
    requires k <= |xs| == |ys|
    ensures |c| == |xs|
  {
    if k == 0 then seq(|xs|, _ => 0)
    else Add(LagrangePoly(p, xs, ys, k - 1),
             Scale(ys[k - 1] * Inv(p, Weight(xs, k - 1)), VanishPoly(Others(xs, k - 1))))
  }

  lemma {:induction false} EvalZero(n: nat, x: Fr)
    ensures Eval(seq(n, _ => 0), x) == 0
  {
    var z: Poly := seq(n, _ => 0);
    if n > 0 {
      EvalZero(n - 1, x);
      assert z[1..] == seq(n - 1, _ => 0);
      assert x * 0 == 0;
    }
  }

  lemma {:induction false} EvalLagrangePoly(p: Prime, xs: seq<Fr>, ys: seq<Fr>, k: nat, x: Fr)
    requires k <= |xs| == |ys|
    ensures Eval(LagrangePoly(p, xs, ys, k), x) == LagrangeSum(p, xs, ys, x, k)
  {
    if k == 0 {
      EvalZero(|xs|, x);
    } else {
      var s := ys[k - 1] * Inv(p, Weight(xs, k - 1));
      var v := VanishPoly(Others(xs, k - 1));
      EvalLagrangePoly(p, xs, ys, k - 1, x);
      EvalAdd(LagrangePoly(p, xs, ys, k - 1), Scale(s, v), x);
      EvalScale(s, v, x);
      EvalVanishPoly(Others(xs, k - 1), x);
    }
  }

  lemma OwnTerm(p: Prime, xs: seq<Fr>, ys: seq<Fr>, i: nat)
    requires i < |xs| == |ys| && Distinct(p, xs)
    ensures Eq(p, Term(p, xs, ys, xs[i], i), ys[i])
  {
    var w := Weight(xs, i);
    WeightNonzero(p, xs, i);
    InvIsInverse(p, w);
    EqScale(p, ys[i], Inv(p, w) * w, 1);
    Assoc(ys[i], Inv(p, w), w);
  }

  lemma OtherTerm(p: Prime, xs: seq<Fr>, ys: seq<Fr>, i: nat, j: nat)
    requires i < |xs| == |ys| && j < |xs| && i != j
    ensures Term(p, xs, ys, xs[j], i) == 0
  {
    var o := Others(xs, i);
    var m := if j < i then j else j - 1;
    assert o[m] == xs[j];
    VanishSplit(o, m, xs[j]);
    assert Vanish(o, xs[j]) == 0;
  }

  /** At node `j` only the `j`-th term survives. */
  lemma {:induction false} LagrangeSumAtNode(p: Prime, xs: seq<Fr>, ys: seq<Fr>, j: nat, k: nat)
    requires j < |xs| && k <= |xs| == |ys| && Distinct(p, xs)
    ensures Eq(p, LagrangeSum(p, xs, ys, xs[j], k), if j < k then ys[j] else 0)
  {
    if k == 0 {
      EqRefl(p, 0);
    } else {
      LagrangeSumAtNode(p, xs, ys, j, k - 1);
      var prev := LagrangeSum(p, xs, ys, xs[j], k - 1);
      if k - 1 == j {
        OwnTerm(p, xs, ys, j);
        EqAdd(p, prev, 0, Term(p, xs, ys, xs[j], j), ys[j]);
      } else {
        OtherTerm(p, xs, ys, k - 1, j);
      }
    }
  }

  ghost predicate PassesThrough(p: Prime, c: Poly, xs: seq<Fr>, ys: seq<Fr>)
    requires |xs| == |ys|
  {
    forall i :: 0 <= i < |xs| ==> Eq(p, Eval(c, xs[i]), ys[i])
  }

  /** An interpolating polynomial exists, and Lagrange's formula evaluates it. */
  lemma InterpolantExists(p: Prime, xs: seq<Fr>, ys: seq<Fr>)
    requires |xs| == |ys| && Distinct(p, xs)
    ensures exists c: Poly ::
              |c| == |xs| && PassesThrough(p, c, xs, ys)
              && forall x :: Eval(c, x) == Interpolate(p, xs, ys, x)
  {
    var c := LagrangePoly(p, xs, ys, |xs|);
    forall x ensures Eval(c, x) == Interpolate(p, xs, ys, x) {
      EvalLagrangePoly(p, xs, ys, |xs|, x);
    }
    forall i | 0 <= i < |xs| ensures Eq(p, Eval(c, xs[i]), ys[i]) {
      LagrangeSumAtNode(p, xs, ys, i, |xs|);
    }
    assert PassesThrough(p, c, xs, ys);
  }

  /** It is the only one: two polynomials through the same points agree everywhere. */
  lemma InterpolantUnique(p: Prime, xs: seq<Fr>, ys: seq<Fr>, c: Poly, x: Fr)
    requires |xs| == |ys| == |c| && Distinct(p, xs)
    requires PassesThrough(p, c, xs, ys)
    ensures Eq(p, Eval(c, x), Interpolate(p, xs, ys, x))
  {
    InterpolantExists(p, xs, ys);
    var l: Poly :| |l| == |xs| && PassesThrough(p, l, xs, ys)
                   && forall x :: Eval(l, x) == Interpolate(p, xs, ys, x);
    AgreeEverywhere(p, xs, ys, c, l, x);
  }

  lemma AgreeEverywhere(p: Prime, xs: seq<Fr>, ys: seq<Fr>, c: Poly, d: Poly, x: Fr)
    requires |xs| == |ys| == |c| == |d| && Distinct(p, xs)
    requires PassesThrough(p, c, xs, ys) && PassesThrough(p, d, xs, ys)
    ensures Eq(p, Eval(c, x), Eval(d, x))
  {
    hide Eq;
    var diff := Add(c, Scale(-1, d));
    forall y ensures Eval(diff, y) == Eval(c, y) - Eval(d, y) {
      EvalAdd(c, Scale(-1, d), y);
      EvalScale(-1, d, y);
    }
    forall i | 0 <= i < |xs| ensures Eq(p, Eval(diff, xs[i]), 0) {
      EqSub(p, Eval(c, xs[i]), ys[i], Eval(d, xs[i]), ys[i]);
      assert ys[i] - ys[i] == 0;
    }
    TooManyRoots(p, diff, xs, x);
    EqDifference(p, Eval(c, x), Eval(d, x));
  }
}
