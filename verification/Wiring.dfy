/** What the grand product is for: the copies that the wiring demands hold, or few challenges balance. */
module Wiring {
  import opened Field
  import opened Polynomial
  import opened Relations

  // ------------------------------------------------------------------ residues as numbers

  lemma RemIsEq(p: Prime, a: Fr)
    ensures Eq(p, a, Rem(p, a))
  {
    hide Eq, Rem;
    var k := RemQuotient(p, a);
    EqFromMultiple(p, a, Rem(p, a), k);
  }

  lemma EqIsSameRem(p: Prime, a: Fr, b: Fr)
    ensures Eq(p, a, b) <==> Rem(p, a) == Rem(p, b)
  {
    hide Eq, Rem;
    RemIsEq(p, a);
    RemIsEq(p, b);
    EqSym(p, a, Rem(p, a));
    EqSym(p, b, Rem(p, b));
    if Rem(p, a) == Rem(p, b) {
      EqTrans(p, a, Rem(p, a), b);
    }
    if Eq(p, a, b) {
      EqTrans(p, Rem(p, a), a, b);
      EqTrans(p, Rem(p, a), b, Rem(p, b));
      if Rem(p, a) != Rem(p, b) { SmallDistinct(p, Rem(p, a), Rem(p, b)); }
    }
  }

  function Residues(p: Prime, xs: seq<Fr>): (r: seq<int>)
    ensures |r| == |xs|
  {
    seq(|xs|, i requires 0 <= i < |xs| => Rem(p, xs[i]))
  }

  lemma ResiduesSplit(p: Prime, xs: seq<Fr>, i: nat)
    requires i < |xs|
    ensures multiset(Residues(p, xs)) == multiset(Residues(p, Others(xs, i))) + multiset{Rem(p, xs[i])}
  {
    hide Rem;
    var r := Residues(p, xs);
    assert r == r[..i] + [r[i]] + r[i + 1..];
    assert Residues(p, Others(xs, i)) == r[..i] + r[i + 1..];
  }

  // ----------------------------------------------- products with the same roots, and without

  /** A coefficient vector, shorter by one, for the difference of two products of linear factors. */
  function DifferencePoly(xs: seq<Fr>, ys: seq<Fr>): (c: Poly)
    requires |xs| == |ys|
    ensures |c| == |xs|
  {
    if xs == [] then []
    else
      var n := |xs| - 1;
      Add(TimesLinear(DifferencePoly(xs[..n], ys[..n]), xs[n]), Scale(ys[n] - xs[n], VanishPoly(ys[..n])))
  }

  lemma {:induction false} EvalDifference(xs: seq<Fr>, ys: seq<Fr>, x: Fr)
    requires |xs| == |ys|
    ensures Eval(DifferencePoly(xs, ys), x) == Vanish(xs, x) - Vanish(ys, x)
  {
    hide Eval, TimesLinear, Scale, Add, VanishPoly;
    if xs == [] {
      EvalNothing(x);
    } else {
      var n := |xs| - 1;
      var front, last := DifferencePoly(xs[..n], ys[..n]), ys[n] - xs[n];
      EvalDifference(xs[..n], ys[..n], x);
      EvalAdd(TimesLinear(front, xs[n]), Scale(last, VanishPoly(ys[..n])), x);
      EvalTimesLinear(front, xs[n], x);
      EvalScale(last, VanishPoly(ys[..n]), x);
      EvalVanishPoly(ys[..n], x);
      DifferenceStep(Vanish(xs[..n], x), Vanish(ys[..n], x), x, xs[n], ys[n]);
    }
  }

  lemma EvalNothing(x: Fr)
    ensures Eval([], x) == 0
  {
  }

  lemma DifferenceStep(v: Fr, w: Fr, x: Fr, a: Fr, b: Fr)
    ensures (v - w) * (x - a) + (b - a) * w == v * (x - a) - w * (x - b)
  {
    Distributes(x - a, v, w);
    Distributes(w, x - a, x - b);
  }

  ghost predicate Agree(p: Prime, xs: seq<Fr>, ys: seq<Fr>, points: seq<Fr>) {
    forall i :: 0 <= i < |points| ==> Eq(p, Vanish(xs, points[i]), Vanish(ys, points[i]))
  }

  /** Two products of n factors that agree at n points agree everywhere. */
  lemma AgreeThenEqual(p: Prime, xs: seq<Fr>, ys: seq<Fr>, points: seq<Fr>, x: Fr)
    requires |xs| == |ys| == |points| && Distinct(p, points) && Agree(p, xs, ys, points)
    ensures Eq(p, Vanish(xs, x), Vanish(ys, x))
  {
    hide Eq, Vanish, DifferencePoly, Distinct;
    forall i | 0 <= i < |points| ensures Eq(p, Eval(DifferencePoly(xs, ys), points[i]), 0) {
      EvalDifference(xs, ys, points[i]);
      EqDifference(p, Vanish(xs, points[i]), Vanish(ys, points[i]));
    }
    TooManyRoots(p, DifferencePoly(xs, ys), points, x);
    EvalDifference(xs, ys, x);
    EqDifference(p, Vanish(xs, x), Vanish(ys, x));
  }

  lemma VanishAtRoot(p: Prime, xs: seq<Fr>, i: nat)
    requires i < |xs|
    ensures Eq(p, Vanish(xs, xs[i]), 0)
  {
    hide Eq, Vanish;
    VanishSplit(xs, i, xs[i]);
    EqRefl(p, 0);
    ZeroFactor(p, Vanish(Others(xs, i), xs[i]), xs[i] - xs[i]);
  }

  /** A common root is a common factor: the rest agrees wherever the factor does not vanish. */
  lemma DropCommonRoot(p: Prime, xs: seq<Fr>, i: nat, ys: seq<Fr>, j: nat, x: Fr)
    requires i < |xs| && j < |ys| && Eq(p, xs[i], ys[j]) && !Eq(p, x, xs[i])
    requires Eq(p, Vanish(xs, x), Vanish(ys, x))
    ensures Eq(p, Vanish(Others(xs, i), x), Vanish(Others(ys, j), x))
  {
    hide Eq, Vanish, Others;
    VanishSplit(xs, i, x);
    VanishSplit(ys, j, x);
    var v, w, a, b := Vanish(Others(xs, i), x), Vanish(Others(ys, j), x), x - xs[i], x - ys[j];
    EqRefl(p, x);
    EqSym(p, xs[i], ys[j]);
    EqSub(p, x, x, ys[j], xs[i]);
    EqScale(p, w, b, a);
    EqTrans(p, v * a, w * b, w * a);
    EqDifference(p, x, xs[i]);
    assert v * a == a * v && w * a == a * w;
    Cancel(p, a, v, w);
  }

  /** Products of n linear factors that agree at n points have the same roots, as often. */
  lemma {:induction false} SameRoots(p: Prime, xs: seq<Fr>, ys: seq<Fr>, points: seq<Fr>)
    requires |xs| == |ys| == |points| && Distinct(p, points) && Agree(p, xs, ys, points)
    ensures multiset(Residues(p, xs)) == multiset(Residues(p, ys))
    decreases |xs|
  {
    if xs != [] {
      hide Eq, Vanish, Rem, Distinct, Others, Residues;
      var j := RootOfBoth(p, xs, ys, points);
      var z := PointToDrop(p, points, xs[0]);
      var rest := Others(points, z);
      DistinctOthers(p, points, z);
      forall i | 0 <= i < |rest| ensures Eq(p, Vanish(Others(xs, 0), rest[i]), Vanish(Others(ys, j), rest[i])) {
        var k := OtherPoint(p, points, z, xs[0], i);
        DropCommonRoot(p, xs, 0, ys, j, points[k]);
      }
      OthersLength(xs, 0);
      OthersLength(ys, j);
      OthersLength(points, z);
      SameRoots(p, Others(xs, 0), Others(ys, j), rest);
      ResiduesSplit(p, xs, 0);
      ResiduesSplit(p, ys, j);
      EqIsSameRem(p, xs[0], ys[j]);
    } else {
      assert Residues(p, xs) == [] == Residues(p, ys);
    }
  }

  lemma OthersLength(xs: seq<Fr>, i: nat)
    requires i < |xs|
    ensures |Others(xs, i)| == |xs| - 1
  {
  }

  lemma RootOfBoth(p: Prime, xs: seq<Fr>, ys: seq<Fr>, points: seq<Fr>) returns (j: nat)
    requires |xs| == |ys| == |points| > 0 && Distinct(p, points) && Agree(p, xs, ys, points)
    ensures j < |ys| && Eq(p, xs[0], ys[j])
  {
    hide Eq, Vanish, Distinct;
    AgreeThenEqual(p, xs, ys, points, xs[0]);
    VanishAtRoot(p, xs, 0);
    EqSym(p, Vanish(xs, xs[0]), Vanish(ys, xs[0]));
    EqTrans(p, Vanish(ys, xs[0]), Vanish(xs, xs[0]), 0);
    if forall i :: 0 <= i < |ys| ==> !Eq(p, xs[0], ys[i]) {
      VanishNonzero(p, ys, xs[0]);
    }
    j :| 0 <= j < |ys| && Eq(p, xs[0], ys[j]);
  }

  /** The one point, if there is one, that is the root. */
  lemma PointToDrop(p: Prime, points: seq<Fr>, root: Fr) returns (z: nat)
    requires points != [] && Distinct(p, points)
    ensures z < |points| && forall k :: 0 <= k < |points| && k != z ==> !Eq(p, points[k], root)
  {
    hide Eq;
    z := 0;
    if exists k :: 0 <= k < |points| && Eq(p, points[k], root) {
      z :| 0 <= z < |points| && Eq(p, points[z], root);
      forall k | 0 <= k < |points| && k != z ensures !Eq(p, points[k], root) {
        if Eq(p, points[k], root) {
          EqSym(p, points[z], root);
          EqSym(p, points[k], root);
          EqTrans(p, points[k], root, points[z]);
          EqTrans(p, points[z], root, points[k]);
        }
      }
    }
  }

  lemma OtherPoint(p: Prime, points: seq<Fr>, z: nat, root: Fr, i: nat) returns (k: nat)
    requires z < |points| && i < |Others(points, z)|
    requires forall k :: 0 <= k < |points| && k != z ==> !Eq(p, points[k], root)
    ensures k < |points| && Others(points, z)[i] == points[k] && !Eq(p, points[k], root)
  {
    k := if i < z then i else i + 1;
  }

  // ------------------------------------------------------------------------------ cells

  /** A value on a wire with the label that the permutation gives it. */
  datatype Cell = Cell(value: Fr, place: Fr)

  /** The four wires of a row under their own labels, and under those that the permutation sends them to. */
  function IdCells(r: Row): (c: seq<Cell>)
    ensures |c| == 4
  {
    [Cell(r[WL], r[ID1]), Cell(r[WR], r[ID1 + 1]), Cell(r[WO], r[ID1 + 2]), Cell(r[W4], r[ID1 + 3])]
  }

  function SigmaCells(r: Row): (c: seq<Cell>)
    ensures |c| == 4
  {
    [Cell(r[WL], r[SIGMA1]), Cell(r[WR], r[SIGMA1 + 1]), Cell(r[WO], r[SIGMA1 + 2]), Cell(r[W4], r[SIGMA1 + 3])]
  }

  function AllIdCells(rows: seq<Row>): (c: seq<Cell>)
    ensures |c| == 4 * |rows|
  {
    if rows == [] then [] else AllIdCells(rows[..|rows| - 1]) + IdCells(rows[|rows| - 1])
  }

  function AllSigmaCells(rows: seq<Row>): (c: seq<Cell>)
    ensures |c| == 4 * |rows|
  {
    if rows == [] then [] else AllSigmaCells(rows[..|rows| - 1]) + SigmaCells(rows[|rows| - 1])
  }

  /** The public inputs under their labels in the two products: ids from 2^28 on, and minus their place. */
  function InputIdCells(inputs: seq<Fr>, offset: nat): (c: seq<Cell>)
    ensures |c| == |inputs|
  {
    seq(|inputs|, i requires 0 <= i < |inputs| => Cell(inputs[i], 0x1000_0000 + offset + i))
  }

  function InputSigmaCells(inputs: seq<Fr>, offset: nat): (c: seq<Cell>)
    ensures |c| == |inputs|
  {
    seq(|inputs|, i requires 0 <= i < |inputs| => Cell(inputs[i], -(1 + offset + i)))
  }

  /** Everything on the side of the ids, and everything on the side of the permutation. */
  function Left(rows: seq<Row>, inputs: seq<Fr>, offset: nat): seq<Cell> {
    AllIdCells(rows) + InputSigmaCells(inputs, offset)
  }

  function Right(rows: seq<Row>, inputs: seq<Fr>, offset: nat): seq<Cell> {
    AllSigmaCells(rows) + InputIdCells(inputs, offset)
  }

  /** `value + label * beta` with the sign changed: where the factor of the cell vanishes as gamma varies. */
  function Root(c: Cell, beta: Fr): Fr {
    -(c.value + c.place * beta)
  }

  function Roots(cells: seq<Cell>, beta: Fr): (r: seq<Fr>)
    ensures |r| == |cells|
  {
    seq(|cells|, i requires 0 <= i < |cells| => Root(cells[i], beta))
  }

  lemma RootsConcat(a: seq<Cell>, b: seq<Cell>, beta: Fr)
    ensures Roots(a + b, beta) == Roots(a, beta) + Roots(b, beta)
  {
  }

  lemma {:induction false} VanishConcat(xs: seq<Fr>, ys: seq<Fr>, x: Fr)
    ensures Vanish(xs + ys, x) == Vanish(xs, x) * Vanish(ys, x)
  {
    if ys == [] {
      assert xs + ys == xs;
    } else {
      var n := |ys| - 1;
      assert (xs + ys)[..|xs + ys| - 1] == xs + ys[..n];
      VanishConcat(xs, ys[..n], x);
      Assoc(Vanish(xs, x), Vanish(ys[..n], x), x - ys[n]);
    }
  }

  lemma FourRoots(a: Fr, b: Fr, c: Fr, d: Fr, x: Fr)
    ensures Vanish([a, b, c, d], x) == (x - a) * (x - b) * (x - c) * (x - d)
  {
    assert [a, b, c, d][..3] == [a, b, c] && [a, b, c][..2] == [a, b] && [a, b][..1] == [a] && [a][..0] == [];
    assert Vanish([a], x) == x - a;
    assert Vanish([a, b], x) == (x - a) * (x - b);
    assert Vanish([a, b, c], x) == (x - a) * (x - b) * (x - c);
  }

  /** The numerator and the denominator of a row are the products over its four cells. */
  lemma RowProducts(r: Row, rp: Parameters)
    ensures Numerator(r, rp) == Vanish(Roots(IdCells(r), rp.beta), rp.gamma)
    ensures Denominator(r, rp) == Vanish(Roots(SigmaCells(r), rp.beta), rp.gamma)
  {
    hide Vanish;
    var a, b := IdCells(r), SigmaCells(r);
    assert Roots(a, rp.beta) == [Root(a[0], rp.beta), Root(a[1], rp.beta), Root(a[2], rp.beta), Root(a[3], rp.beta)];
    assert Roots(b, rp.beta) == [Root(b[0], rp.beta), Root(b[1], rp.beta), Root(b[2], rp.beta), Root(b[3], rp.beta)];
    FourRoots(Root(a[0], rp.beta), Root(a[1], rp.beta), Root(a[2], rp.beta), Root(a[3], rp.beta), rp.gamma);
    FourRoots(Root(b[0], rp.beta), Root(b[1], rp.beta), Root(b[2], rp.beta), Root(b[3], rp.beta), rp.gamma);
  }

  lemma {:induction false} TraceProducts(rows: seq<Row>, rp: Parameters)
    ensures Numerators(rows, rp) == Vanish(Roots(AllIdCells(rows), rp.beta), rp.gamma)
    ensures Denominators(rows, rp) == Vanish(Roots(AllSigmaCells(rows), rp.beta), rp.gamma)
  {
    hide Numerator, Denominator, IdCells, SigmaCells;
    if rows == [] {
      assert Roots([], rp.beta) == [];
    } else {
      hide Vanish, Roots;
      var front, r := rows[..|rows| - 1], rows[|rows| - 1];
      TraceProducts(front, rp);
      RowProducts(r, rp);
      RootsConcat(AllIdCells(front), IdCells(r), rp.beta);
      RootsConcat(AllSigmaCells(front), SigmaCells(r), rp.beta);
      VanishConcat(Roots(AllIdCells(front), rp.beta), Roots(IdCells(r), rp.beta), rp.gamma);
      VanishConcat(Roots(AllSigmaCells(front), rp.beta), Roots(SigmaCells(r), rp.beta), rp.gamma);
    }
  }

  lemma {:induction false} ProductIsVanish(factors: seq<Fr>, roots: seq<Fr>, x: Fr)
    requires |factors| == |roots| && forall i :: 0 <= i < |factors| ==> factors[i] == x - roots[i]
    ensures Product(factors) == Vanish(roots, x)
  {
    if factors != [] {
      ProductIsVanish(factors[..|factors| - 1], roots[..|roots| - 1], x);
    }
  }

  lemma InputProducts(inputs: seq<Fr>, offset: nat, beta: Fr, gamma: Fr)
    ensures Product(DeltaNumerators(inputs, beta, gamma, offset)) == Vanish(Roots(InputIdCells(inputs, offset), beta), gamma)
    ensures Product(DeltaDenominators(inputs, beta, gamma, offset)) == Vanish(Roots(InputSigmaCells(inputs, offset), beta), gamma)
  {
    hide Product, Vanish;
    forall i | 0 <= i < |inputs|
      ensures DeltaNumerators(inputs, beta, gamma, offset)[i] == gamma - Roots(InputIdCells(inputs, offset), beta)[i]
      ensures DeltaDenominators(inputs, beta, gamma, offset)[i] == gamma - Roots(InputSigmaCells(inputs, offset), beta)[i]
    {
      Commutes(beta, 0x1000_0000 + offset + i);
      Commutes(beta, 1 + offset + i);
    }
    ProductIsVanish(DeltaNumerators(inputs, beta, gamma, offset), Roots(InputIdCells(inputs, offset), beta), gamma);
    ProductIsVanish(DeltaDenominators(inputs, beta, gamma, offset), Roots(InputSigmaCells(inputs, offset), beta), gamma);
  }

  lemma Commutes(a: int, b: int)
    ensures a * b == b * a && -b * a == -(a * b)
  {
  }

  /** The trace balances its public inputs exactly when the two products over all cells are equal. */
  lemma BalancedIsCells(p: Prime, rows: seq<Row>, rp: Parameters, inputs: seq<Fr>, offset: nat)
    ensures Balanced(p, rows, rp, inputs, offset)
            <==> Eq(p, Vanish(Roots(Left(rows, inputs, offset), rp.beta), rp.gamma),
                    Vanish(Roots(Right(rows, inputs, offset), rp.beta), rp.gamma))
  {
    hide Eq, Vanish, Roots, Product, Numerators, Denominators, AllIdCells, AllSigmaCells, InputIdCells, InputSigmaCells,
         DeltaNumerators, DeltaDenominators;
    TraceProducts(rows, rp);
    InputProducts(inputs, offset, rp.beta, rp.gamma);
    RootsConcat(AllIdCells(rows), InputSigmaCells(inputs, offset), rp.beta);
    RootsConcat(AllSigmaCells(rows), InputIdCells(inputs, offset), rp.beta);
    VanishConcat(Roots(AllIdCells(rows), rp.beta), Roots(InputSigmaCells(inputs, offset), rp.beta), rp.gamma);
    VanishConcat(Roots(AllSigmaCells(rows), rp.beta), Roots(InputIdCells(inputs, offset), rp.beta), rp.gamma);
    var a, b := Vanish(Roots(InputIdCells(inputs, offset), rp.beta), rp.gamma), Denominators(rows, rp);
    assert a * b == b * a;
  }

  // --------------------------------------------------------------- equal cells always balance

  function ReducedCell(p: Prime, c: Cell): Cell {
    Cell(Rem(p, c.value), Rem(p, c.place))
  }

  /** The cells as field elements. */
  function Reduced(p: Prime, cells: seq<Cell>): (r: seq<Cell>)
    ensures |r| == |cells|
  {
    seq(|cells|, i requires 0 <= i < |cells| => ReducedCell(p, cells[i]))
  }

  function Without(cells: seq<Cell>, i: nat): (r: seq<Cell>)
    requires i < |cells|
    ensures |r| == |cells| - 1
  {
    cells[..i] + cells[i + 1..]
  }

  lemma ReducedSplit(p: Prime, cells: seq<Cell>, i: nat)
    requires i < |cells|
    ensures multiset(Reduced(p, cells)) == multiset(Reduced(p, Without(cells, i))) + multiset{ReducedCell(p, cells[i])}
  {
    hide ReducedCell;
    var r := Reduced(p, cells);
    assert r == r[..i] + [r[i]] + r[i + 1..];
    assert Reduced(p, Without(cells, i)) == r[..i] + r[i + 1..];
  }

  lemma RootsWithout(cells: seq<Cell>, i: nat, beta: Fr)
    requires i < |cells|
    ensures Roots(Without(cells, i), beta) == Others(Roots(cells, beta), i)
  {
  }

  /** The same cell has the same root. */
  lemma SameCellSameRoot(p: Prime, c: Cell, d: Cell, beta: Fr)
    requires ReducedCell(p, c) == ReducedCell(p, d)
    ensures Eq(p, Root(c, beta), Root(d, beta))
  {
    hide Eq, Rem;
    EqIsSameRem(p, c.value, d.value);
    EqIsSameRem(p, c.place, d.place);
    EqScale(p, beta, c.place, d.place);
    EqAdd(p, c.value, d.value, c.place * beta, d.place * beta);
    EqRefl(p, 0);
    EqSub(p, 0, 0, c.value + c.place * beta, d.value + d.place * beta);
  }

  lemma {:induction false} CellsBalance(p: Prime, a: seq<Cell>, b: seq<Cell>, beta: Fr, gamma: Fr)
    requires multiset(Reduced(p, a)) == multiset(Reduced(p, b))
    ensures Eq(p, Vanish(Roots(a, beta), gamma), Vanish(Roots(b, beta), gamma))
    decreases |a|
  {
    assert |a| == |multiset(Reduced(p, a))| == |multiset(Reduced(p, b))| == |b|;
    if a == [] {
      assert Roots(a, beta) == [] == Roots(b, beta);
      EqRefl(p, Vanish([], gamma));
    } else {
      hide Eq, Vanish, ReducedCell, Roots, Root;
      var j := SameCell(p, a, b);
      ReducedSplit(p, a, 0);
      ReducedSplit(p, b, j);
      DropCell(multiset(Reduced(p, Without(a, 0))), multiset(Reduced(p, Without(b, j))), ReducedCell(p, a[0]));
      CellsBalance(p, Without(a, 0), Without(b, j), beta, gamma);
      RootsWithout(a, 0, beta);
      RootsWithout(b, j, beta);
      RootAt(a, 0, beta);
      RootAt(b, j, beta);
      VanishSplit(Roots(a, beta), 0, gamma);
      VanishSplit(Roots(b, beta), j, gamma);
      SameCellSameRoot(p, a[0], b[j], beta);
      EqRefl(p, gamma);
      EqSub(p, gamma, gamma, Root(a[0], beta), Root(b[j], beta));
      EqMul(p, Vanish(Others(Roots(a, beta), 0), gamma), Vanish(Others(Roots(b, beta), j), gamma),
            gamma - Root(a[0], beta), gamma - Root(b[j], beta));
    }
  }

  lemma DropCell(m: multiset<Cell>, n: multiset<Cell>, x: Cell)
    requires m + multiset{x} == n + multiset{x}
    ensures m == n
  {
    assert m == (m + multiset{x}) - multiset{x} && n == (n + multiset{x}) - multiset{x};
  }

  lemma RootAt(cells: seq<Cell>, i: nat, beta: Fr)
    requires i < |cells|
    ensures Roots(cells, beta)[i] == Root(cells[i], beta)
  {
  }

  lemma SameCell(p: Prime, a: seq<Cell>, b: seq<Cell>) returns (j: nat)
    requires a != [] && multiset(Reduced(p, a)) == multiset(Reduced(p, b))
    ensures j < |b| && ReducedCell(p, b[j]) == ReducedCell(p, a[0])
  {
    hide ReducedCell;
    assert Reduced(p, a)[0] in multiset(Reduced(p, a));
    assert Reduced(p, a)[0] in Reduced(p, b);
    j :| 0 <= j < |b| && Reduced(p, b)[j] == Reduced(p, a)[0];
  }

  // ---------------------------------------------------------- different cells seldom balance

  lemma {:induction false} CountAtMost(cells: seq<Cell>, x: Cell, r: seq<int>, t: int)
    requires |cells| == |r| && forall i :: 0 <= i < |cells| && cells[i] == x ==> r[i] == t
    ensures multiset(cells)[x] <= multiset(r)[t]
  {
    if cells != [] {
      var n := |cells| - 1;
      CountAtMost(cells[..n], x, r[..n], t);
      assert cells == cells[..n] + [cells[n]] && r == r[..n] + [r[n]];
    }
  }

  lemma {:induction false} CountAtLeast(cells: seq<Cell>, x: Cell, r: seq<int>, t: int)
    requires |cells| == |r| && forall i :: 0 <= i < |cells| && r[i] == t ==> cells[i] == x
    ensures multiset(r)[t] <= multiset(cells)[x]
  {
    if cells != [] {
      var n := |cells| - 1;
      CountAtLeast(cells[..n], x, r[..n], t);
      assert cells == cells[..n] + [cells[n]] && r == r[..n] + [r[n]];
    }
  }

  lemma OneCellMore(a: seq<Cell>, b: seq<Cell>) returns (x: Cell)
    requires |a| == |b| && multiset(a) != multiset(b)
    ensures multiset(a)[x] > multiset(b)[x]
  {
    var m, n := multiset(a), multiset(b);
    assert m <= n ==> |n - m| == |n| - |m|;
    assert m <= n ==> n == m + (n - m);
    x :| m[x] > n[x];
  }

  /** A beta for which all roots agree makes some other cell of `b` meet the cell that `a` has more of. */
  lemma Collision(p: Prime, a: seq<Cell>, b: seq<Cell>, x: Cell, beta: Fr) returns (j: nat)
    requires |a| == |b| && multiset(Reduced(p, a))[x] > multiset(Reduced(p, b))[x]
    requires multiset(Residues(p, Roots(a, beta))) == multiset(Residues(p, Roots(b, beta)))
    ensures j < |b| && ReducedCell(p, b[j]) != x && Eq(p, Root(b[j], beta), Root(x, beta))
  {
    hide Eq, Rem, Root;
    var t := Rem(p, Root(x, beta));
    forall i | 0 <= i < |a| && Reduced(p, a)[i] == x ensures Residues(p, Roots(a, beta))[i] == t {
      RootOfReduced(p, a[i], beta);
    }
    CountAtMost(Reduced(p, a), x, Residues(p, Roots(a, beta)), t);
    if forall i :: 0 <= i < |b| && Residues(p, Roots(b, beta))[i] == t ==> Reduced(p, b)[i] == x {
      CountAtLeast(Reduced(p, b), x, Residues(p, Roots(b, beta)), t);
    }
    j :| 0 <= j < |b| && Residues(p, Roots(b, beta))[j] == t && Reduced(p, b)[j] != x;
    EqIsSameRem(p, Root(b[j], beta), Root(x, beta));
  }

  lemma RootOfReduced(p: Prime, c: Cell, beta: Fr)
    ensures Rem(p, Root(c, beta)) == Rem(p, Root(ReducedCell(p, c), beta))
  {
    hide Eq, Rem;
    RemOfRem(p, c.value);
    RemOfRem(p, c.place);
    SameCellSameRoot(p, c, ReducedCell(p, c), beta);
    EqIsSameRem(p, Root(c, beta), Root(ReducedCell(p, c), beta));
  }

  lemma RemOfRem(p: Prime, a: Fr)
    ensures Rem(p, Rem(p, a)) == Rem(p, a)
  {
    hide Eq, Rem;
    RemIsEq(p, a);
    EqIsSameRem(p, a, Rem(p, a));
  }

  /** Two different cells meet for at most one beta. */
  lemma MeetOnce(p: Prime, c: Cell, d: Cell, beta: Fr, other: Fr)
    requires Eq(p, Root(c, beta), Root(d, beta)) && Eq(p, Root(c, other), Root(d, other))
    requires ReducedCell(p, c) != ReducedCell(p, d)
    ensures Eq(p, beta, other)
  {
    hide Eq, Rem;
    var v, l := c.value - d.value, c.place - d.place;
    MeetsMeans(p, c, d, beta);
    MeetsMeans(p, c, d, other);
    EqSub(p, v + l * beta, 0, v + l * other, 0);
    Distributes(l, beta, other);
    assert (v + l * beta) - (v + l * other) == l * (beta - other);
    NoZeroDivisors(p, l, beta - other);
    EqDifference(p, beta, other);
    if Eq(p, l, 0) {
      EqDifference(p, c.place, d.place);
      EqScale(p, beta, l, 0);
      EqSub(p, v + l * beta, 0, l * beta, 0 * beta);
      EqDifference(p, c.value, d.value);
      EqIsSameRem(p, c.value, d.value);
      EqIsSameRem(p, c.place, d.place);
    }
  }

  lemma MeetsMeans(p: Prime, c: Cell, d: Cell, beta: Fr)
    requires Eq(p, Root(c, beta), Root(d, beta))
    ensures Eq(p, (c.value - d.value) + (c.place - d.place) * beta, 0)
  {
    hide Eq;
    EqSym(p, Root(c, beta), Root(d, beta));
    EqDifference(p, Root(d, beta), Root(c, beta));
    Distributes(beta, c.place, d.place);
  }

  lemma {:induction false} Pigeonhole(js: seq<nat>, n: nat)
    requires forall i :: 0 <= i < |js| ==> js[i] < n
    requires forall i, k :: 0 <= i < k < |js| ==> js[i] != js[k]
    ensures |js| <= n
    decreases n
  {
    if js != [] {
      assert js[0] < n;
      var m := n - 1;
      if exists z :: 0 <= z < |js| && js[z] == m {
        var z :| 0 <= z < |js| && js[z] == m;
        var rest := js[..z] + js[z + 1..];
        forall i, k | 0 <= i < k < |rest| ensures rest[i] != rest[k] {
          var i', k' := if i < z then i else i + 1, if k < z then k else k + 1;
          assert rest[i] == js[i'] && rest[k] == js[k'];
        }
        forall i | 0 <= i < |rest| ensures rest[i] < m {
          var i' := if i < z then i else i + 1;
          assert rest[i] == js[i'];
        }
        Pigeonhole(rest, m);
      } else {
        Pigeonhole(js, m);
      }
    }
  }

  /** Both products agree at these challenges. */
  ghost predicate CellsAgree(p: Prime, a: seq<Cell>, b: seq<Cell>, beta: Fr, gammas: seq<Fr>) {
    Distinct(p, gammas) && |gammas| >= |a| && Agree(p, Roots(a, beta), Roots(b, beta), gammas)
  }

  lemma AgreeingBeta(p: Prime, a: seq<Cell>, b: seq<Cell>, x: Cell, beta: Fr, gammas: seq<Fr>) returns (j: nat)
    requires |a| == |b| && multiset(Reduced(p, a))[x] > multiset(Reduced(p, b))[x]
    requires CellsAgree(p, a, b, beta, gammas)
    ensures j < |b| && ReducedCell(p, b[j]) != x && Eq(p, Root(b[j], beta), Root(x, beta))
  {
    hide Eq, Vanish, Reduced, Residues, Roots, Root, ReducedCell;
    var points := gammas[..|a|];
    assert Agree(p, Roots(a, beta), Roots(b, beta), points);
    SameRoots(p, Roots(a, beta), Roots(b, beta), points);
    j := Collision(p, a, b, x, beta);
  }

  lemma {:induction false} Collisions(p: Prime, a: seq<Cell>, b: seq<Cell>, x: Cell, betas: seq<Fr>, gammas: seq<seq<Fr>>)
    returns (js: seq<nat>)
    requires |a| == |b| && multiset(Reduced(p, a))[x] > multiset(Reduced(p, b))[x]
    requires |gammas| == |betas| && forall i :: 0 <= i < |betas| ==> CellsAgree(p, a, b, betas[i], gammas[i])
    ensures |js| == |betas| && forall i :: 0 <= i < |js| ==>
              js[i] < |b| && ReducedCell(p, b[js[i]]) != x && Eq(p, Root(b[js[i]], betas[i]), Root(x, betas[i]))
    decreases |betas|
  {
    hide Eq, CellsAgree, Reduced, ReducedCell, Root;
    if betas == [] {
      js := [];
    } else {
      var n := |betas| - 1;
      var front := Collisions(p, a, b, x, betas[..n], gammas[..n]);
      var j := AgreeingBeta(p, a, b, x, betas[n], gammas[n]);
      js := front + [j];
    }
  }

  /** Different cells balance, for all but n betas, at fewer than n gammas. */
  lemma FewBalance(p: Prime, a: seq<Cell>, b: seq<Cell>, betas: seq<Fr>, gammas: seq<seq<Fr>>)
    requires |a| == |b| && multiset(Reduced(p, a)) != multiset(Reduced(p, b))
    requires Distinct(p, betas) && |gammas| == |betas|
    requires forall i :: 0 <= i < |betas| ==> CellsAgree(p, a, b, betas[i], gammas[i])
    ensures |betas| <= |a|
  {
    hide Eq, CellsAgree, Reduced, ReducedCell, Root;
    var x := OneCellMore(Reduced(p, a), Reduced(p, b));
    var js := Collisions(p, a, b, x, betas, gammas);
    forall i, k | 0 <= i < k < |js| ensures js[i] != js[k] {
      if js[i] == js[k] {
        ReducedIsReduced(p, a, x);
        MeetOnce(p, b[js[i]], x, betas[i], betas[k]);
      }
    }
    Pigeonhole(js, |b|);
  }

  lemma ReducedIsReduced(p: Prime, a: seq<Cell>, x: Cell)
    requires multiset(Reduced(p, a))[x] > 0
    ensures ReducedCell(p, x) == x
  {
    hide Rem;
    assert x in Reduced(p, a);
    var i :| 0 <= i < |a| && Reduced(p, a)[i] == x;
    RemOfRem(p, a[i].value);
    RemOfRem(p, a[i].place);
  }

  // ---------------------------------------------------------------------- copies of wires

  function Places(p: Prime, cells: seq<Cell>): (r: seq<int>)
    ensures |r| == |cells|
  {
    seq(|cells|, i requires 0 <= i < |cells| => Rem(p, cells[i].place))
  }

  /** Cells that carry the same label carry the same value. */
  ghost predicate Copied(p: Prime, a: seq<Cell>, b: seq<Cell>) {
    forall i, j :: 0 <= i < |a| && 0 <= j < |b| && Rem(p, a[i].place) == Rem(p, b[j].place) ==>
      Rem(p, a[i].value) == Rem(p, b[j].value)
  }

  /** The labels on the right are those on the left, each of which is used once. */
  ghost predicate Permutes(p: Prime, a: seq<Cell>, b: seq<Cell>) {
    && multiset(Places(p, a)) == multiset(Places(p, b))
    && forall i, j :: 0 <= i < j < |a| ==> Rem(p, a[i].place) != Rem(p, a[j].place)
  }

  lemma PlacesSplit(p: Prime, cells: seq<Cell>, i: nat)
    requires i < |cells|
    ensures multiset(Places(p, cells)) == multiset(Places(p, Without(cells, i))) + multiset{Rem(p, cells[i].place)}
  {
    hide Rem;
    var r := Places(p, cells);
    assert r == r[..i] + [r[i]] + r[i + 1..];
    assert Places(p, Without(cells, i)) == r[..i] + r[i + 1..];
  }

  lemma DropPlace(m: multiset<int>, n: multiset<int>, x: int)
    requires m + multiset{x} == n + multiset{x}
    ensures m == n
  {
    assert m == (m + multiset{x}) - multiset{x} && n == (n + multiset{x}) - multiset{x};
  }

  lemma {:induction false} CopiedIsSameCells(p: Prime, a: seq<Cell>, b: seq<Cell>)
    requires multiset(Places(p, a)) == multiset(Places(p, b)) && Copied(p, a, b)
    ensures multiset(Reduced(p, a)) == multiset(Reduced(p, b))
    decreases |a|
  {
    hide Rem;
    assert |a| == |multiset(Places(p, a))| == |multiset(Places(p, b))| == |b|;
    if a == [] {
      assert Reduced(p, a) == [] == Reduced(p, b);
    } else {
      assert Places(p, a)[0] in multiset(Places(p, b));
      var j :| 0 <= j < |b| && Places(p, b)[j] == Places(p, a)[0];
      PlacesSplit(p, a, 0);
      PlacesSplit(p, b, j);
      DropPlace(multiset(Places(p, Without(a, 0))), multiset(Places(p, Without(b, j))), Rem(p, a[0].place));
      CopiedWithout(p, a, b, j);
      CopiedIsSameCells(p, Without(a, 0), Without(b, j));
      ReducedSplit(p, a, 0);
      ReducedSplit(p, b, j);
    }
  }

  lemma CopiedWithout(p: Prime, a: seq<Cell>, b: seq<Cell>, j: nat)
    requires a != [] && j < |b| && Copied(p, a, b)
    ensures Copied(p, Without(a, 0), Without(b, j))
  {
    hide Rem;
    forall i, k | 0 <= i < |a| - 1 && 0 <= k < |b| - 1 && Rem(p, Without(a, 0)[i].place) == Rem(p, Without(b, j)[k].place)
      ensures Rem(p, Without(a, 0)[i].value) == Rem(p, Without(b, j)[k].value)
    {
      var k' := if k < j then k else k + 1;
      assert Without(a, 0)[i] == a[i + 1] && Without(b, j)[k] == b[k'];
    }
  }

  /** With a permutation of distinct labels, the cells are the same exactly when every copy holds. */
  lemma SameCellsExactly(p: Prime, a: seq<Cell>, b: seq<Cell>)
    requires Permutes(p, a, b)
    ensures multiset(Reduced(p, a)) == multiset(Reduced(p, b)) <==> Copied(p, a, b)
  {
    hide Rem;
    if Copied(p, a, b) {
      CopiedIsSameCells(p, a, b);
    }
    if multiset(Reduced(p, a)) == multiset(Reduced(p, b)) {
      forall i, j | 0 <= i < |a| && 0 <= j < |b| && Rem(p, a[i].place) == Rem(p, b[j].place)
        ensures Rem(p, a[i].value) == Rem(p, b[j].value)
      {
        assert Reduced(p, b)[j] in multiset(Reduced(p, a));
        var k :| 0 <= k < |a| && Reduced(p, a)[k] == Reduced(p, b)[j];
        assert Rem(p, a[k].place) == Rem(p, a[i].place);
      }
    }
  }

  // ------------------------------------------------------------------------- main results

  /**
   Completeness: when every copy that the wiring demands holds, between wires and with the public inputs,
   the trace balances its public inputs at all challenges.
   */
  lemma CopiesBalance(p: Prime, rows: seq<Row>, rp: Parameters, inputs: seq<Fr>, offset: nat)
    requires Permutes(p, Left(rows, inputs, offset), Right(rows, inputs, offset))
    requires Copied(p, Left(rows, inputs, offset), Right(rows, inputs, offset))
    ensures Balanced(p, rows, rp, inputs, offset)
  {
    hide *;
    SameCellsExactly(p, Left(rows, inputs, offset), Right(rows, inputs, offset));
    CellsBalance(p, Left(rows, inputs, offset), Right(rows, inputs, offset), rp.beta, rp.gamma);
    BalancedIsCells(p, rows, rp, inputs, offset);
  }

  /** The same wires with the same labels; a prover may fill in the grand product as it likes. */
  ghost predicate SameWires(a: seq<Row>, b: seq<Row>) {
    |a| == |b| && forall k :: 0 <= k < |a| ==> IdCells(a[k]) == IdCells(b[k]) && SigmaCells(a[k]) == SigmaCells(b[k])
  }

  /** At these challenges some grand product makes the permutation subrelations vanish on these wires. */
  ghost predicate Provable(p: Prime, rows: seq<Row>, inputs: seq<Fr>, offset: nat, beta: Fr, gamma: Fr) {
    exists filled: seq<Row>, seps: seq<Fr>, delta: Fr ::
      && SameWires(rows, filled) && PermutationHolds(p, filled, Parameters(beta, gamma, delta), seps)
      && Eq(p, Product(DeltaNumerators(inputs, beta, gamma, offset)),
            delta * Product(DeltaDenominators(inputs, beta, gamma, offset)))
  }

  lemma {:induction false} SameCells(a: seq<Row>, b: seq<Row>)
    requires SameWires(a, b)
    ensures AllIdCells(a) == AllIdCells(b) && AllSigmaCells(a) == AllSigmaCells(b)
  {
    hide IdCells, SigmaCells;
    if a != [] {
      SameCells(a[..|a| - 1], b[..|b| - 1]);
    }
  }

  lemma ProvableAgrees(p: Prime, rows: seq<Row>, inputs: seq<Fr>, offset: nat, beta: Fr, gamma: Fr)
    requires Provable(p, rows, inputs, offset, beta, gamma)
    ensures Eq(p, Vanish(Roots(Left(rows, inputs, offset), beta), gamma), Vanish(Roots(Right(rows, inputs, offset), beta), gamma))
  {
    hide Eq, Vanish, Roots, PermutationHolds, SameWires, Balanced, DeltaNumerators, DeltaDenominators, Product, AllIdCells,
         AllSigmaCells;
    var filled, seps, delta :|
      && SameWires(rows, filled) && PermutationHolds(p, filled, Parameters(beta, gamma, delta), seps)
      && Eq(p, Product(DeltaNumerators(inputs, beta, gamma, offset)),
            delta * Product(DeltaDenominators(inputs, beta, gamma, offset)));
    var rp := Parameters(beta, gamma, delta);
    PermutationWithPublicInputs(p, filled, rp, seps, inputs, offset);
    BalancedIsCells(p, filled, rp, inputs, offset);
    SameCells(rows, filled);
  }

  /**
   Soundness: when some copy is broken, all but n beta challenges leave fewer than n gamma challenges at
   which any grand product satisfies the permutation subrelations, for n the number of cells.
   */
  lemma BrokenCopyIsSeen(p: Prime, rows: seq<Row>, inputs: seq<Fr>, offset: nat, betas: seq<Fr>, gammas: seq<seq<Fr>>)
    requires Permutes(p, Left(rows, inputs, offset), Right(rows, inputs, offset))
    requires !Copied(p, Left(rows, inputs, offset), Right(rows, inputs, offset))
    requires Distinct(p, betas) && |gammas| == |betas|
    requires forall i :: 0 <= i < |betas| ==> Distinct(p, gammas[i]) && |gammas[i]| >= 4 * |rows| + |inputs|
    requires forall i, l :: 0 <= i < |betas| && 0 <= l < |gammas[i]| ==>
               Provable(p, rows, inputs, offset, betas[i], gammas[i][l])
    ensures |betas| <= 4 * |rows| + |inputs|
  {
    hide Permutes, Copied, Provable, Distinct, Eq, Vanish, Roots, Reduced;
    var a, b := Left(rows, inputs, offset), Right(rows, inputs, offset);
    SameCellsExactly(p, a, b);
    forall i | 0 <= i < |betas| ensures CellsAgree(p, a, b, betas[i], gammas[i]) {
      forall l | 0 <= l < |gammas[i]|
        ensures Eq(p, Vanish(Roots(a, betas[i]), gammas[i][l]), Vanish(Roots(b, betas[i]), gammas[i][l]))
      {
        ProvableAgrees(p, rows, inputs, offset, betas[i], gammas[i][l]);
      }
    }
    FewBalance(p, a, b, betas, gammas);
  }
}
