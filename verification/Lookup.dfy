/** The lookup subrelations, and what they are for: every entry looked up is in the table. */
module Lookup {
  import opened Field
  import opened Polynomial
  import opened Relations
  import opened Shplonk

  const Q_LOOKUP := 10
  const TABLE1 := 11
  const Q_M := 15
  const Q_R := 16
  const Q_O := 17
  const Q_C := 18
  const INVERSES := 33
  const READ_COUNTS := 34
  const READ_TAGS := 35
  const WR_SHIFT := 37
  const WO_SHIFT := 38

  /** One line of a lookup table. */
  datatype Entry = Entry(a: Fr, b: Fr, c: Fr, d: Fr)

  /** What the row looks up: its first three wires, with steps from the next row mixed in, and the table's number. */
  function Looked(r: Row): Entry {
    Entry(r[WL] + r[Q_R] * r[WL_SHIFT], r[WR] + r[Q_M] * r[WR_SHIFT], r[WO] + r[Q_C] * r[WO_SHIFT], r[Q_O])
  }

  /** The line of the table that is stored in the row. */
  function Listed(r: Row): Entry {
    Entry(r[TABLE1], r[TABLE1 + 1], r[TABLE1 + 2], r[TABLE1 + 3])
  }

  /** An entry compressed to one element by powers of beta. */
  function Compressed(e: Entry, beta: Fr): Fr {
    Eval([e.a, e.b, e.c, e.d], beta)
  }

  /** One where the row is read from or reads, zero elsewhere, if the selector and the tag are bits. */
  function InverseExists(r: Row): Fr {
    r[READ_TAGS] + r[Q_LOOKUP] - r[READ_TAGS] * r[Q_LOOKUP]
  }

  function ReadTerm(r: Row, rp: Parameters): Fr {
    Compressed(Looked(r), rp.beta) + rp.gamma
  }

  function WriteTerm(r: Row, rp: Parameters): Fr {
    Compressed(Listed(r), rp.beta) + rp.gamma
  }

  /** Vanishes when the inverse column holds the inverse of the two terms where it is needed. */
  function InverseGap(r: Row, rp: Parameters): Fr {
    ReadTerm(r, rp) * WriteTerm(r, rp) * r[INVERSES] - InverseExists(r)
  }

  /** The row's part of the log-derivative sum, which vanishes only in total. */
  function SumPart(r: Row, rp: Parameters): Fr {
    r[Q_LOOKUP] * (WriteTerm(r, rp) * r[INVERSES]) - r[READ_COUNTS] * (ReadTerm(r, rp) * r[INVERSES])
  }

  lemma CompressedIs(e: Entry, beta: Fr)
    ensures Compressed(e, beta) == e.a + e.b * beta + e.c * (beta * beta) + e.d * (beta * beta * beta)
  {
    var c: Poly := [e.a, e.b, e.c, e.d];
    assert c[1..] == [e.b, e.c, e.d] && c[1..][1..] == [e.c, e.d] && c[1..][1..][1..] == [e.d] && c[1..][1..][1..][1..] == [];
    assert Eval([e.d], beta) == e.d + beta * 0;
    assert Eval([e.c, e.d], beta) == e.c + beta * e.d;
    assert Eval([e.b, e.c, e.d], beta) == e.b + beta * (e.c + beta * e.d);
    Distributes(beta, e.c, beta * e.d);
    Distributes(beta, e.b, beta * e.c + beta * (beta * e.d));
    Distributes(beta, beta * e.c, beta * (beta * e.d));
    Assoc(beta, beta, e.c);
    Assoc(beta, beta, e.d);
    Assoc(beta, beta * beta, e.d);
  }

  /** `accumulate_log_derivative_lookup_relation` */
  method AccumulateLookup(r: Row, rp: Parameters, evals: array<Fr>, domainSep: Fr)
    requires evals.Length == 29
    modifies evals
    ensures evals[3] == InverseGap(r, rp) * domainSep
    ensures evals[4] == SumPart(r, rp)
    ensures evals[5] == (r[READ_TAGS] * r[READ_TAGS] - r[READ_TAGS]) * domainSep
    ensures evals[..3] == old(evals[..3]) && evals[6..] == old(evals[6..])
  {
    hide Compressed;
    var betaTwo := rp.beta * rp.beta;
    var betaThree := betaTwo * rp.beta;
    var writeTerm := r[TABLE1] + rp.gamma + r[TABLE1 + 1] * rp.beta + r[TABLE1 + 2] * betaTwo + r[TABLE1 + 3] * betaThree;
    var derived2 := r[WR] + r[Q_M] * r[WR_SHIFT];
    var derived3 := r[WO] + r[Q_C] * r[WO_SHIFT];
    var readTerm := r[WL] + rp.gamma + r[Q_R] * r[WL_SHIFT] + derived2 * rp.beta + derived3 * betaTwo + r[Q_O] * betaThree;
    CompressedIs(Listed(r), rp.beta);
    CompressedIs(Looked(r), rp.beta);
    assert writeTerm == WriteTerm(r, rp) && readTerm == ReadTerm(r, rp);
    var inv := r[INVERSES];
    var invExists := r[READ_TAGS] + r[Q_LOOKUP] - r[READ_TAGS] * r[Q_LOOKUP];
    evals[3] := (readTerm * writeTerm * inv - invExists) * domainSep;
    evals[4] := r[Q_LOOKUP] * (writeTerm * inv) - r[READ_COUNTS] * (readTerm * inv);
    evals[5] := (r[READ_TAGS] * r[READ_TAGS] - r[READ_TAGS]) * domainSep;
  }

  // ----------------------------------------------------------------- fractions with poles

  /** The fraction `weight / (X - pole)`. */
  datatype Item = Item(pole: Fr, weight: Fr)

  /** The sum of the fractions at a point, given the inverses of the point's distances to the poles. */
  function Fractions(items: seq<Item>, vs: seq<Fr>): Fr
    requires |items| == |vs|
  {
    if items == [] then 0
    else Fractions(items[..|items| - 1], vs[..|vs| - 1]) + items[|items| - 1].weight * vs[|vs| - 1]
  }

  ghost predicate AreInverses(p: Prime, items: seq<Item>, x: Fr, vs: seq<Fr>) {
    |vs| == |items| && forall i :: 0 <= i < |items| ==> Eq(p, (x - items[i].pole) * vs[i], 1)
  }

  /** The poles that differ from `a`. */
  function OtherPoles(p: Prime, items: seq<Item>, a: Fr): seq<Fr> {
    if items == [] then []
    else
      var front, last := OtherPoles(p, items[..|items| - 1], a), items[|items| - 1].pole;
      if Eq(p, last, a) then front else front + [last]
  }

  /** The weight at the pole `a`. */
  function WeightAt(p: Prime, items: seq<Item>, a: Fr): Fr {
    if items == [] then 0
    else WeightAt(p, items[..|items| - 1], a) + if Eq(p, items[|items| - 1].pole, a) then items[|items| - 1].weight else 0
  }

  /** The numerator of the fractions with the other poles. */
  function Numerator(p: Prime, items: seq<Item>, a: Fr): Poly {
    if items == [] then []
    else
      var front, last := items[..|items| - 1], items[|items| - 1];
      if Eq(p, last.pole, a) then Numerator(p, front, a)
      else Plus(TimesLinear(Numerator(p, front, a), last.pole), Scale(last.weight, VanishPoly(OtherPoles(p, front, a))))
  }

  /** `(X - a) * prod (X - b) * sum`, over the poles b that differ from a. */
  function ClearedPoly(p: Prime, items: seq<Item>, a: Fr): Poly {
    Plus(Scale(WeightAt(p, items, a), VanishPoly(OtherPoles(p, items, a))), TimesLinear(Numerator(p, items, a), a))
  }

  lemma EvalClearedPoly(p: Prime, items: seq<Item>, a: Fr, x: Fr)
    ensures Eval(ClearedPoly(p, items, a), x)
         == WeightAt(p, items, a) * Vanish(OtherPoles(p, items, a), x) + Eval(Numerator(p, items, a), x) * (x - a)
  {
    hide Eval, VanishPoly, Eq;
    var v := VanishPoly(OtherPoles(p, items, a));
    EvalPlus(Scale(WeightAt(p, items, a), v), TimesLinear(Numerator(p, items, a), a), x);
    EvalScale(WeightAt(p, items, a), v, x);
    EvalVanishPoly(OtherPoles(p, items, a), x);
    EvalTimesLinear(Numerator(p, items, a), a, x);
  }

  lemma NumeratorUnfolds(p: Prime, items: seq<Item>, a: Fr)
    requires items != [] && !Eq(p, items[|items| - 1].pole, a)
    ensures var front, last := items[..|items| - 1], items[|items| - 1];
            Numerator(p, items, a)
            == Plus(TimesLinear(Numerator(p, front, a), last.pole), Scale(last.weight, VanishPoly(OtherPoles(p, front, a))))
  {
    hide Eq, Plus, TimesLinear, Scale, VanishPoly, OtherPoles;
  }

  lemma EvalNumerator(p: Prime, items: seq<Item>, a: Fr, x: Fr)
    requires items != [] && !Eq(p, items[|items| - 1].pole, a)
    ensures var front, last := items[..|items| - 1], items[|items| - 1];
            Eval(Numerator(p, items, a), x)
            == Eval(Numerator(p, front, a), x) * (x - last.pole) + last.weight * Vanish(OtherPoles(p, front, a), x)
  {
    hide *;
    NumeratorUnfolds(p, items, a);
    var front, last := items[..|items| - 1], items[|items| - 1];
    var v := VanishPoly(OtherPoles(p, front, a));
    EvalPlus(TimesLinear(Numerator(p, front, a), last.pole), Scale(last.weight, v), x);
    EvalTimesLinear(Numerator(p, front, a), last.pole, x);
    EvalScale(last.weight, v, x);
    EvalVanishPoly(OtherPoles(p, front, a), x);
  }

  lemma {:induction false} OthersDiffer(p: Prime, items: seq<Item>, a: Fr)
    ensures forall i :: 0 <= i < |OtherPoles(p, items, a)| ==> !Eq(p, a, OtherPoles(p, items, a)[i])
  {
    hide Eq;
    if items != [] {
      OthersDiffer(p, items[..|items| - 1], a);
      var last := items[|items| - 1].pole;
      if !Eq(p, last, a) && Eq(p, a, last) { EqSym(p, a, last); }
    }
  }

  /** The cleared polynomial is not zero where the pole has weight. */
  lemma ClearedNonzero(p: Prime, items: seq<Item>, a: Fr)
    requires !Eq(p, WeightAt(p, items, a), 0)
    ensures !ZeroPoly(p, ClearedPoly(p, items, a))
  {
    hide Eq, Eval, Vanish, ClearedPoly, Numerator;
    if ZeroPoly(p, ClearedPoly(p, items, a)) {
      EvalZeroPoly(p, ClearedPoly(p, items, a), a);
      EvalClearedPoly(p, items, a, a);
      assert Eval(Numerator(p, items, a), a) * (a - a) == 0;
      OthersDiffer(p, items, a);
      VanishNonzero(p, OtherPoles(p, items, a), a);
      NoZeroDivisors(p, WeightAt(p, items, a), Vanish(OtherPoles(p, items, a), a));
    }
  }

  /** Multiplying the sum of the fractions out. */
  lemma {:induction false} ClearedValue(p: Prime, items: seq<Item>, a: Fr, x: Fr, vs: seq<Fr>)
    requires AreInverses(p, items, x, vs)
    ensures Eq(p, Eval(ClearedPoly(p, items, a), x), (x - a) * Vanish(OtherPoles(p, items, a), x) * Fractions(items, vs))
  {
    hide Eq, Eval, ClearedPoly, Numerator, Vanish;
    EvalClearedPoly(p, items, a, x);
    if items == [] {
      NoItems(p, a, x);
      EqRefl(p, 0);
    } else {
      var m := |items| - 1;
      var front, last, v, us := items[..m], items[m], vs[m], vs[..m];
      ClearedValue(p, front, a, x, us);
      EvalClearedPoly(p, front, a, x);
      var o, w, n, s := Vanish(OtherPoles(p, front, a), x), WeightAt(p, front, a), Eval(Numerator(p, front, a), x), Fractions(front, us);
      assert Eq(p, (x - last.pole) * v, 1);
      if Eq(p, last.pole, a) {
        SamePole(p, items, a);
        AddAtPole(p, x, a, last.pole, v, last.weight, o, w, n, s);
      } else {
        EvalNumerator(p, items, a, x);
        NewPole(p, items, a, x);
        AddAway(p, x, a, last.pole, v, last.weight, o, w, n, s);
      }
    }
  }

  lemma NoItems(p: Prime, a: Fr, x: Fr)
    ensures WeightAt(p, [], a) == 0 && Eval(Numerator(p, [], a), x) == 0 && Fractions([], []) == 0
  {
  }

  lemma SamePole(p: Prime, items: seq<Item>, a: Fr)
    requires items != [] && Eq(p, items[|items| - 1].pole, a)
    ensures var front, last := items[..|items| - 1], items[|items| - 1];
            && OtherPoles(p, items, a) == OtherPoles(p, front, a) && Numerator(p, items, a) == Numerator(p, front, a)
            && WeightAt(p, items, a) == WeightAt(p, front, a) + last.weight
  {
  }

  lemma NewPole(p: Prime, items: seq<Item>, a: Fr, x: Fr)
    requires items != [] && !Eq(p, items[|items| - 1].pole, a)
    ensures var front, last := items[..|items| - 1], items[|items| - 1];
            && Vanish(OtherPoles(p, items, a), x) == Vanish(OtherPoles(p, front, a), x) * (x - last.pole)
            && WeightAt(p, items, a) == WeightAt(p, front, a)
  {
    var front, last := items[..|items| - 1], items[|items| - 1];
    var o := OtherPoles(p, front, a) + [last.pole];
    assert o[..|o| - 1] == OtherPoles(p, front, a);
  }

  lemma AddAtPole(p: Prime, x: Fr, a: Fr, b: Fr, v: Fr, y: Fr, o: Fr, w: Fr, n: Fr, s: Fr)
    requires Eq(p, b, a) && Eq(p, (x - b) * v, 1)
    requires Eq(p, w * o + n * (x - a), (x - a) * o * s)
    ensures Eq(p, (w + y) * o + n * (x - a), (x - a) * o * (s + y * v))
  {
    hide Eq;
    EqRefl(p, x);
    EqSub(p, x, x, b, a);
    EqScale(p, v, x - b, x - a);
    EqSym(p, (x - b) * v, (x - a) * v);
    EqTrans(p, (x - a) * v, (x - b) * v, 1);
    EqSym(p, (x - a) * v, 1);
    EqScale(p, y * o, 1, (x - a) * v);
    EqAdd(p, w * o + n * (x - a), (x - a) * o * s, (y * o) * 1, (y * o) * ((x - a) * v));
    AtPoleAlgebra(x - a, o, s, w, y, v);
  }

  lemma AtPoleAlgebra(d: Fr, o: Fr, s: Fr, w: Fr, y: Fr, v: Fr)
    ensures (w + y) * o == w * o + (y * o) * 1
    ensures d * o * s + (y * o) * (d * v) == d * o * (s + y * v)
  {
    Distributes(o, w, y);
    Distributes(d * o, s, y * v);
    SwapFour(y, o, d, v);
    SwapFour(d, o, y, v);
    assert (y * d) * (o * v) == (d * y) * (o * v);
  }

  lemma AddAway(p: Prime, x: Fr, a: Fr, b: Fr, v: Fr, y: Fr, o: Fr, w: Fr, n: Fr, s: Fr)
    requires Eq(p, (x - b) * v, 1)
    requires Eq(p, w * o + n * (x - a), (x - a) * o * s)
    ensures Eq(p, w * (o * (x - b)) + (n * (x - b) + y * o) * (x - a), (x - a) * (o * (x - b)) * (s + y * v))
  {
    hide Eq;
    EqScale(p, x - b, w * o + n * (x - a), (x - a) * o * s);
    EqSym(p, (x - b) * v, 1);
    EqScale(p, (x - a) * o * y, 1, (x - b) * v);
    EqAdd(p, (w * o + n * (x - a)) * (x - b), ((x - a) * o * s) * (x - b),
          ((x - a) * o * y) * 1, ((x - a) * o * y) * ((x - b) * v));
    AwayLeft(x - a, x - b, o, w, n, y);
    AwayRight(x - a, x - b, o, s, y, v);
  }

  lemma AwayLeft(d: Fr, e: Fr, o: Fr, w: Fr, n: Fr, y: Fr)
    ensures (w * o + n * d) * e + (d * o * y) * 1 == w * (o * e) + (n * e + y * o) * d
  {
    Distributes(e, w * o, n * d);
    Assoc(w, o, e);
    Swap(n, d, e);
    Distributes(d, n * e, y * o);
    assert d * o * y == (y * o) * d by { Assoc(d, o, y); assert o * y == y * o; }
  }

  lemma AwayRight(d: Fr, e: Fr, o: Fr, s: Fr, y: Fr, v: Fr)
    ensures (d * o * s) * e + (d * o * y) * (e * v) == d * (o * e) * (s + y * v)
  {
    Assoc(d, o, e);
    Swap(d * o, s, e);
    Distributes(d * o * e, s, y * v);
    SwapFour(d * o, y, e, v);
  }

  // --------------------------------------------------------------------- lookups as poles

  /** Each row reads its entry, if selected, and is read as often as it says. */
  function RowItems(r: Row, beta: Fr): (items: seq<Item>)
    ensures |items| == 2
  {
    [Item(0 - Compressed(Looked(r), beta), r[Q_LOOKUP]),
     Item(0 - Compressed(Listed(r), beta), 0 - InverseExists(r) * r[READ_COUNTS])]
  }

  function AllItems(rows: seq<Row>, beta: Fr): (items: seq<Item>)
    ensures |items| == 2 * |rows|
  {
    if rows == [] then [] else AllItems(rows[..|rows| - 1], beta) + RowItems(rows[|rows| - 1], beta)
  }

  function SumTotal(rows: seq<Row>, rp: Parameters): Fr {
    if rows == [] then 0 else SumTotal(rows[..|rows| - 1], rp) + SumPart(rows[|rows| - 1], rp)
  }

  /** The selector is a bit, as the circuit fixes it. */
  ghost predicate Selectors(p: Prime, rows: seq<Row>) {
    forall i :: 0 <= i < |rows| ==> Eq(p, rows[i][Q_LOOKUP], 0) || Eq(p, rows[i][Q_LOOKUP], 1)
  }

  /** The inverse subrelation vanishes on every row, and the sum in total. */
  ghost predicate LookupHolds(p: Prime, rows: seq<Row>, rp: Parameters) {
    (forall i :: 0 <= i < |rows| ==> Eq(p, InverseGap(rows[i], rp), 0)) && Eq(p, SumTotal(rows, rp), 0)
  }

  /** No term of a row vanishes at these challenges. */
  ghost predicate NoZeroTerm(p: Prime, rows: seq<Row>, rp: Parameters) {
    forall i :: 0 <= i < |rows| ==> !Eq(p, ReadTerm(rows[i], rp), 0) && !Eq(p, WriteTerm(rows[i], rp), 0)
  }

  function TermInverses(p: Prime, rows: seq<Row>, rp: Parameters): (vs: seq<Fr>)
    ensures |vs| == 2 * |rows|
  {
    if rows == [] then []
    else TermInverses(p, rows[..|rows| - 1], rp)
         + [Inv(p, ReadTerm(rows[|rows| - 1], rp)), Inv(p, WriteTerm(rows[|rows| - 1], rp))]
  }

  lemma {:induction false} TermsInverted(p: Prime, rows: seq<Row>, rp: Parameters)
    requires NoZeroTerm(p, rows, rp)
    ensures AreInverses(p, AllItems(rows, rp.beta), rp.gamma, TermInverses(p, rows, rp))
  {
    hide Eq, Compressed, Inv, Looked, Listed;
    if rows != [] {
      var r := rows[|rows| - 1];
      TermsInverted(p, rows[..|rows| - 1], rp);
      InvIsInverse(p, ReadTerm(r, rp));
      InvIsInverse(p, WriteTerm(r, rp));
      var items := AllItems(rows, rp.beta);
      assert rp.gamma - (0 - Compressed(Looked(r), rp.beta)) == ReadTerm(r, rp);
      assert rp.gamma - (0 - Compressed(Listed(r), rp.beta)) == WriteTerm(r, rp);
    }
  }

  lemma FractionsOfTwo(items: seq<Item>, vs: seq<Fr>, a: Item, b: Item, v: Fr, w: Fr)
    requires |items| == |vs|
    ensures Fractions(items + [a, b], vs + [v, w]) == Fractions(items, vs) + a.weight * v + b.weight * w
  {
    var all, us := items + [a, b], vs + [v, w];
    assert all[..|all| - 1] == items + [a] && us[..|us| - 1] == vs + [v];
    assert (items + [a])[..|items|] == items && (vs + [v])[..|vs|] == vs;
  }

  /** A row's part of the sum is its two fractions. */
  lemma PartIsFractions(p: Prime, q: Fr, ex: Fr, count: Fr, tag: Fr, read: Fr, write: Fr, inv: Fr, v: Fr, w: Fr)
    requires Eq(p, q, 0) || Eq(p, q, 1)
    requires ex == tag + q - tag * q && Eq(p, read * write * inv - ex, 0)
    requires Eq(p, read * v, 1) && Eq(p, write * w, 1)
    ensures Eq(p, q * (write * inv) - count * (read * inv), q * v + (0 - ex * count) * w)
  {
    hide Eq;
    EqDifference(p, read * write * inv, ex);
    Peeled(p, read, write * inv, v, ex, read * write * inv);
    Peeled(p, write, read * inv, w, ex, read * write * inv);
    SelectorAbsorbs(p, q, tag, ex);
    EqScale(p, q, write * inv, v * ex);
    EqScale(p, v, q * ex, q);
    Swap(q, v, ex);
    assert v * (q * ex) == q * (v * ex) && v * q == q * v;
    EqTrans(p, q * (write * inv), q * (v * ex), q * v);
    EqScale(p, count, read * inv, w * ex);
    EqSub(p, q * (write * inv), q * v, count * (read * inv), count * (w * ex));
    Rearranged(ex, count, w);
  }

  lemma Rearranged(ex: Fr, count: Fr, w: Fr)
    ensures (0 - ex * count) * w == 0 - count * (w * ex)
  {
    Assoc(ex, count, w);
    Swap(ex, count, w);
    assert ex * w == w * ex;
    assert (0 - ex * count) * w == 0 - (ex * count) * w;
  }

  /** Dividing one of two factors out. */
  lemma Peeled(p: Prime, t: Fr, rest: Fr, v: Fr, ex: Fr, product: Fr)
    requires Eq(p, t * v, 1) && Eq(p, product, ex) && product == t * rest
    ensures Eq(p, rest, v * ex)
  {
    hide Eq;
    EqScale(p, v, product, ex);
    EqScale(p, rest, t * v, 1);
    Swap(v, t, rest);
    Assoc(t, v, rest);
    EqSym(p, (t * v) * rest, rest);
    EqTrans(p, rest, v * product, v * ex);
  }

  lemma SelectorAbsorbs(p: Prime, q: Fr, tag: Fr, ex: Fr)
    requires (Eq(p, q, 0) || Eq(p, q, 1)) && ex == tag + q - tag * q
    ensures Eq(p, q * ex, q)
  {
    hide Eq;
    // q * ex - q = q * (q - 1) * (1 - tag)
    EqDifference(p, q, 1);
    ZeroFactor(p, q, q - 1);
    ZeroFactor(p, q * (q - 1), 1 - tag);
    AbsorbAlgebra(q, tag);
    EqDifference(p, q * ex, q);
  }

  lemma AbsorbAlgebra(q: Fr, tag: Fr)
    ensures q * (tag + q - tag * q) - q == (q * (q - 1)) * (1 - tag)
  {
    Distributes(q, tag + q, tag * q);
    Distributes(q, tag, q);
    Distributes(q * (q - 1), 1, tag);
    Distributes(q, q, 1);
    Distributes(tag, q * q, q);
    Swap(q, tag, q);
  }

  lemma {:induction false} TotalIsFractions(p: Prime, rows: seq<Row>, rp: Parameters)
    requires Selectors(p, rows) && NoZeroTerm(p, rows, rp)
    requires forall i :: 0 <= i < |rows| ==> Eq(p, InverseGap(rows[i], rp), 0)
    ensures Eq(p, SumTotal(rows, rp), Fractions(AllItems(rows, rp.beta), TermInverses(p, rows, rp)))
  {
    hide Eq, Inv, ReadTerm, WriteTerm, Compressed, Fractions;
    if rows == [] {
      NoItems(p, 0, 0);
      EqRefl(p, 0);
    } else {
      var m := |rows| - 1;
      var r, front := rows[m], rows[..m];
      TotalIsFractions(p, front, rp);
      InvIsInverse(p, ReadTerm(r, rp));
      InvIsInverse(p, WriteTerm(r, rp));
      var v, w := Inv(p, ReadTerm(r, rp)), Inv(p, WriteTerm(r, rp));
      var items := RowItems(r, rp.beta);
      FractionsOfTwo(AllItems(front, rp.beta), TermInverses(p, front, rp), items[0], items[1], v, w);
      assert items == [items[0], items[1]];
      assert Eq(p, InverseGap(r, rp), 0);
      ProductOrder(ReadTerm(r, rp), WriteTerm(r, rp), r[INVERSES]);
      PartIsFractions(p, r[Q_LOOKUP], InverseExists(r), r[READ_COUNTS], r[READ_TAGS], ReadTerm(r, rp), WriteTerm(r, rp),
                      r[INVERSES], v, w);
      EqAdd(p, SumTotal(front, rp), Fractions(AllItems(front, rp.beta), TermInverses(p, front, rp)), SumPart(r, rp),
            items[0].weight * v + items[1].weight * w);
    }
  }

  lemma ProductOrder(a: Fr, b: Fr, c: Fr)
    ensures a * b * c == a * (b * c) && a * b * c == b * (a * c)
  {
  }

  // -------------------------------------------------------------- entries are in the table

  ghost predicate SameEntry(p: Prime, e: Entry, f: Entry) {
    Eq(p, e.a, f.a) && Eq(p, e.b, f.b) && Eq(p, e.c, f.c) && Eq(p, e.d, f.d)
  }

  function EntryGap(e: Entry, f: Entry): Poly {
    [e.a - f.a, e.b - f.b, e.c - f.c, e.d - f.d]
  }

  lemma EvalEntryGap(e: Entry, f: Entry, beta: Fr)
    ensures Eval(EntryGap(e, f), beta) == Compressed(e, beta) - Compressed(f, beta)
  {
    hide Eval;
    CompressedIs(e, beta);
    CompressedIs(f, beta);
    CompressedIs(Entry(e.a - f.a, e.b - f.b, e.c - f.c, e.d - f.d), beta);
    Distributes(beta, e.b, f.b);
    Distributes(beta * beta, e.c, f.c);
    Distributes(beta * beta * beta, e.d, f.d);
  }

  /** Different entries compress to the same element only at the roots of their gap. */
  lemma SameCompression(p: Prime, e: Entry, f: Entry, beta: Fr)
    requires Eq(p, Compressed(e, beta), Compressed(f, beta)) && !Lucky(p, EntryGap(e, f), beta)
    ensures SameEntry(p, e, f)
  {
    hide Eq, Compressed;
    EvalEntryGap(e, f, beta);
    EqDifference(p, Compressed(e, beta), Compressed(f, beta));
    var c := EntryGap(e, f);
    assert Eq(p, c[0], 0) && Eq(p, c[1], 0) && Eq(p, c[2], 0) && Eq(p, c[3], 0);
    EqDifference(p, e.a, f.a);
    EqDifference(p, e.b, f.b);
    EqDifference(p, e.c, f.c);
    EqDifference(p, e.d, f.d);
  }

  ghost predicate Reads(p: Prime, r: Row, beta: Fr, a: Fr) {
    Eq(p, 0 - Compressed(Looked(r), beta), a) && Eq(p, r[Q_LOOKUP], 1)
  }

  /** How many rows read at the pole. */
  ghost function Readers(p: Prime, rows: seq<Row>, beta: Fr, a: Fr): (n: nat)
    ensures n <= |rows|
  {
    if rows == [] then 0
    else Readers(p, rows[..|rows| - 1], beta, a) + if Reads(p, rows[|rows| - 1], beta, a) then 1 else 0
  }

  lemma {:induction false} SomeReader(p: Prime, rows: seq<Row>, beta: Fr, a: Fr, i: nat)
    requires i < |rows| && Reads(p, rows[i], beta, a)
    ensures Readers(p, rows, beta, a) > 0
  {
    if i < |rows| - 1 { SomeReader(p, rows[..|rows| - 1], beta, a, i); }
  }

  lemma WeightOfTwo(p: Prime, items: seq<Item>, x: Item, y: Item, a: Fr)
    ensures WeightAt(p, items + [x, y], a)
         == WeightAt(p, items, a) + (if Eq(p, x.pole, a) then x.weight else 0) + if Eq(p, y.pole, a) then y.weight else 0
  {
    var all := items + [x, y];
    assert all[..|all| - 1] == items + [x] && (items + [x])[..|items|] == items;
  }

  /** At a pole where nothing is listed, the weight is the number of readers. */
  lemma {:induction false} WeightIsReaders(p: Prime, rows: seq<Row>, beta: Fr, a: Fr)
    requires Selectors(p, rows)
    requires forall j :: 0 <= j < |rows| ==> !Eq(p, 0 - Compressed(Listed(rows[j]), beta), a)
    ensures Eq(p, WeightAt(p, AllItems(rows, beta), a), Readers(p, rows, beta, a))
  {
    hide Eq, Compressed, Looked, Listed, WeightAt;
    if rows == [] {
      NoItems(p, a, 0);
      EqRefl(p, 0);
    } else {
      var m := |rows| - 1;
      var r, front := rows[m], rows[..m];
      WeightIsReaders(p, front, beta, a);
      var items := RowItems(r, beta);
      assert items == [items[0], items[1]];
      WeightOfTwo(p, AllItems(front, beta), items[0], items[1], a);
      var w, q := WeightAt(p, AllItems(front, beta), a), r[Q_LOOKUP];
      if Eq(p, items[0].pole, a) {
        BitWeight(p, w, Readers(p, front, beta, a), q);
      }
    }
  }

  lemma BitWeight(p: Prime, w: Fr, n: nat, q: Fr)
    requires Eq(p, w, n) && (Eq(p, q, 0) || Eq(p, q, 1))
    ensures Eq(p, w + q, n + if Eq(p, q, 1) then 1 else 0)
  {
    hide Eq;
    EqAdd(p, w, n, q, if Eq(p, q, 1) then 1 else 0);
  }

  /** A challenge was a root of a nonzero polynomial of the columns, the inverses apart. */
  ghost predicate LuckyLookup(p: Prime, rows: seq<Row>, rp: Parameters, i: nat)
    requires i < |rows|
  {
    || (exists j :: 0 <= j < |rows| && Lucky(p, EntryGap(Looked(rows[i]), Listed(rows[j])), rp.beta))
    || (exists j :: 0 <= j < |rows| && Lucky(p, [Compressed(Looked(rows[j]), rp.beta), 1], rp.gamma))
    || (exists j :: 0 <= j < |rows| && Lucky(p, [Compressed(Listed(rows[j]), rp.beta), 1], rp.gamma))
    || Lucky(p, ClearedPoly(p, AllItems(rows, rp.beta), 0 - Compressed(Looked(rows[i]), rp.beta)), rp.gamma)
  }

  lemma ZeroTermIsLucky(p: Prime, e: Entry, beta: Fr, gamma: Fr)
    requires Eq(p, Compressed(e, beta) + gamma, 0)
    ensures Lucky(p, [Compressed(e, beta), 1], gamma)
  {
    hide Eq, Compressed;
    var c: Poly := [Compressed(e, beta), 1];
    assert c[1..] == [1] && c[1..][1..] == [];
    assert Eval([1], gamma) == 1 + gamma * 0;
    SmallDistinct(p, 1, 0);
    assert !Eq(p, c[1], 0);
  }

  lemma NoZeroTerms(p: Prime, rows: seq<Row>, rp: Parameters, i: nat)
    requires i < |rows| && !LuckyLookup(p, rows, rp, i)
    ensures NoZeroTerm(p, rows, rp)
  {
    hide Eq, Compressed, Looked, Listed, ClearedPoly, Lucky, AllItems;
    forall j | 0 <= j < |rows|
      ensures !Eq(p, ReadTerm(rows[j], rp), 0) && !Eq(p, WriteTerm(rows[j], rp), 0)
    {
      if Eq(p, ReadTerm(rows[j], rp), 0) {
        ZeroTermIsLucky(p, Looked(rows[j]), rp.beta, rp.gamma);
        assert false;
      }
      if Eq(p, WriteTerm(rows[j], rp), 0) {
        ZeroTermIsLucky(p, Listed(rows[j]), rp.beta, rp.gamma);
        assert false;
      }
    }
  }

  ghost predicate InTable(p: Prime, rows: seq<Row>, e: Entry) {
    exists j :: 0 <= j < |rows| && SameEntry(p, e, Listed(rows[j]))
  }

  lemma NotListedNoPole(p: Prime, rows: seq<Row>, rp: Parameters, i: nat, j: nat)
    requires i < |rows| && j < |rows| && !LuckyLookup(p, rows, rp, i) && !InTable(p, rows, Looked(rows[i]))
    ensures !Eq(p, 0 - Compressed(Listed(rows[j]), rp.beta), 0 - Compressed(Looked(rows[i]), rp.beta))
  {
    hide Eq, Compressed, Looked, Listed, ClearedPoly, Lucky, AllItems, SameEntry;
    var x, y := Compressed(Listed(rows[j]), rp.beta), Compressed(Looked(rows[i]), rp.beta);
    if Eq(p, 0 - x, 0 - y) {
      EqScale(p, -1, 0 - x, 0 - y);
      EqSym(p, x, y);
      assert !Lucky(p, EntryGap(Looked(rows[i]), Listed(rows[j])), rp.beta);
      SameCompression(p, Looked(rows[i]), Listed(rows[j]), rp.beta);
      assert false;
    }
  }

  /**
   Soundness of the lookups: when the subrelations hold on fewer rows than the field has elements, every
   entry that a selected row looks up is listed in some row, or a challenge was lucky.
   */
  lemma LookedUpIsListed(p: Prime, rows: seq<Row>, rp: Parameters, i: nat)
    requires Selectors(p, rows) && LookupHolds(p, rows, rp) && |rows| < p
    requires i < |rows| && Eq(p, rows[i][Q_LOOKUP], 1)
    ensures InTable(p, rows, Looked(rows[i])) || LuckyLookup(p, rows, rp, i)
  {
    hide Eq, Compressed, Looked, Listed, InTable, LuckyLookup, Selectors, NoZeroTerm, AreInverses, WeightAt, Fractions, ClearedPoly, Eval,
         AllItems, TermInverses, InverseGap, SumTotal, Vanish;
    if !InTable(p, rows, Looked(rows[i])) && !LuckyLookup(p, rows, rp, i) {
      var a, items, vs := 0 - Compressed(Looked(rows[i]), rp.beta), AllItems(rows, rp.beta), TermInverses(p, rows, rp);
      NoZeroTerms(p, rows, rp, i);
      TermsInverted(p, rows, rp);
      TotalIsFractions(p, rows, rp);
      EqSym(p, SumTotal(rows, rp), Fractions(items, vs));
      EqTrans(p, Fractions(items, vs), SumTotal(rows, rp), 0);
      ClearedValue(p, items, a, rp.gamma, vs);
      ZeroFactor(p, (rp.gamma - a) * Vanish(OtherPoles(p, items, a), rp.gamma), Fractions(items, vs));
      EqTrans(p, Eval(ClearedPoly(p, items, a), rp.gamma),
              (rp.gamma - a) * Vanish(OtherPoles(p, items, a), rp.gamma) * Fractions(items, vs), 0);
      forall j | 0 <= j < |rows| ensures !Eq(p, 0 - Compressed(Listed(rows[j]), rp.beta), a) {
        NotListedNoPole(p, rows, rp, i, j);
      }
      WeightIsReaders(p, rows, rp.beta, a);
      EqRefl(p, a);
      SomeReader(p, rows, rp.beta, a, i);
      HeavyPole(p, WeightAt(p, items, a), Readers(p, rows, rp.beta, a));
      ClearedNonzero(p, items, a);
      ClearedIsLucky(p, rows, rp, i);
      assert false;
    }
  }

  lemma HeavyPole(p: Prime, w: Fr, n: nat)
    requires Eq(p, w, n) && 0 < n < p
    ensures !Eq(p, w, 0)
  {
    hide Eq;
    SmallDistinct(p, n, 0);
    if Eq(p, w, 0) {
      EqSym(p, w, n);
      EqTrans(p, n, w, 0);
    }
  }

  lemma ClearedIsLucky(p: Prime, rows: seq<Row>, rp: Parameters, i: nat)
    requires i < |rows|
    requires var c := ClearedPoly(p, AllItems(rows, rp.beta), 0 - Compressed(Looked(rows[i]), rp.beta));
             !ZeroPoly(p, c) && Eq(p, Eval(c, rp.gamma), 0)
    ensures LuckyLookup(p, rows, rp, i)
  {
    hide Eq, Compressed, ClearedPoly, AllItems, Eval, ZeroPoly;
  }
}
