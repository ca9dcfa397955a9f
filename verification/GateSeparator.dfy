/** Challenge powers of the transcript, and the gate separator as a multilinear extension. */
module GateSeparator {
  import opened Field
  import opened Sumcheck

  function Pow2(n: nat): (r: nat)
    ensures r > 0
  {
    if n == 0 then 1 else 2 * Pow2(n - 1)
  }

  lemma SquareDoubles(x: Fr, i: nat)
    ensures Power(x, Pow2(i)) * Power(x, Pow2(i)) == Power(x, Pow2(i + 1))
  {
    PowerAdd(x, Pow2(i), Pow2(i));
  }

  lemma FirstPower(x: Fr)
    ensures Power(x, Pow2(0)) == x
  {
    assert Power(x, 1) == x * Power(x, 0);
  }

  ghost predicate RepeatedSquares(g: Fr, gates: seq<Fr>) {
    forall k :: 0 <= k < |gates| ==> gates[k] == Power(g, Pow2(k))
  }

  /** The subrelation weights: successive powers of one challenge, from the first power on. */
  method AlphaPowers(alpha: Fr, alphas: array<Fr>)
    modifies alphas
    ensures forall k :: 0 <= k < alphas.Length ==> alphas[k] == Power(alpha, k + 1)
  {
    var power := alpha;
    for i := 0 to alphas.Length
      invariant power == Power(alpha, i + 1)
      invariant forall k :: 0 <= k < i ==> alphas[k] == Power(alpha, k + 1)
    {
      alphas[i] := power;
      power := power * alpha;
    }
  }

  /** The gate challenges: one challenge squared again and again. */
  method GateChallenges(challenge: Fr, gates: array<Fr>)
    modifies gates
    ensures RepeatedSquares(challenge, gates[..])
  {
    hide Power, Pow2;
    var gate := challenge;
    FirstPower(challenge);
    for i := 0 to gates.Length
      invariant gate == Power(challenge, Pow2(i))
      invariant forall k :: 0 <= k < i ==> gates[k] == Power(challenge, Pow2(k))
    {
      gates[i] := gate;
      SquareDoubles(challenge, i);
      gate := gate * gate;
    }
  }

  // ---------------------------------------------------------- multilinear extension

  /** The multilinear indicator of row `k`, variable 0 carrying the lowest bit. */
  function RowIndicator(us: seq<Fr>, k: nat): Fr {
    if us == [] then 1
    else (if k % 2 == 1 then us[0] else 1 - us[0]) * RowIndicator(us[1..], k / 2)
  }

  /** The first `rows` terms of the multilinear extension of `k -> g^k` at `us`. */
  function PowerExtension(us: seq<Fr>, g: Fr, rows: nat): Fr {
    if rows == 0 then 0
    else PowerExtension(us, g, rows - 1) + RowIndicator(us, rows - 1) * Power(g, rows - 1)
  }

  lemma RowPair(us: seq<Fr>, g: Fr, m: nat)
    requires us != []
    ensures RowIndicator(us, 2 * m) * Power(g, 2 * m) + RowIndicator(us, 2 * m + 1) * Power(g, 2 * m + 1)
         == (1 + us[0] * (g - 1)) * (RowIndicator(us[1..], m) * Power(g * g, m))
  {
    var u, r, q := us[0], RowIndicator(us[1..], m), Power(g, 2 * m);
    assert (2 * m) % 2 == 0 && (2 * m) / 2 == m && (2 * m + 1) % 2 == 1 && (2 * m + 1) / 2 == m;
    PowerSquare(g, m);
    PairAlgebra(u, r, q, g);
  }

  lemma PairAlgebra(u: Fr, r: Fr, q: Fr, g: Fr)
    ensures ((1 - u) * r) * q + (u * r) * (g * q) == (1 + u * (g - 1)) * (r * q)
  {
    Assoc(1 - u, r, q);
    SwapFour(u, r, g, q);
  }

  lemma {:induction false} PeelFirstVariable(us: seq<Fr>, g: Fr, rows: nat)
    requires us != []
    ensures PowerExtension(us, g, 2 * rows) == (1 + us[0] * (g - 1)) * PowerExtension(us[1..], g * g, rows)
  {
    if rows > 0 {
      PeelFirstVariable(us, g, rows - 1);
      RowPair(us, g, rows - 1);
      Distributes(1 + us[0] * (g - 1), PowerExtension(us[1..], g * g, rows - 1),
                  RowIndicator(us[1..], rows - 1) * Power(g * g, rows - 1));
      assert PowerExtension(us, g, 2 * rows) == PowerExtension(us, g, 2 * rows - 1)
                                                + RowIndicator(us, 2 * rows - 1) * Power(g, 2 * rows - 1);
    }
  }

  lemma {:induction false} PeelFirstRound(gates: seq<Fr>, us: seq<Fr>, n: nat)
    requires 0 < n <= |gates| && n <= |us|
    ensures PowAfter(gates, us, n) == (1 + us[0] * (gates[0] - 1)) * PowAfter(gates[1..], us[1..], n - 1)
  {
    if n > 1 {
      PeelFirstRound(gates, us, n - 1);
      Assoc(1 + us[0] * (gates[0] - 1), PowAfter(gates[1..], us[1..], n - 2), 1 + us[n - 1] * (gates[n - 1] - 1));
    }
  }

  lemma SquaresTail(g: Fr, gates: seq<Fr>)
    requires gates != [] && RepeatedSquares(g, gates)
    ensures RepeatedSquares(g * g, gates[1..])
  {
    forall k | 0 <= k < |gates| - 1
      ensures gates[1..][k] == Power(g * g, Pow2(k))
    {
      PowerSquare(g, Pow2(k));
    }
  }

  /**
   After all rounds the gate separator is the multilinear extension of `k -> g^k` over the
   `2^n` rows, evaluated at the round challenges.
   */
  lemma {:induction false} SeparatorIsPowerExtension(g: Fr, gates: seq<Fr>, us: seq<Fr>)
    requires |gates| == |us| && RepeatedSquares(g, gates)
    ensures PowAfter(gates, us, |us|) == PowerExtension(us, g, Pow2(|us|))
    decreases |us|
  {
    if us == [] {
      assert PowerExtension(us, g, 1) == RowIndicator(us, 0) * Power(g, 0);
    } else {
      assert gates[0] == Power(g, Pow2(0)) == g;
      PeelFirstRound(gates, us, |us|);
      SquaresTail(g, gates);
      SeparatorIsPowerExtension(g * g, gates[1..], us[1..]);
      PeelFirstVariable(us, g, Pow2(|us| - 1));
    }
  }

  /** On a row's own bits the extension is that row's power. */
  function Bits(n: nat, k: nat): seq<Fr> {
    if n == 0 then [] else [k % 2] + Bits(n - 1, k / 2)
  }

  lemma {:induction false} IndicatorAtRow(n: nat, i: nat, k: nat)
    requires i < Pow2(n) && k < Pow2(n)
    ensures |Bits(n, i)| == n
    ensures RowIndicator(Bits(n, i), k) == if i == k then 1 else 0
  {
    if n > 0 {
      IndicatorAtRow(n - 1, i / 2, k / 2);
      var b := Bits(n, i);
      assert b[1..] == Bits(n - 1, i / 2) && b[0] == i % 2;
      assert i == 2 * (i / 2) + i % 2 && k == 2 * (k / 2) + k % 2;
    }
  }

  lemma {:induction false} ExtensionPrefixAtRow(n: nat, i: nat, g: Fr, rows: nat)
    requires i < Pow2(n) && rows <= Pow2(n)
    ensures PowerExtension(Bits(n, i), g, rows) == if i < rows then Power(g, i) else 0
  {
    if rows > 0 {
      ExtensionPrefixAtRow(n, i, g, rows - 1);
      IndicatorAtRow(n, i, rows - 1);
    }
  }

  lemma ExtensionAtRow(n: nat, i: nat, g: Fr)
    requires i < Pow2(n)
    ensures PowerExtension(Bits(n, i), g, Pow2(n)) == Power(g, i)
  {
    ExtensionPrefixAtRow(n, i, g, Pow2(n));
  }
}
