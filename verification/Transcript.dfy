/** Splitting one transcript digest into two challenges. */
module Transcript {
  import opened Bytes
  import opened Sumcheck

  const TWO_127: nat := 0x8000_0000_0000_0000_0000_0000_0000_0000
  const TWO_128: nat := 0x1_0000_0000_0000_0000_0000_0000_0000_0000

  lemma SixteenBytes()
    ensures Pow256(16) == TWO_128 && Pow256(15) == 0x100_0000_0000_0000_0000_0000_0000_0000
  {
    assert Pow256(4) == 0x1_0000_0000;
    assert Pow256(8) == 256 * (256 * (256 * (256 * Pow256(4))));
    assert Pow256(12) == 256 * (256 * (256 * (256 * Pow256(8))));
    assert Pow256(15) == 256 * (256 * (256 * Pow256(12)));
    assert Pow256(16) == 256 * Pow256(15);
  }

  /** The lower half of the bytes, as its top bit and the 127 bits below. */
  lemma LowerHalf(bytes: seq<Byte>)
    requires |bytes| == 16
    ensures BigEndian(bytes) == (bytes[0] / 128) * TWO_127 + BigEndian([bytes[0] % 128] + bytes[1..])
    ensures BigEndian([bytes[0] % 128] + bytes[1..]) < TWO_127
  {
    var rest := bytes[1..];
    SixteenBytes();
    assert bytes == [bytes[0]] + rest;
    BigEndianConcat([bytes[0]], rest);
    BigEndianConcat([bytes[0] % 128], rest);
    BigEndianBounds(rest);
    OneByte(bytes[0]);
    OneByte(bytes[0] % 128);
  }

  lemma OneByte(b: Byte)
    ensures BigEndian([b]) == b
  {
    assert [b][..0] == [];
    assert BigEndian([]) == 0;
  }

  lemma {:induction false} LeadingZeros(n: nat, bytes: seq<Byte>)
    ensures BigEndian(seq(n, _ => 0) + bytes) == BigEndian(bytes)
  {
    BigEndianConcat(seq(n, _ => 0), bytes);
    BigEndianZero(seq(n, _ => 0));
  }

  /**
   `split_challenge`. The low challenge is the low 127 bits and the high one the bits above, of which
   the shift of a 128-bit word drops the very topmost.
   */
  method SplitChallenge(input: seq<Byte>) returns (low: array<Byte>, high: array<Byte>)
    requires |input| == 32
    ensures low.Length == high.Length == 32
    ensures BigEndian(low[..]) == BigEndian(input) % TWO_127
    ensures BigEndian(high[..]) == (BigEndian(input) / TWO_127) % TWO_128
    ensures BigEndian(input) == BigEndian(high[..]) * TWO_127 + BigEndian(low[..]) <==> input[0] < 128
    ensures BigEndian(input) < FR_MODULUS ==>
              && BigEndian(input) == BigEndian(high[..]) * TWO_127 + BigEndian(low[..])
              && BigEndian(high[..]) < TWO_127
  {
    hide BigEndian, ToBytes;
    TopBit(input);
    SplitLosesNothingExactly(BigEndian(input));
    ReducedIsShort(BigEndian(input));
    low := new Byte[32](_ => 0);
    for i := 16 to 32
      invariant forall k :: 0 <= k < 16 ==> low[k] == 0
      invariant forall k :: 16 <= k < i ==> low[k] == input[k]
    {
      low[i] := input[i];
    }
    low[16] := low[16] % 128;
    ghost var lowBytes := seq(16, _ => 0) + ([input[16] % 128] + input[17..]);
    assert low[..] == lowBytes;
    var top := BigEndian(input[..16]);
    var highValue := (top * 2) % TWO_128 + input[16] / 128;
    var word := ToBytes(highValue, 16);
    high := new Byte[32](_ => 0);
    for i := 0 to 16
      invariant low[..] == lowBytes
      invariant forall k :: 0 <= k < 16 ==> high[k] == 0
      invariant forall k :: 0 <= k < i ==> high[16 + k] == word[k]
    {
      high[16 + i] := word[i];
    }
    assert high[..] == seq(16, _ => 0) + word;
    SplitValues(input, highValue);
  }

  lemma SplitValues(input: seq<Byte>, highValue: nat)
    requires |input| == 32
    requires highValue == (BigEndian(input[..16]) * 2) % TWO_128 + input[16] / 128
    ensures BigEndian(seq(16, _ => 0) + ([input[16] % 128] + input[17..])) == BigEndian(input) % TWO_127
    ensures BigEndian(seq(16, _ => 0) + ToBytes(highValue, 16)) == (BigEndian(input) / TWO_127) % TWO_128
  {
    var head, tail := input[..16], input[16..];
    assert input == head + tail && tail[0] == input[16] && tail[1..] == input[17..];
    SixteenBytes();
    BigEndianConcat(head, tail);
    LowerHalf(tail);
    var lowBytes := [input[16] % 128] + input[17..];
    LeadingZeros(16, lowBytes);
    LeadingZeros(16, ToBytes(highValue, 16));
    Halves(BigEndian(head), input[16] / 128, BigEndian(lowBytes));
    ToBytesValue(highValue, 16);
  }

  lemma Halves(top: nat, bit: nat, low: nat)
    requires bit <= 1 && low < TWO_127
    ensures var v := top * TWO_128 + (bit * TWO_127 + low);
            && v % TWO_127 == low
            && (v / TWO_127) % TWO_128 == (top * 2) % TWO_128 + bit < TWO_128
  {
    assert top * TWO_128 + (bit * TWO_127 + low) == (2 * top + bit) * TWO_127 + low;
    QuotientOf(2 * top + bit, low);
    EvenShift(top, bit);
  }

  lemma QuotientOf(q: nat, r: nat)
    requires r < TWO_127
    ensures (q * TWO_127 + r) / TWO_127 == q && (q * TWO_127 + r) % TWO_127 == r
  {
  }

  /** Doubling modulo an even number leaves room for one more bit. */
  lemma EvenShift(top: nat, bit: nat)
    requires bit <= 1
    ensures (2 * top + bit) % TWO_128 == (top * 2) % TWO_128 + bit < TWO_128
  {
    var q, r := top / TWO_127, top % TWO_127;
    assert top * 2 == q * TWO_128 + 2 * r;
    assert (top * 2) % TWO_128 == 2 * r;
  }

  /** The topmost bit of 32 bytes is clear exactly below 2^255. */
  lemma TopBit(input: seq<Byte>)
    requires |input| == 32
    ensures BigEndian(input) < TWO_128 * TWO_128
    ensures input[0] < 128 <==> BigEndian(input) < TWO_128 * TWO_127
  {
    var head, tail := input[..16], input[16..];
    assert input == head + tail;
    SixteenBytes();
    BigEndianConcat(head, tail);
    BigEndianBounds(head);
    BigEndianBounds(tail);
    LowerHalf(head);
  }

  /** A digest reduced modulo the scalar field leaves the upper part within 127 bits too. */
  lemma ReducedIsShort(v: nat)
    ensures v < FR_MODULUS ==> v < TWO_128 * TWO_127 && v / TWO_127 < TWO_127
  {
  }

  /** The two parts recombine to the number if and only if it is below 2^255. */
  lemma SplitLosesNothingExactly(v: nat)
    requires v < TWO_128 * TWO_128
    ensures v == ((v / TWO_127) % TWO_128) * TWO_127 + v % TWO_127 <==> v < TWO_128 * TWO_127
  {
    var high := v / TWO_127;
    assert v == high * TWO_127 + v % TWO_127;
    if v < TWO_128 * TWO_127 {
      assert high < TWO_128;
    } else {
      assert high >= TWO_128;
      assert high % TWO_128 != high;
    }
  }
}
