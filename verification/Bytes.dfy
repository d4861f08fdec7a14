/** Buffers of bytes and the two ways in which the Horus code numbers their bits. */
module Bytes {
  import opened Words

  /** The C idiom `(b >> k) & 1`. */
  predicate BitOf(b: bv8, k: nat)
    requires k < 8
  {
    (b >> k) & 1 == 1
  }

  /** Bits in transmission order: most significant bit of each byte first. */
  function MsbBits(bytes: seq<bv8>): (s: seq<bool>)
    ensures |s| == 8 * |bytes|
    ensures forall i | 0 <= i < |s| :: s[i] == BitOf(bytes[i / 8], 7 - i % 8)
  {
    seq(8 * |bytes|, i requires 0 <= i < 8 * |bytes| => BitOf(bytes[i / 8], 7 - i % 8))
  }

  /** Bits as the interleaver and the scrambler number them: least significant bit first. */
  function LsbBits(bytes: seq<bv8>): (s: seq<bool>)
    ensures |s| == 8 * |bytes|
    ensures forall i | 0 <= i < |s| :: s[i] == BitOf(bytes[i / 8], i % 8)
  {
    seq(8 * |bytes|, i requires 0 <= i < 8 * |bytes| => BitOf(bytes[i / 8], i % 8))
  }

  /** Where the bit at position `q` of transmission order sits in the other numbering. */
  function Mirror(q: nat): (p: nat)
    ensures p / 8 == q / 8 && p % 8 == 7 - q % 8
  {
    8 * (q / 8) + (7 - q % 8)
  }

  lemma MirrorBits(bytes: seq<bv8>, q: nat)
    requires q < 8 * |bytes|
    ensures Mirror(q) < 8 * |bytes| && Mirror(Mirror(q)) == q
    ensures LsbBits(bytes)[Mirror(q)] == MsbBits(bytes)[q]
  {}

  /** A byte is determined by its bits. */
  lemma ByteExtensional(a: bv8, b: bv8)
    requires forall k | 0 <= k < 8 :: BitOf(a, k) == BitOf(b, k)
    ensures a == b
  {
    assert BitOf(a, 0) == BitOf(b, 0) && BitOf(a, 1) == BitOf(b, 1);
    assert BitOf(a, 2) == BitOf(b, 2) && BitOf(a, 3) == BitOf(b, 3);
    assert BitOf(a, 4) == BitOf(b, 4) && BitOf(a, 5) == BitOf(b, 5);
    assert BitOf(a, 6) == BitOf(b, 6) && BitOf(a, 7) == BitOf(b, 7);
  }

  lemma MsbExtensional(s: seq<bv8>, t: seq<bv8>)
    requires MsbBits(s) == MsbBits(t)
    ensures s == t
  {
    assert |MsbBits(s)| == 8 * |s| && |MsbBits(t)| == 8 * |t|;
    forall i | 0 <= i < |s|
      ensures s[i] == t[i]
    {
      forall k | 0 <= k < 8
        ensures BitOf(s[i], k) == BitOf(t[i], k)
      {
        var j := 8 * i + 7 - k;
        assert j / 8 == i && j % 8 == 7 - k;
        assert MsbBits(s)[j] == MsbBits(t)[j];
      }
      ByteExtensional(s[i], t[i]);
    }
  }

  lemma MsbBitsConcat(s: seq<bv8>, t: seq<bv8>)
    ensures MsbBits(s + t) == MsbBits(s) + MsbBits(t)
  {
    hide BitOf;
    var n := 8 * |s|;
    forall i | 0 <= i < 8 * |s + t|
      ensures MsbBits(s + t)[i] == (MsbBits(s) + MsbBits(t))[i]
    {
      if i >= n {
        assert i / 8 == (i - n) / 8 + |s| && i % 8 == (i - n) % 8;
      }
    }
  }

  // ----- bytes built from words

  lemma HalveDivide(x: nat, d: nat)
    requires d > 0
    ensures x / 2 / d == x / (2 * d)
  {
    var q, r := x / (2 * d), x % (2 * d);
    assert x == 2 * d * q + r;
    assert x / 2 == d * q + r / 2 && r / 2 < d;
    QuotientIs(x / 2, d, q, r / 2);
  }

  lemma QuotientIs(x: nat, d: nat, q: nat, r: nat)
    requires x == d * q + r && r < d
    ensures x / d == q
  {
    var e: int := x / d - q;
    assert x == d * (x / d) + x % d;
    assert d * e == r - x % d;
    MultipleAtLeast(d, e);
  }

  lemma MultipleAtLeast(d: nat, e: int)
    ensures e >= 1 ==> d * e >= d
    ensures e <= -1 ==> d * e <= 0 - d
  {}

  lemma {:induction false} BitDivide(x: nat, k: nat)
    ensures Bit(x, k) == (x / Pow2(k) % 2 == 1)
  {
    if k > 0 {
      BitDivide(x / 2, k - 1);
      HalveDivide(x, Pow2(k - 1));
    }
  }

  lemma ByteBits(x: nat)
    requires x < 256
    ensures (x as bv8) & 1 != 0 <==> x % 2 == 1
    ensures (x as bv8) & 2 != 0 <==> x / 2 % 2 == 1
    ensures (x as bv8) & 4 != 0 <==> x / 4 % 2 == 1
    ensures (x as bv8) & 8 != 0 <==> x / 8 % 2 == 1
    ensures (x as bv8) & 16 != 0 <==> x / 16 % 2 == 1
    ensures (x as bv8) & 32 != 0 <==> x / 32 % 2 == 1
    ensures (x as bv8) & 64 != 0 <==> x / 64 % 2 == 1
    ensures (x as bv8) & 128 != 0 <==> x / 128 % 2 == 1
  {}

  lemma BitOfIs(b: bv8)
    ensures BitOf(b, 0) == (b & 1 != 0) && BitOf(b, 1) == (b & 2 != 0) && BitOf(b, 2) == (b & 4 != 0)
    ensures BitOf(b, 3) == (b & 8 != 0) && BitOf(b, 4) == (b & 16 != 0) && BitOf(b, 5) == (b & 32 != 0)
    ensures BitOf(b, 6) == (b & 64 != 0) && BitOf(b, 7) == (b & 128 != 0)
  {}

  /** Storing a word below 256 in a byte. */
  function AsByte(x: nat): bv8
    requires x < 256
  {
    x as bv8
  }

  /** A stored word keeps its bits. */
  lemma ByteOfWord(x: nat, k: nat)
    requires x < 256 && k < 8
    ensures BitOf(AsByte(x), k) == Bit(x, k)
  {
    BitDivide(x, k);
    assert Pow2(0) == 1 && Pow2(1) == 2 && Pow2(2) == 4 && Pow2(3) == 8;
    assert Pow2(4) == 16 && Pow2(5) == 32 && Pow2(6) == 64 && Pow2(7) == 128;
    ByteBits(x);
    BitOfIs(AsByte(x));
    assert k == 0 || k == 1 || k == 2 || k == 3 || k == 4 || k == 5 || k == 6 || k == 7;
  }

  // ----- packing a bit stream, most significant bit first, zeros at the end

  function PackByte(bits: seq<bool>, k: nat): bv8 {
    var s := seq(8, j requires 0 <= j => 8 * k + j < |bits| && bits[8 * k + j]);
    FromBitsBound(s);
    assert Pow2(8) == 256;
    AsByte(FromBits(s))
  }

  function Pack(bits: seq<bool>): (bytes: seq<bv8>)
    ensures |bytes| == (|bits| + 7) / 8
    ensures forall k | 0 <= k < |bytes| :: bytes[k] == PackByte(bits, k)
  {
    seq((|bits| + 7) / 8, k requires 0 <= k => PackByte(bits, k))
  }

  lemma PackByteBit(bits: seq<bool>, k: nat, j: nat)
    requires j < 8
    ensures BitOf(PackByte(bits, k), 7 - j) == (8 * k + j < |bits| && bits[8 * k + j])
  {
    var s := seq(8, j requires 0 <= j => 8 * k + j < |bits| && bits[8 * k + j]);
    FromBitsBound(s);
    assert Pow2(8) == 256;
    ByteOfWord(FromBits(s), 7 - j);
    ToFromBits(s);
    ToBitsIndex(FromBits(s), 8, j);
  }

  /** Nothing is lost at byte boundaries, and the padding is zero. */
  lemma PackBits(bits: seq<bool>, i: nat)
    requires i < 8 * |Pack(bits)|
    ensures MsbBits(Pack(bits))[i] == (i < |bits| && bits[i])
  {
    PackByteBit(bits, i / 8, i % 8);
  }

  lemma PackWhole(bits: seq<bool>)
    ensures |bits| <= 8 * |Pack(bits)| && MsbBits(Pack(bits))[..|bits|] == bits
  {
    forall i | 0 <= i < |bits|
      ensures MsbBits(Pack(bits))[i] == bits[i]
    {
      PackBits(bits, i);
    }
  }

  lemma PackOfBytes(bytes: seq<bv8>)
    ensures Pack(MsbBits(bytes)) == bytes
  {
    PackWhole(MsbBits(bytes));
    MsbExtensional(Pack(MsbBits(bytes)), bytes);
  }
}
