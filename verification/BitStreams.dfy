/** Writing words into a byte buffer one bit at a time, and reading bits back: the inner loops
    that horus_l2_encode_tx_packet and horus_l2_decode_rx_packet repeat in several places. */
module BitStreams {
  import opened Words
  import opened Bytes

  /** Bits top, top - 1, ... of a word, `count` of them. */
  function TopBits(value: nat, top: nat, count: nat): (s: seq<bool>)
    requires count <= top + 1
    ensures |s| == count
    ensures forall i | 0 <= i < count :: s[i] == Bit(value, top - i)
  {
    seq(count, i requires 0 <= i < count => Bit(value, top - i))
  }

  lemma TopBitsAll(value: nat, count: nat)
    requires count > 0
    ensures TopBits(value, count - 1, count) == ToBits(value, count)
    ensures TopBits(value, count, count) == ToBits(value / 2, count)
  {
    forall i | 0 <= i < count
      ensures ToBits(value, count)[i] == Bit(value, count - 1 - i)
      ensures ToBits(value / 2, count)[i] == Bit(value, count - i)
    {
      ToBitsIndex(value, count, i);
      ToBitsIndex(value / 2, count, i);
    }
  }

  /** Bits of `stream` after the last whole byte. */
  function Rest(stream: seq<bool>): (r: seq<bool>)
    ensures |r| == |stream| % 8
  {
    stream[8 * (|stream| / 8)..]
  }

  /** The writer's state after `stream`: whole bytes are in the buffer from `base` on, `pos` is
      the next byte to write, and `acc` holds the rest, shifted up to make room for a bit. */
  ghost predicate Written(buf: seq<bv8>, base: nat, stream: seq<bool>, pos: nat, acc: nat) {
    && pos == base + |stream| / 8 <= |buf|
    && (forall k | 0 <= k < |stream| / 8 :: buf[base + k] == PackByte(stream, k))
    && acc == 2 * FromBits(Rest(stream))
  }

  lemma WholeByte(stream: seq<bool>, k: nat)
    requires 8 * k + 8 <= |stream|
    ensures FromBits(stream[8 * k..8 * k + 8]) < 256
    ensures PackByte(stream, k) == AsByte(FromBits(stream[8 * k..8 * k + 8]))
  {
    assert stream[8 * k..8 * k + 8] == seq(8, j requires 0 <= j => 8 * k + j < |stream| && stream[8 * k + j]);
    FromBitsBound(stream[8 * k..8 * k + 8]);
    assert Pow2(8) == 256;
  }

  /** Bytes already written do not depend on the bits that follow. */
  lemma PackBytePrefix(stream: seq<bool>, more: seq<bool>, k: nat)
    requires 8 * k + 8 <= |stream|
    ensures PackByte(stream + more, k) == PackByte(stream, k)
  {
    WholeByte(stream, k);
    WholeByte(stream + more, k);
    assert (stream + more)[8 * k..8 * k + 8] == stream[8 * k..8 * k + 8];
  }

  /** Effect of one more bit on the part of the stream that does not fill a byte. */
  lemma RestStep(stream: seq<bool>, b: bool)
    ensures Or(2 * FromBits(Rest(stream)), B(b)) == FromBits(Rest(stream) + [b]) < 256
    ensures (|stream| + 1) % 8 != 0 ==> Rest(stream + [b]) == Rest(stream) + [b]
    ensures (|stream| + 1) % 8 == 0 ==> Rest(stream + [b]) == []
    ensures (|stream| + 1) % 8 == 0 ==>
              PackByte(stream + [b], |stream| / 8) == AsByte(FromBits(Rest(stream) + [b]))
  {
    hide FromBits, Or, PackByte, AsByte;
    var n, k := |stream|, |stream| / 8;
    OrLast(FromBits(Rest(stream)), b);
    FromBitsAppend(Rest(stream), b);
    FromBitsBound(Rest(stream) + [b]);
    assert Pow2(8) == 256;
    assert |Rest(stream) + [b]| <= 8;
    Pow2Mono(|Rest(stream) + [b]|, 8);
    if (n + 1) % 8 == 0 {
      WholeByte(stream + [b], k);
      assert (stream + [b])[8 * k..8 * k + 8] == Rest(stream) + [b];
    } else {
      assert Rest(stream + [b]) == Rest(stream) + [b];
    }
  }

  /** The byte left over at the end, moved to the most significant bits. */
  lemma LastByte(stream: seq<bool>)
    requires |stream| % 8 != 0
    ensures Shl(2 * FromBits(Rest(stream)), 7 - |stream| % 8) < 256
    ensures AsByte(Shl(2 * FromBits(Rest(stream)), 7 - |stream| % 8)) == PackByte(stream, |stream| / 8)
  {
    hide FromBits, AsByte, Shl;
    var m, k := 8 - |stream| % 8, |stream| / 8;
    var padded := Rest(stream) + seq(m, j => false);
    assert padded == seq(8, j requires 0 <= j => 8 * k + j < |stream| && stream[8 * k + j]);
    PaddedValue(Rest(stream), m);
    FromBitsBound(padded);
    assert Pow2(8) == 256;
  }

  lemma PaddedValue(r: seq<bool>, m: nat)
    requires m > 0
    ensures FromBits(r + seq(m, j => false)) == Shl(2 * FromBits(r), m - 1)
  {
    hide FromBits;
    FromBitsConcat(r, seq(m, j => false));
    FalseBits(m);
    ShlPow2(FromBits(r), m);
    ShlPow2(2 * FromBits(r), m - 1);
  }

  lemma {:induction false} FalseBits(m: nat)
    ensures FromBits(seq(m, j => false)) == 0
  {
    if m > 0 {
      assert seq(m, j => false)[..m - 1] == seq(m - 1, j => false);
      FalseBits(m - 1);
    }
  }

  /** The C idiom `x <<= 1`. */
  lemma ShlOne(x: nat)
    ensures Shl(x, 1) == 2 * x
  {
    assert Shl(x, 0) == x;
  }

  lemma NoBits()
    ensures FromBits([]) == 0
  {}

  /** Append bits top, top - 1, ... of `value`, storing a byte whenever eight bits are there. */
  method WriteBits(buf: array<bv8>, ghost base: nat, pos: nat, acc: nat, nbits: nat,
                   value: nat, top: nat, count: nat, ghost stream: seq<bool>)
    returns (pos': nat, acc': nat, nbits': nat)
    requires count <= top + 1 && nbits == |stream|
    requires Written(buf[..], base, stream, pos, acc) && base + (nbits + count) / 8 <= buf.Length
    modifies buf
    ensures nbits' == nbits + count
    ensures Written(buf[..], base, stream + TopBits(value, top, count), pos', acc')
    ensures forall k | 0 <= k < base || pos' <= k < buf.Length :: buf[k] == old(buf[k])
  {
    hide FromBits, Or, And, Shr, Bit, PackByte, AsByte, Rest;
    pos', acc', nbits' := pos, acc, nbits;
    assert stream + TopBits(value, top, count)[..0] == stream;
    assert FromBits([]) == 0 by {
      NoBits();
    }
    for i := 0 to count
      invariant nbits' == nbits + i
      invariant Written(buf[..], base, stream + TopBits(value, top, count)[..i], pos', acc')
      invariant forall k | 0 <= k < base || pos' <= k < buf.Length :: buf[k] == old(buf[k])
    {
      ghost var s, b := stream + TopBits(value, top, count)[..i], Bit(value, top - i);
      assert stream + TopBits(value, top, count)[..i + 1] == s + [b];
      ShrAndOne(value, top - i);
      RestStep(s, b);
      forall k | 0 <= k < |s| / 8
        ensures PackByte(s + [b], k) == PackByte(s, k)
      {
        PackBytePrefix(s, [b], k);
      }
      var bit := And(Shr(value, top - i), 1);
      acc' := Or(acc', bit);
      nbits' := nbits' + 1;
      ShlOne(acc');
      if nbits' % 8 != 0 {
        acc' := Shl(acc', 1);
      } else {
        buf[pos'] := AsByte(acc');
        pos' := pos' + 1;
        acc' := 0;
      }
    }
    assert TopBits(value, top, count)[..count] == TopBits(value, top, count);
  }

  /** The reader's state after `nread` bits: `next` is the byte that the next bit is in, and
      `pin` is the byte after it. */
  ghost predicate ReaderAt(buf: seq<bv8>, base: nat, nread: nat, pin: nat, next: bv8) {
    base + nread / 8 < |buf| && pin == base + nread / 8 + 1 && next == buf[base + nread / 8]
  }

  /** Read the next eleven bits of the packed stream behind a word whose last bit is free. The
      following byte is fetched as soon as the last bit of the current one has been used. */
  method ReadParity(buf: array<bv8>, ghost base: nat, pin: nat, next: bv8, nbits: nat,
                    word: nat, ghost high: seq<bool>, ghost stream: seq<bool>)
    returns (pin': nat, next': bv8, nbits': nat, word': nat)
    requires base + (nbits + 11) / 8 < buf.Length && ReaderAt(buf[..], base, nbits, pin, next)
    requires word == 2 * FromBits(high) && stream == MsbBits(buf[base..])
    ensures nbits' == nbits + 11 && ReaderAt(buf[..], base, nbits', pin', next')
    ensures word' == FromBits(high + stream[nbits..nbits + 11])
  {
    hide FromBits, Or, BitOf, Shl, MsbBits;
    assert high + stream[nbits..nbits] == high;
    pin', next', nbits', word' := pin, next, nbits, word;
    for i := 0 to 11
      invariant nbits' == nbits + i && ReaderAt(buf[..], base, nbits', pin', next')
      invariant i < 11 ==> word' == 2 * FromBits(high + stream[nbits..nbits + i])
      invariant i == 11 ==> word' == FromBits(high + stream[nbits..nbits + i])
    {
      ghost var s := high + stream[nbits..nbits + i];
      var shift := 7 - nbits' % 8;
      var bit := B(BitOf(next', shift));
      assert buf[base..][nbits' / 8] == next';
      assert high + stream[nbits..nbits + i + 1] == s + [stream[nbits + i]];
      FromBitsAppend(s, stream[nbits + i]);
      OrLast(FromBits(s), stream[nbits + i]);
      word' := Or(word', bit);
      ShlOne(word');
      if i != 10 {
        word' := Shl(word', 1);
      }
      nbits' := nbits' + 1;
      if nbits' % 8 == 0 {
        next' := buf[pin'];
        pin' := pin' + 1;
      }
    }
  }
}
