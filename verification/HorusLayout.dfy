/** What a Horus layer-2 packet looks like, bit by bit: payload bits in groups of twelve, and
    eleven parity bits for each group. The encoder and the decoder are proved against these
    definitions; the lemmas below show that decoding undoes encoding and up to three bit
    errors in each codeword. */
module HorusLayout {
  import opened Words
  import opened Golay
  import opened GolayTables
  import opened Bytes

  /** 12-bit groups needed for a payload, the last one possibly short. */
  function NumWords(payloadBytes: nat): nat {
    payloadBytes * 8 / 12 + (if payloadBytes * 8 % 12 != 0 then 1 else 0)
  }

  function BodyBits(payloadBytes: nat): nat {
    8 * payloadBytes + 11 * NumWords(payloadBytes)
  }

  /** Two bytes of unique word, the payload, and the parity bits rounded up to bytes. */
  function NumTxBytes(payloadBytes: nat): (txBytes: nat)
    ensures txBytes >= 2 + payloadBytes
  {
    2 + (BodyBits(payloadBytes) + 7) / 8
  }

  /** The `w`-th group of twelve bits. */
  function Chunk(bits: seq<bool>, w: nat): (c: seq<bool>)
    requires 12 * w <= |bits|
    ensures |c| == if 12 * w + 12 <= |bits| then 12 else |bits| - 12 * w
  {
    if 12 * w + 12 <= |bits| then bits[12 * w..12 * w + 12] else bits[12 * w..]
  }

  /** The 23-bit word whose syndrome is sent: a full group goes in the top twelve positions,
      a short one is shifted up by one position more. */
  function WordValue(chunk: seq<bool>): nat {
    Shl(FromBits(chunk), if |chunk| == 12 then 11 else 12)
  }

  ghost function Parity(chunk: seq<bool>): (p: seq<bool>)
    ensures |p| == 11
  {
    ToBits(Syndrome(WordValue(chunk)), 11)
  }

  /** Parity bits of the first `w` groups. */
  ghost function ParityBits(bits: seq<bool>, w: nat): (p: seq<bool>)
    requires |bits| > 12 * w - 12
    ensures |p| == 11 * w
  {
    if w == 0 then [] else ParityBits(bits, w - 1) + Parity(Chunk(bits, w - 1))
  }

  /** Payload followed by packed parity bits: the packet before interleaving and scrambling,
      without its unique word. */
  ghost function Body(payload: seq<bv8>): (body: seq<bv8>)
    ensures |body| == NumTxBytes(|payload|) - 2
  {
    payload + Pack(ParityBits(MsbBits(payload), NumWords(|payload|)))
  }

  // ----- decoding

  /** The twelve (or fewer) data bits that a received group and its parity are corrected to. */
  ghost function Corrected(chunk: seq<bool>, parity: seq<bool>): (c: seq<bool>)
    ensures |c| == |chunk|
  {
    var data := Shr(Nearest(WordValue(chunk) + FromBits(parity)), 11);
    if |chunk| == 12 then ToBits(data, 12) else ToBits(data / 2, |chunk|)
  }

  /** Corrected bits of the first `w` groups. */
  ghost function CorrectedBits(bits: seq<bool>, parity: seq<bool>, w: nat): (c: seq<bool>)
    requires |bits| > 12 * w - 12 && |parity| >= 11 * w
    ensures |c| == if 12 * w <= |bits| then 12 * w else |bits|
  {
    if w == 0 then []
    else CorrectedBits(bits, parity, w - 1) + Corrected(Chunk(bits, w - 1), parity[11 * (w - 1)..11 * w])
  }

  /** All corrected data bits of a received body (possibly followed by other bytes). */
  ghost function DecodedBits(body: seq<bv8>, payloadBytes: nat): (bits: seq<bool>)
    requires |body| >= NumTxBytes(payloadBytes) - 2
    ensures |bits| == 8 * payloadBytes
  {
    NumWordsCover(payloadBytes);
    CorrectedBits(MsbBits(body[..payloadBytes]), MsbBits(body[payloadBytes..]), NumWords(payloadBytes))
  }

  /** The payload bytes that a received body is decoded to. */
  ghost function DecodedBody(body: seq<bv8>, payloadBytes: nat): (payload: seq<bv8>)
    requires |body| >= NumTxBytes(payloadBytes) - 2
    ensures |payload| == payloadBytes
  {
    Pack(DecodedBits(body, payloadBytes))
  }

  // ----- one codeword

  /** All bits of a codeword, unused positions included. */
  function FullWord(chunk: seq<bool>, parity: seq<bool>): seq<bool> {
    if |chunk| == 12 then chunk + parity else chunk + [false] + parity
  }

  lemma FullWordValue(chunk: seq<bool>, parity: seq<bool>)
    requires |parity| == 11
    ensures FromBits(FullWord(chunk, parity)) == WordValue(chunk) + FromBits(parity)
  {
    if |chunk| == 12 {
      FromBitsConcat(chunk, parity);
    } else {
      assert chunk + [false] + parity == chunk + ([false] + parity);
      FromBitsConcat(chunk, [false] + parity);
      FromBitsConcat([false], parity);
      assert FromBits([false]) == 0;
      ShlPow2(0, 11);
    }
  }

  lemma {:induction false} WeightExtend(x: nat, m: nat, n: nat)
    requires m <= n && x < Pow2(m)
    ensures Weight(x, n) == Weight(x, m)
    decreases n
  {
    if m < n {
      Pow2Mono(m, n - 1);
      WeightExtend(x, m, n - 1);
      WeightTop(x, n - 1);
    }
  }

  lemma FullWordDistance(chunk: seq<bool>, parity: seq<bool>, chunk': seq<bool>, parity': seq<bool>)
    requires |chunk| == |chunk'| <= 12 && |parity| == |parity'| == 11
    ensures |FullWord(chunk, parity)| == |FullWord(chunk', parity')| <= 23
    ensures Distance(FullWord(chunk', parity'), FullWord(chunk, parity)) == Distance(chunk' + parity', chunk + parity)
  {
    hide Distance;
    DistanceConcat(chunk', parity', chunk, parity);
    DistanceConcat(chunk' + [false], parity', chunk + [false], parity);
    DistanceConcat(chunk', [false], chunk, [false]);
    DistanceOne();
  }

  lemma DistanceOne()
    ensures Distance([false], [false]) == 0
  {
    assert [false][..0] == [];
  }

  lemma XorWeight(s: seq<bool>, t: seq<bool>)
    requires |s| == |t| <= 23
    ensures Weight(Xor(FromBits(s), FromBits(t)), 23) == Distance(s, t)
  {
    hide *;
    DistanceIsWeight(s, t);
    FromBitsBound(s);
    FromBitsBound(t);
    XorBound(FromBits(s), FromBits(t), |s|);
    WeightExtend(Xor(FromBits(s), FromBits(t)), |s|, 23);
  }

  /** Bit errors in a codeword, counted on the wire, are errors in the 23-bit word. */
  lemma ErrorsAreWeight(chunk: seq<bool>, parity: seq<bool>, chunk': seq<bool>, parity': seq<bool>)
    requires |chunk| == |chunk'| <= 12 && |parity| == |parity'| == 11
    ensures Weight(Xor(WordValue(chunk') + FromBits(parity'), WordValue(chunk) + FromBits(parity)), 23)
            == Distance(chunk' + parity', chunk + parity)
  {
    hide *;
    FullWordValue(chunk', parity');
    FullWordValue(chunk, parity);
    FullWordDistance(chunk, parity, chunk', parity');
    XorWeight(FullWord(chunk', parity'), FullWord(chunk, parity));
  }

  lemma WordValueFits(chunk: seq<bool>)
    requires |chunk| <= 12
    ensures WordValue(chunk) == Shl(if |chunk| == 12 then FromBits(chunk) else 2 * FromBits(chunk), 11)
    ensures (if |chunk| == 12 then FromBits(chunk) else 2 * FromBits(chunk)) < 4096
    ensures WordValue(chunk) + 2047 < Pow2(23)
  {
    FromBitsBound(chunk);
    assert Pow2(12) == 4096 && Pow2(11) == 2048 && Pow2(23) == 0x80_0000;
    if |chunk| < 12 {
      Pow2Mono(|chunk|, 11);
    }
    ShlPow2(FromBits(chunk), 11);
    ShlPow2(FromBits(chunk), 12);
    ShlPow2(2 * FromBits(chunk), 11);
  }

  /** What is sent for a group of data bits is a codeword with those data bits on top. */
  lemma SentWord(chunk: seq<bool>)
    requires |chunk| <= 12
    ensures IsCodeword(WordValue(chunk) + Syndrome(WordValue(chunk)))
    ensures FromBits(Parity(chunk)) == Syndrome(WordValue(chunk))
    ensures var data := Shr(WordValue(chunk) + Syndrome(WordValue(chunk)), 11);
            chunk == if |chunk| == 12 then ToBits(data, 12) else ToBits(data / 2, |chunk|)
  {
    hide *;
    assert Parity(chunk) == ToBits(Syndrome(WordValue(chunk)), 11) by {
      ParityIs(chunk);
    }
    WordValueFits(chunk);
    SystematicCodeword(WordValue(chunk), if |chunk| == 12 then FromBits(chunk) else 2 * FromBits(chunk));
    SyndromeBound(WordValue(chunk));
    assert Pow2(11) == 2048 by {
      Pow2Eleven();
    }
    FromToBits(Syndrome(WordValue(chunk)), 11);
    ToFromBits(chunk);
  }

  lemma Pow2Eleven()
    ensures Pow2(11) == 2048 && Pow2(23) == 0x80_0000
  {}

  lemma ParityIs(chunk: seq<bool>)
    ensures Parity(chunk) == ToBits(Syndrome(WordValue(chunk)), 11)
  {}

  lemma CorrectedIs(chunk: seq<bool>, parity: seq<bool>, c: nat)
    requires Nearest(WordValue(chunk) + FromBits(parity)) == c
    ensures Corrected(chunk, parity) ==
            if |chunk| == 12 then ToBits(Shr(c, 11), 12) else ToBits(Shr(c, 11) / 2, |chunk|)
  {
    hide Nearest, WordValue, FromBits, ToBits, Shr;
  }

  /** Up to three errors in one codeword, data or parity, are corrected. */
  lemma CorrectedChunk(chunk: seq<bool>, chunk': seq<bool>, parity': seq<bool>)
    requires |chunk| == |chunk'| <= 12 && |parity'| == 11
    requires Distance(chunk' + parity', chunk + Parity(chunk)) <= 3
    ensures Corrected(chunk', parity') == chunk
  {
    hide *;
    var w, c := WordValue(chunk') + FromBits(parity'), WordValue(chunk) + Syndrome(WordValue(chunk));
    Pow2Eleven();
    WordValueFits(chunk');
    FromBitsBound(parity');
    SentWord(chunk);
    ErrorsAreWeight(chunk, Parity(chunk), chunk', parity');
    NearestCodeword(w);
    assert c == Nearest(w);
    CorrectedIs(chunk', parity', c);
  }

  /** The code being perfect, a full group with more errors is never decoded to what was sent. */
  lemma CorrectedFullChunk(chunk: seq<bool>, chunk': seq<bool>, parity': seq<bool>)
    requires |chunk| == |chunk'| == 12 && |parity'| == 11
    ensures Corrected(chunk', parity') == chunk <==> Distance(chunk' + parity', chunk + Parity(chunk)) <= 3
  {
    hide *;
    if Distance(chunk' + parity', chunk + Parity(chunk)) <= 3 {
      CorrectedChunk(chunk, chunk', parity');
    } else {
      var w, c := WordValue(chunk') + FromBits(parity'), WordValue(chunk) + Syndrome(WordValue(chunk));
      Pow2Eleven();
      WordValueFits(chunk');
      FromBitsBound(parity');
      SentWord(chunk);
      ErrorsAreWeight(chunk, Parity(chunk), chunk', parity');
      NearestCodeword(w);
      assert c != Nearest(w);
      CorrectedIs(chunk', parity', Nearest(w));
      DataBitsDiffer(c, Nearest(w));
    }
  }

  /** Different codewords have different data bits. */
  lemma DataBitsDiffer(c: nat, d: nat)
    requires IsCodeword(c) && IsCodeword(d) && c != d
    ensures ToBits(Shr(c, 11), 12) != ToBits(Shr(d, 11), 12)
  {
    hide *;
    CodewordSystematic(c);
    CodewordSystematic(d);
    assert Pow2(12) == 4096 by {
      Pow2Twelve();
    }
    FromToBits(Shr(c, 11), 12);
    FromToBits(Shr(d, 11), 12);
  }

  lemma Pow2Twelve()
    ensures Pow2(12) == 4096
  {}

  // ----- whole packets

  /** Bit errors of a received body in its `w`-th codeword. */
  ghost function ErrorsInWord(bits: seq<bool>, bits': seq<bool>, parity': seq<bool>, w: nat): nat
    requires |bits'| == |bits| > 12 * w && |parity'| >= 11 * w + 11
  {
    Distance(Chunk(bits', w) + parity'[11 * w..11 * w + 11], Chunk(bits, w) + Parity(Chunk(bits, w)))
  }

  lemma CorrectedBitsStep(bits: seq<bool>, parity: seq<bool>, w: nat)
    requires |bits| > 12 * w && |parity| >= 11 * w + 11
    ensures CorrectedBits(bits, parity, w + 1) ==
            CorrectedBits(bits, parity, w) + Corrected(Chunk(bits, w), parity[11 * w..11 * w + 11])
  {
    hide Corrected, Chunk;
    assert 11 * (w + 1 - 1) == 11 * w && 11 * (w + 1) == 11 * w + 11;
  }

  lemma CorrectedWord(bits: seq<bool>, bits': seq<bool>, parity': seq<bool>, w: nat)
    requires |bits'| == |bits| > 12 * w && |parity'| >= 11 * w + 11
    requires ErrorsInWord(bits, bits', parity', w) <= 3
    ensures Corrected(Chunk(bits', w), parity'[11 * w..11 * w + 11]) == Chunk(bits, w)
  {
    CorrectedChunk(Chunk(bits, w), Chunk(bits', w), parity'[11 * w..11 * w + 11]);
  }

  lemma {:induction false} CorrectedPrefix(bits: seq<bool>, bits': seq<bool>, parity': seq<bool>, w: nat)
    requires |bits'| == |bits| > 12 * w - 12 && |parity'| >= 11 * w
    requires forall v | 0 <= v < w :: ErrorsInWord(bits, bits', parity', v) <= 3
    ensures CorrectedBits(bits', parity', w) == bits[..if 12 * w <= |bits| then 12 * w else |bits|]
  {
    hide ErrorsInWord, Corrected;
    if w > 0 {
      hide CorrectedBits, Chunk;
      var v := w - 1;
      CorrectedPrefix(bits, bits', parity', v);
      CorrectedWord(bits, bits', parity', v);
      CorrectedBitsStep(bits', parity', v);
      ChunkExtends(bits, v);
      assert CorrectedBits(bits', parity', v + 1) == bits[..12 * v] + Chunk(bits, v);
    }
  }

  lemma ChunkExtends(bits: seq<bool>, w: nat)
    requires 12 * w < |bits|
    ensures bits[..12 * w] + Chunk(bits, w) == bits[..if 12 * (w + 1) <= |bits| then 12 * (w + 1) else |bits|]
  {}

  lemma {:induction false} CorrectedBitsAt(bits: seq<bool>, parity: seq<bool>, v: nat, w: nat)
    requires |bits| > 12 * v - 12 && |parity| >= 11 * v && w < v && 12 * w + 12 <= |bits|
    ensures CorrectedBits(bits, parity, v)[12 * w..12 * w + 12] ==
            Corrected(Chunk(bits, w), parity[11 * w..11 * w + 11])
  {
    hide Corrected, CorrectedBits, Chunk;
    CorrectedBitsStep(bits, parity, v - 1);
    if w < v - 1 {
      CorrectedBitsAt(bits, parity, v - 1, w);
    }
  }

  lemma NumWordsCover(payloadBytes: nat)
    ensures 8 * payloadBytes > 12 * NumWords(payloadBytes) - 12
    ensures 12 * NumWords(payloadBytes) >= 8 * payloadBytes
    ensures NumTxBytes(payloadBytes) == 2 + payloadBytes + (11 * NumWords(payloadBytes) + 7) / 8
  {}

  /** Decoding gives back the payload whenever no codeword has more than three wrong bits. */
  lemma DecodedBodyCorrect(payload: seq<bv8>, body': seq<bv8>)
    requires |body'| >= NumTxBytes(|payload|) - 2
    requires var bits, bits' := MsbBits(payload), MsbBits(body'[..|payload|]);
             forall w | 0 <= w < NumWords(|payload|) ::
               ErrorsInWord(bits, bits', MsbBits(body'[|payload|..]), w) <= 3
    ensures DecodedBody(body', |payload|) == payload
  {
    hide ErrorsInWord, CorrectedBits, MsbBits;
    var bits, bits' := MsbBits(payload), MsbBits(body'[..|payload|]);
    NumWordsCover(|payload|);
    CorrectedPrefix(bits, bits', MsbBits(body'[|payload|..]), NumWords(|payload|));
    assert DecodedBits(body', |payload|) == bits;
    PackOfBytes(payload);
  }

  /** Conversely, a payload that is recovered had at most three errors in every full group. */
  lemma DecodedBodyOnlyIf(payload: seq<bv8>, body': seq<bv8>, w: nat)
    requires |body'| >= NumTxBytes(|payload|) - 2 && DecodedBody(body', |payload|) == payload
    requires 12 * w + 12 <= 8 * |payload|
    ensures ErrorsInWord(MsbBits(payload), MsbBits(body'[..|payload|]), MsbBits(body'[|payload|..]), w) <= 3
  {
    hide CorrectedBits, MsbBits, Corrected, Pack;
    var bits, bits', parity' := MsbBits(payload), MsbBits(body'[..|payload|]), MsbBits(body'[|payload|..]);
    NumWordsCover(|payload|);
    PackWhole(DecodedBits(body', |payload|));
    assert MsbBits(payload) == DecodedBits(body', |payload|);
    CorrectedBitsAt(bits', parity', NumWords(|payload|), w);
    CorrectedFullChunk(Chunk(bits, w), Chunk(bits', w), parity'[11 * w..11 * w + 11]);
  }
}
