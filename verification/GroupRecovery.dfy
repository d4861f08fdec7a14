/** Exactly which errors a received group survives, and with it a whole packet. The last group of a
    packet can be short. Its word has positions that are never sent, and that the decoder's choice
    among the codewords does not matter for. */
module GroupRecovery {
  import opened Words
  import opened Golay
  import opened GolayTables
  import opened Bytes
  import opened HorusLayout

  /** The 23-bit word that is sent for a group, and the one that is received. */
  ghost function Sent(chunk: seq<bool>): nat {
    WordValue(chunk) + Syndrome(WordValue(chunk))
  }

  function Received(chunk: seq<bool>, parity: seq<bool>): nat {
    WordValue(chunk) + FromBits(parity)
  }

  ghost function Errors(chunk: seq<bool>, chunk': seq<bool>, parity': seq<bool>): nat {
    Xor(Received(chunk', parity'), Sent(chunk))
  }

  /** None of the data positions of a short group is set in `z`. */
  predicate SparesData(z: nat, length: nat) {
    forall k | 12 <= k < 12 + length :: !Bit(z, k)
  }

  /** The errors of a short group are within three bits of a codeword that spares its data. */
  ghost predicate Harmless(e: nat, length: nat) {
    exists z :: IsCodeword(z) && SparesData(z, length) && Weight(Xor(e, z), 23) <= 3
  }

  ghost predicate Survives(chunk: seq<bool>, chunk': seq<bool>, parity': seq<bool>) {
    var e := Errors(chunk, chunk', parity');
    if |chunk| == 12 then Weight(e, 23) <= 3 else Harmless(e, |chunk|)
  }

  // ----- data bits of a word

  lemma {:induction false} BitShr(x: nat, k: nat, j: nat)
    ensures Bit(Shr(x, k), j) == Bit(x, j + k)
  {
    if k > 0 {
      BitShr(x / 2, k - 1, j);
    }
  }

  function ShortData(x: nat, length: nat): seq<bool> {
    ToBits(Shr(x, 11) / 2, length)
  }

  lemma ShortDataAt(x: nat, length: nat, i: nat)
    requires i < length
    ensures |ShortData(x, length)| == length && ShortData(x, length)[i] == Bit(x, 12 + length - 1 - i)
  {
    ToBitsIndex(Shr(x, 11) / 2, length, i);
    var j := length - 1 - i;
    assert Bit(Shr(x, 11) / 2, j) == Bit(Shr(x, 11), j + 1);
    BitShr(x, 11, j + 1);
  }

  lemma SameData(x: nat, y: nat, length: nat)
    ensures ShortData(x, length) == ShortData(y, length) <==> SparesData(Xor(x, y), length)
  {
    hide ShortData, Bit, Xor;
    if ShortData(x, length) == ShortData(y, length) {
      forall k | 12 <= k < 12 + length
        ensures !Bit(Xor(x, y), k)
      {
        ShortDataAt(x, length, 11 + length - k);
        ShortDataAt(y, length, 11 + length - k);
        BitXor(x, y, k);
      }
    }
    if SparesData(Xor(x, y), length) {
      forall i | 0 <= i < length
        ensures |ShortData(x, length)| == |ShortData(y, length)| == length &&
                ShortData(x, length)[i] == ShortData(y, length)[i]
      {
        ShortDataAt(x, length, i);
        ShortDataAt(y, length, i);
        BitXor(x, y, 12 + length - 1 - i);
      }
      ShortDataLength(x, length);
      ShortDataLength(y, length);
    }
  }

  lemma ShortDataLength(x: nat, length: nat)
    ensures |ShortData(x, length)| == length
  {}

  // ----- one group

  /** (w + c) + (n + c) == w + n */
  lemma XorCommon(w: nat, n: nat, c: nat)
    ensures Xor(Xor(w, c), Xor(n, c)) == Xor(w, n)
  {
    XorSwap(w, c, n, c);
    XorSelf(c);
    XorZero(Xor(w, n));
  }

  lemma ShortSurvives(w: nat, c: nat, length: nat)
    requires w < Pow2(23) && IsCodeword(c)
    ensures ShortData(Nearest(w), length) == ShortData(c, length) <==> Harmless(Xor(w, c), length)
  {
    hide ShortData, SparesData, Xor, Weight, Nearest, IsCodeword;
    NearestCodeword(w);
    var n := Nearest(w);
    SameData(n, c, length);
    CodewordXor(n, c);
    XorCommon(w, n, c);
    if Harmless(Xor(w, c), length) {
      var z :| IsCodeword(z) && SparesData(z, length) && Weight(Xor(Xor(w, c), z), 23) <= 3;
      CodewordXor(z, c);
      XorCancel(z, c);
      XorCommon(w, Xor(z, c), c);
      assert Xor(z, c) == n;
    }
  }

  /** A received group is decoded to what was sent if and only if it survives its errors. */
  lemma CorrectedExactly(chunk: seq<bool>, chunk': seq<bool>, parity': seq<bool>)
    requires |chunk| == |chunk'| <= 12 && |parity'| == 11
    ensures Corrected(chunk', parity') == chunk <==> Survives(chunk, chunk', parity')
  {
    hide ShortData, Harmless, Corrected, Parity, WordValue, Syndrome, FromBits, Weight, Xor, Nearest;
    hide IsCodeword, Distance, ToBits, Shr;
    SentWord(chunk);
    if |chunk| == 12 {
      CorrectedFullChunk(chunk, chunk', parity');
      ErrorsAreWeight(chunk, Parity(chunk), chunk', parity');
    } else {
      Pow2Eleven();
      WordValueFits(chunk');
      FromBitsBound(parity');
      ShortSurvives(Received(chunk', parity'), Sent(chunk), |chunk|);
      CorrectedIs(chunk', parity', Nearest(Received(chunk', parity')));
      ShortDataIs(Nearest(Received(chunk', parity')), |chunk|);
      ShortDataIs(Sent(chunk), |chunk|);
    }
  }

  lemma ShortDataIs(x: nat, length: nat)
    ensures ShortData(x, length) == ToBits(Shr(x, 11) / 2, length)
  {}

  /** Three errors at most are always survived. */
  lemma FewErrorsHarmless(e: nat, length: nat)
    requires Weight(e, 23) <= 3
    ensures Harmless(e, length)
  {
    XorZero(e);
    ZeroCodeword();
    forall k | 12 <= k < 12 + length
      ensures !Bit(0, k)
    {
      BitBelow(0, 0, k);
    }
    assert SparesData(0, length);
  }

  lemma ZeroCodeword()
    ensures IsCodeword(0)
  {
    assert Times(0, GENPOL) == 0;
  }

  /** But a short group can survive more: these four errors, all among its parity bits, are taken
      for three others around a position that is never sent. */
  lemma FourErrorsHarmless(length: nat)
    requires length < 11
    ensures Weight(0x470, 23) == 4 && Harmless(0x470, length)
  {
    assert IsCodeword(GENPOL) by {
      TimesStep(1, GENPOL);
      TimesStep(0, GENPOL);
      XorZero(GENPOL);
      PowersUsed();
    }
    FourErrorWords();
    forall k | 12 <= k < 12 + length
      ensures !Bit(GENPOL, k)
    {
      PowersUsed();
      BitBelow(GENPOL, 12, k);
    }
  }

  lemma FourErrorWords()
    ensures Xor(0x470, 0xc75) == 0x805 && Weight(0x805, 23) == 3 && Weight(0x470, 23) == 4
  {
    hide Xor, Weight, Pow2;
    SmallWeights();
    XorStep(0x470, 0xc75);
    XorStep(0x238, 0x63a);
    XorStep(0x11c, 0x31d);
    XorStep(0x8e, 0x18e);
    XorStep(0x47, 0xc7);
    XorStep(0x23, 0x63);
    XorStep(0x11, 0x31);
    XorStep(0x8, 0x18);
    XorStep(0x4, 0xc);
    XorStep(0x2, 0x6);
    XorStep(0x1, 0x3);
    XorZero(1);
    PowersUsed();
    WeightExtend(0x805, 12, 23);
    WeightExtend(0x470, 12, 23);
  }

  lemma WeightStep(x: nat, n: nat)
    ensures Weight(x, n) == if n == 0 then 0 else x % 2 + Weight(x / 2, n - 1)
  {}

  lemma SmallWeights()
    ensures Weight(0x805, 12) == 3 && Weight(0x470, 12) == 4
  {
    hide Weight;
    WeightStep(0x805, 12);
    WeightStep(0x402, 11);
    WeightStep(0x201, 10);
    WeightStep(0x100, 9);
    WeightStep(0x80, 8);
    WeightStep(0x40, 7);
    WeightStep(0x20, 6);
    WeightStep(0x10, 5);
    WeightStep(0x8, 4);
    WeightStep(0x4, 3);
    WeightStep(0x2, 2);
    WeightStep(0x1, 1);
    WeightStep(0x0, 0);
    WeightStep(0x470, 12);
    WeightStep(0x238, 11);
    WeightStep(0x11c, 10);
    WeightStep(0x8e, 9);
    WeightStep(0x47, 8);
    WeightStep(0x23, 7);
    WeightStep(0x11, 6);
    WeightStep(0x8, 5);
    WeightStep(0x4, 4);
    WeightStep(0x2, 3);
    WeightStep(0x1, 2);
    WeightStep(0x0, 1);
    WeightStep(0x0, 0);
  }

  // ----- whole packets

  /** The received group `w` and its parity bits survive. */
  ghost predicate SurvivesAt(bits: seq<bool>, bits': seq<bool>, parity': seq<bool>, w: nat)
    requires |bits'| == |bits| > 12 * w && |parity'| >= 11 * w + 11
  {
    Survives(Chunk(bits, w), Chunk(bits', w), parity'[11 * w..11 * w + 11])
  }

  lemma {:induction false} PrefixExactly(bits: seq<bool>, bits': seq<bool>, parity': seq<bool>, w: nat)
    requires |bits'| == |bits| > 12 * w - 12 && |parity'| >= 11 * w
    ensures CorrectedBits(bits', parity', w) == bits[..if 12 * w <= |bits| then 12 * w else |bits|] <==>
            forall v | 0 <= v < w :: SurvivesAt(bits, bits', parity', v)
  {
    hide Corrected, Survives;
    if w > 0 {
      hide CorrectedBits, Chunk;
      var v := w - 1;
      PrefixExactly(bits, bits', parity', v);
      CorrectedExactly(Chunk(bits, v), Chunk(bits', v), parity'[11 * v..11 * v + 11]);
      CorrectedBitsStep(bits', parity', v);
      ChunkExtends(bits, v);
      SameConcat(CorrectedBits(bits', parity', v), Corrected(Chunk(bits', v), parity'[11 * v..11 * v + 11]),
                 bits[..12 * v], Chunk(bits, v));
      assert (forall u | 0 <= u < w :: SurvivesAt(bits, bits', parity', u)) <==>
             (forall u | 0 <= u < v :: SurvivesAt(bits, bits', parity', u)) && SurvivesAt(bits, bits', parity', v);
      assert CorrectedBits(bits', parity', v + 1) ==
             bits[..if 12 * (v + 1) <= |bits| then 12 * (v + 1) else |bits|] <==>
             CorrectedBits(bits', parity', v) == bits[..12 * v] && SurvivesAt(bits, bits', parity', v);
    }
  }

  lemma SameConcat(a: seq<bool>, b: seq<bool>, c: seq<bool>, d: seq<bool>)
    requires |a| == |c|
    ensures a + b == c + d <==> a == c && b == d
  {
    if a + b == c + d {
      assert a == (a + b)[..|a|] && c == (c + d)[..|c|];
      assert b == (a + b)[|a|..] && d == (c + d)[|c|..];
    }
  }

  ghost predicate EveryGroupSurvives(payload: seq<bv8>, body': seq<bv8>)
    requires |body'| >= NumTxBytes(|payload|) - 2
  {
    NumWordsCover(|payload|);
    forall w | 0 <= w < NumWords(|payload|) ::
      SurvivesAt(MsbBits(payload), MsbBits(body'[..|payload|]), MsbBits(body'[|payload|..]), w)
  }

  /** A body is decoded to the payload that was sent if and only if every one of its groups
      survives, for payloads of every length and for all errors. */
  lemma DecodedBodyExactly(payload: seq<bv8>, body': seq<bv8>)
    requires |body'| >= NumTxBytes(|payload|) - 2
    ensures DecodedBody(body', |payload|) == payload <==> EveryGroupSurvives(payload, body')
  {
    hide CorrectedBits, MsbBits, Pack, SurvivesAt;
    var bits, bits', parity' := MsbBits(payload), MsbBits(body'[..|payload|]), MsbBits(body'[|payload|..]);
    NumWordsCover(|payload|);
    PrefixExactly(bits, bits', parity', NumWords(|payload|));
    assert bits[..|bits|] == bits;
    if DecodedBody(body', |payload|) == payload {
      PackWhole(DecodedBits(body', |payload|));
    }
    PackOfBytes(payload);
  }
}
