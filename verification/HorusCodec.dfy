/** The bit loops of horus_l2_encode_tx_packet and horus_l2_decode_rx_packet, proved against
    HorusLayout. Interleaving and scrambling come in Horus. */
module HorusCodec {
  import opened Words
  import opened Golay
  import opened GolayTables
  import opened Bytes
  import opened BitStreams
  import opened HorusLayout

  const UNIQUE_WORD: seq<bv8> := [0x24, 0x24]

  /** horus_l2_get_num_tx_data_bytes */
  method GetNumTxDataBytes(payloadBytes: nat) returns (txBytes: nat)
    ensures txBytes == NumTxBytes(payloadBytes)
  {
    var payloadBits := payloadBytes * 8;
    var codewords := payloadBits / 12;
    if payloadBits % 12 != 0 {
      codewords := codewords + 1;
    }
    var txBits := |UNIQUE_WORD| * 8 + payloadBits + codewords * 11;
    txBytes := txBits / 8;
    if txBits % 8 != 0 {
      txBytes := txBytes + 1;
    }
  }

  // ----- encoding

  /** Bits of the `w`-th group read so far. */
  function Pending(bits: seq<bool>, w: nat, n: nat): (c: seq<bool>)
    requires 12 * w <= n <= |bits|
    ensures |c| == n - 12 * w
  {
    bits[12 * w..n]
  }

  lemma PendingStep(bits: seq<bool>, w: nat, n: nat)
    requires 12 * w <= n < |bits| && n < 12 * w + 12
    ensures Or(2 * FromBits(Pending(bits, w, n)), B(bits[n])) == FromBits(Pending(bits, w, n + 1))
    ensures (n + 1) % 12 == 0 <==> n + 1 == 12 * w + 12
    ensures n + 1 == 12 * w + 12 ==> Chunk(bits, w) == Pending(bits, w, n + 1)
    ensures n + 1 == 12 * w + 12 ==> Pending(bits, w + 1, n + 1) == []
  {
    OrLast(FromBits(Pending(bits, w, n)), bits[n]);
    FromBitsAppend(Pending(bits, w, n), bits[n]);
    assert Pending(bits, w, n + 1) == Pending(bits, w, n) + [bits[n]];
  }

  lemma ParityBitsStep(bits: seq<bool>, w: nat)
    requires |bits| > 12 * w
    ensures ParityBits(bits, w + 1) == ParityBits(bits, w) + Parity(Chunk(bits, w))
  {}

  /** The bits written for a group are its parity bits. */
  lemma ParityWritten(chunk: seq<bool>, syndrome: nat)
    requires syndrome == Syndrome(WordValue(chunk))
    ensures TopBits(syndrome, 10, 11) == Parity(chunk)
  {
    TopBitsAll(syndrome, 11);
  }

  lemma EndOfStream(buf: seq<bv8>, base: nat, stream: seq<bool>, pos: nat, acc: nat)
    requires Written(buf, base, stream, pos, acc) && |stream| % 8 == 0
    ensures buf[base..pos] == Pack(stream)
  {}

  lemma EndOfStreamPadded(buf: seq<bv8>, base: nat, stream: seq<bool>, pos: nat, acc: nat)
    requires Written(buf, base, stream, pos, acc) && |stream| % 8 != 0 && pos < |buf|
    ensures Shl(acc, 7 - |stream| % 8) < 256
    ensures buf[pos := AsByte(Shl(acc, 7 - |stream| % 8))][base..pos + 1] == Pack(stream)
  {
    LastByte(stream);
  }

  /** The parity of one group: eleven bits, most significant first. */
  method WriteGroup(output: array<bv8>, ghost base: nat, pos: nat, acc: nat, nbits: nat,
                    word: nat, ghost bits: seq<bool>, ghost w: nat)
    returns (pos': nat, acc': nat, nbits': nat)
    requires |bits| > 12 * w && word == WordValue(Chunk(bits, w)) && word < Pow2(23) && nbits == 11 * w
    requires Written(output[..], base, ParityBits(bits, w), pos, acc)
    requires base + (nbits + 11) / 8 <= output.Length
    modifies output
    ensures nbits' == 11 * (w + 1)
    ensures Written(output[..], base, ParityBits(bits, w + 1), pos', acc')
    ensures forall k | 0 <= k < base || pos' <= k < output.Length :: output[k] == old(output[k])
  {
    hide Written, ParityBits, Parity, WordValue, Pow2;
    var golayparity := GetSyndrome(word);
    pos', acc', nbits' := WriteBits(output, base, pos, acc, nbits, golayparity, 10, 11, ParityBits(bits, w));
    ParityWritten(Chunk(bits, w), golayparity);
    ParityBitsStep(bits, w);
  }

  /** Room for the parity of every group. */
  lemma GroupRoom(payloadBytes: nat, w: nat)
    requires 8 * payloadBytes > 12 * w
    ensures w < NumWords(payloadBytes)
    ensures 2 + payloadBytes + (11 * (w + 1)) / 8 <= NumTxBytes(payloadBytes)
  {
    NumWordsCover(payloadBytes);
  }

  /** The loop over the payload bits, and the short group that may be left at its end. */
  method EncodeParity(output: array<bv8>, input: array<bv8>, payloadBytes: nat, start: nat)
    returns (pout: nat, paritybyte: nat, nparitybits: nat)
    requires output != input && payloadBytes <= input.Length && NumTxBytes(payloadBytes) <= output.Length
    requires start == 2 + payloadBytes
    modifies output
    ensures nparitybits == 11 * NumWords(payloadBytes)
    ensures var parity := ParityBits(MsbBits(input[..payloadBytes]), NumWords(payloadBytes));
            Written(output[..], start, parity, pout, paritybyte)
    ensures forall k | 0 <= k < start || NumTxBytes(payloadBytes) <= k < output.Length :: output[k] == old(output[k])
  {
    hide FromBits, Or, ParityBits, Written, WordValue, Shl, Shr, BitOf, Pow2, NumTxBytes, NumWords, Pending, Chunk;
    ghost var bits := MsbBits(input[..payloadBytes]);
    var payloadBits := payloadBytes * 8;
    var ninbit, ingolay, ningolay := 0, 0, 0;
    ghost var w := 0;
    pout, paritybyte, nparitybits := start, 0, 0;
    NumWordsCover(payloadBytes);
    StartOfStream(output[..], start, bits);
    while ninbit < payloadBits
      invariant 0 <= ninbit <= payloadBits && ningolay == ninbit && nparitybits == 11 * w
      invariant 12 * w <= ninbit < 12 * w + 12
      invariant ingolay == 2 * FromBits(Pending(bits, w, ninbit))
      invariant Written(output[..], start, ParityBits(bits, w), pout, paritybyte)
      invariant forall k | 0 <= k < start || NumTxBytes(payloadBytes) <= k < output.Length ::
                output[k] == old(output[k])
    {
      var ninbyte, shift := ninbit / 8, 7 - ninbit % 8;
      var inbit := B(BitOf(input[ninbyte], shift));
      PendingStep(bits, w, ninbit);
      ninbit := ninbit + 1;
      ingolay := Or(ingolay, inbit);
      ningolay := ningolay + 1;
      if ningolay % 12 != 0 {
        ShlOne(ingolay);
        ingolay := Shl(ingolay, 1);
      } else {
        GroupRoom(payloadBytes, w);
        FullGroup(Chunk(bits, w));
        pout, paritybyte, nparitybits :=
          WriteGroup(output, start, pout, paritybyte, nparitybits, Shl(ingolay, 11), bits, w);
        ingolay := 0;
        w := w + 1;
        NoBits();
        PosBound(output[..], start, payloadBytes, bits, w, pout, paritybyte);
      }
    }
    LastGroup(bits, payloadBytes, w);
    if ningolay % 12 != 0 {
      GroupRoom(payloadBytes, w);
      ShortGroup(Chunk(bits, w));
      ingolay := Shr(ingolay, 1);
      pout, paritybyte, nparitybits :=
        WriteGroup(output, start, pout, paritybyte, nparitybits, Shl(ingolay, 12), bits, w);
      PosBound(output[..], start, payloadBytes, bits, w + 1, pout, paritybyte);
    }
  }

  lemma LastGroup(bits: seq<bool>, payloadBytes: nat, w: nat)
    requires |bits| == 8 * payloadBytes && 12 * w <= |bits| < 12 * w + 12
    ensures |bits| % 12 == 0 <==> |bits| == 12 * w
    ensures NumWords(payloadBytes) == if |bits| == 12 * w then w else w + 1
    ensures |bits| != 12 * w ==> Chunk(bits, w) == Pending(bits, w, |bits|)
  {}

  lemma PosBound(buf: seq<bv8>, base: nat, payloadBytes: nat, bits: seq<bool>, w: nat, pos: nat, acc: nat)
    requires base == 2 + payloadBytes && w <= NumWords(payloadBytes) && |bits| == 8 * payloadBytes > 12 * w - 12
    requires Written(buf, base, ParityBits(bits, w), pos, acc)
    ensures pos <= NumTxBytes(payloadBytes)
  {
    NumWordsCover(payloadBytes);
  }

  /** The final, partly filled parity byte: its bits go to the most significant end. */
  method FinishStream(output: array<bv8>, ghost base: nat, pos: nat, acc: nat, nbits: nat, ghost stream: seq<bool>)
    returns (pos': nat)
    requires Written(output[..], base, stream, pos, acc) && nbits == |stream|
    requires base + (nbits + 7) / 8 <= output.Length
    modifies output
    ensures pos' == base + (nbits + 7) / 8 && output[base..pos'] == Pack(stream)
    ensures forall k | 0 <= k < base || pos' <= k < output.Length :: output[k] == old(output[k])
  {
    hide Written, Pack, AsByte, Shl;
    WrittenPos(output[..], base, stream, pos, acc);
    pos' := pos;
    if nbits % 8 != 0 {
      EndOfStreamPadded(output[..], base, stream, pos, acc);
      var last := Shl(acc, 7 - nbits % 8);
      ghost var before := output[..];
      output[pos] := AsByte(last);
      assert output[..] == before[pos := AsByte(last)];
      assert output[base..pos + 1] == output[..][base..pos + 1];
      pos' := pos + 1;
    } else {
      EndOfStream(output[..], base, stream, pos, acc);
      assert output[base..pos] == output[..][base..pos];
    }
  }

  /** Unique word and payload. */
  method WriteHeader(output: array<bv8>, input: array<bv8>, payloadBytes: nat)
    requires output != input && payloadBytes <= input.Length && 2 + payloadBytes <= output.Length
    modifies output
    ensures output[..2 + payloadBytes] == UNIQUE_WORD + input[..payloadBytes]
    ensures forall k | 2 + payloadBytes <= k < output.Length :: output[k] == old(output[k])
  {
    output[0], output[1] := 0x24, 0x24;
    forall k | 0 <= k < payloadBytes {
      output[2 + k] := input[k];
    }
  }

  /** Everything up to the interleaver: unique word, payload, parity. The write cursor ends
      exactly where GetNumTxDataBytes says. */
  method EncodeBody(output: array<bv8>, input: array<bv8>, payloadBytes: nat) returns (pout: nat)
    requires output != input && payloadBytes <= input.Length && NumTxBytes(payloadBytes) <= output.Length
    modifies output
    ensures pout == NumTxBytes(payloadBytes)
    ensures output[..pout] == UNIQUE_WORD + Body(input[..payloadBytes])
    ensures forall k | pout <= k < output.Length :: output[k] == old(output[k])
  {
    hide ParityBits, Written, NumTxBytes, Pack, NumWords, MsbBits, Body;
    NumWordsCover(payloadBytes);
    ghost var payload, base := input[..payloadBytes], 2 + payloadBytes;
    WriteHeader(output, input, payloadBytes);
    ghost var header := output[..base];
    var paritybyte, nparitybits;
    pout, paritybyte, nparitybits := EncodeParity(output, input, payloadBytes, 2 + payloadBytes);
    assert input[..payloadBytes] == payload;
    ghost var parity := ParityBits(MsbBits(payload), NumWords(payloadBytes));
    pout := FinishStream(output, base, pout, paritybyte, nparitybits, parity);
    assert output[..pout] == header + output[base..pout];
    BodyParts(payload, output[..pout], Pack(parity));
  }

  lemma BodyParts(payload: seq<bv8>, packet: seq<bv8>, parity: seq<bv8>)
    requires 8 * |payload| > 12 * NumWords(|payload|) - 12
    requires parity == Pack(ParityBits(MsbBits(payload), NumWords(|payload|)))
    requires packet == (UNIQUE_WORD + payload) + parity
    ensures packet == UNIQUE_WORD + Body(payload)
  {
    hide Pack, ParityBits, MsbBits, NumWords, NumTxBytes;
    assert (UNIQUE_WORD + payload) + parity == UNIQUE_WORD + (payload + parity);
  }

  lemma WrittenPos(buf: seq<bv8>, base: nat, stream: seq<bool>, pos: nat, acc: nat)
    requires Written(buf, base, stream, pos, acc)
    ensures pos == base + |stream| / 8
  {}

  lemma StartOfStream(buf: seq<bv8>, base: nat, bits: seq<bool>)
    requires base <= |buf|
    ensures ParityBits(bits, 0) == [] && FromBits(Pending(bits, 0, 0)) == 0
    ensures Written(buf, base, [], base, 0)
  {}

  lemma FullGroup(chunk: seq<bool>)
    requires |chunk| == 12
    ensures WordValue(chunk) == Shl(FromBits(chunk), 11) < Pow2(23)
  {
    WordValueFits(chunk);
  }

  lemma ShortGroup(chunk: seq<bool>)
    requires |chunk| < 12
    ensures Shr(2 * FromBits(chunk), 1) == FromBits(chunk)
    ensures WordValue(chunk) == Shl(FromBits(chunk), 12) < Pow2(23)
  {
    WordValueFits(chunk);
    assert Shr(FromBits(chunk), 0) == FromBits(chunk);
  }

  // ----- decoding

  /** One received word is corrected and its data bits are appended to the output. */
  method DecodeGroup(golay: Golay23, output: array<bv8>, pos: nat, acc: nat, nbits: nat, word: nat, top: nat,
                     count: nat,
                     ghost bits: seq<bool>, ghost parity: seq<bool>, ghost w: nat)
    returns (pos': nat, acc': nat, nbits': nat)
    requires golay.Valid() && golay.Apart(output)
    requires |bits| > 12 * w && |parity| >= 11 * w + 11 && nbits == 12 * w
    requires word == WordValue(Chunk(bits, w)) + FromBits(parity[11 * w..11 * w + 11]) < Pow2(23)
    requires count == |Chunk(bits, w)| && top == if count == 12 then 11 else count
    requires Written(output[..], 0, CorrectedBits(bits, parity, w), pos, acc)
    requires (nbits + count) / 8 <= output.Length
    modifies output
    ensures golay.Valid()
    ensures nbits' == nbits + count
    ensures Written(output[..], 0, CorrectedBits(bits, parity, w + 1), pos', acc')
    ensures forall k | pos' <= k < output.Length :: output[k] == old(output[k])
  {
    hide Written, CorrectedBits, WordValue, FromBits, Pow2, Nearest, Corrected;
    var codeword := golay.Decode(word);
    var outdata := Shr(codeword, 11);
    pos', acc', nbits' := WriteBits(output, 0, pos, acc, nbits, outdata, top, count, CorrectedBits(bits, parity, w));
    CorrectedWritten(Chunk(bits, w), parity[11 * w..11 * w + 11], outdata, top);
    CorrectedBitsStep(bits, parity, w);
  }

  lemma CorrectedWritten(chunk: seq<bool>, parity: seq<bool>, outdata: nat, top: nat)
    requires 0 < |chunk| <= 12 && top == if |chunk| == 12 then 11 else |chunk|
    requires outdata == Shr(Nearest(WordValue(chunk) + FromBits(parity)), 11)
    ensures TopBits(outdata, top, |chunk|) == Corrected(chunk, parity)
  {
    hide Nearest, WordValue, FromBits, Shr, ToBits, TopBits;
    TopBitsAll(outdata, |chunk|);
    CorrectedIs(chunk, parity, Nearest(WordValue(chunk) + FromBits(parity)));
  }

  /** A full group: twelve data bits, then its parity bits, in one word. */
  lemma FullReceived(chunk: seq<bool>, parity: seq<bool>)
    requires |chunk| == 12 && |parity| == 11
    ensures FromBits(chunk + parity) == WordValue(chunk) + FromBits(parity) < Pow2(23)
  {
    FromBitsConcat(chunk, parity);
    ReceivedFits(chunk, parity);
  }

  lemma ReceivedFits(chunk: seq<bool>, parity: seq<bool>)
    requires |chunk| <= 12 && |parity| == 11
    ensures WordValue(chunk) + FromBits(parity) < Pow2(23)
  {
    hide WordValue, FromBits;
    WordValueFits(chunk);
    FromBitsBound(parity);
    Pow2Eleven();
  }

  /** Decoding reads one byte past the parity bits when these fill whole bytes. */
  function BytesRead(payloadBytes: nat): nat {
    2 + payloadBytes + 11 * NumWords(payloadBytes) / 8 + 1
  }

  /** Exactly for a multiple of eight codewords the decoder reads beyond the packet. */
  lemma ReadsBeyondPacket(payloadBytes: nat)
    ensures NumTxBytes(payloadBytes) <= BytesRead(payloadBytes) <= NumTxBytes(payloadBytes) + 1
    ensures BytesRead(payloadBytes) > NumTxBytes(payloadBytes) <==> NumWords(payloadBytes) % 8 == 0
  {
    NumWordsCover(payloadBytes);
    hide NumWords, NumTxBytes;
    ParityBytes(NumWords(payloadBytes));
  }

  /** Eleven parity bits per codeword fill whole bytes only for a multiple of eight codewords. */
  lemma ParityBytes(w: nat)
    ensures (11 * w + 7) / 8 == 11 * w / 8 + if w % 8 == 0 then 0 else 1
  {
    var q, r := w / 8, w % 8;
    var whole, rest := 11 * r / 8, 11 * r % 8;
    assert 11 * w == 8 * (11 * q + whole) + rest;
    QuotientIs(11 * w, 8, 11 * q + whole, rest);
    if r == 0 {
      QuotientIs(11 * w + 7, 8, 11 * q + whole, 7);
    } else {
      assert rest > 0;
      QuotientIs(11 * w + 7, 8, 11 * q + whole + 1, rest - 1);
    }
  }

  lemma ReadRoom(payloadBytes: nat, w: nat, length: nat)
    requires 8 * payloadBytes > 12 * w && length >= BytesRead(payloadBytes)
    ensures w < NumWords(payloadBytes) && 2 + payloadBytes + (11 * w + 11) / 8 < length
    ensures 8 * (length - 2 - payloadBytes) >= 11 * w + 11
    ensures (12 * w + (if 12 * w + 12 <= 8 * payloadBytes then 12 else 8 * payloadBytes - 12 * w)) / 8 <= payloadBytes
  {}

  /** Eleven parity bits are read behind the twelve data bits; the word is corrected. */
  method DecodeFull(golay: Golay23, output: array<bv8>, rx: array<bv8>, ghost base: nat, pin: nat, next: bv8,
                    nread: nat,
                    ingolay: nat, pos: nat, acc: nat, nbits: nat,
                    ghost bits: seq<bool>, ghost parity: seq<bool>, ghost w: nat)
    returns (pin': nat, next': bv8, nread': nat, pos': nat, acc': nat, nbits': nat)
    requires golay.Valid() && golay.Apart(output) && output != rx
    requires nread == 11 * w && nbits == 12 * w && |bits| >= 12 * w + 12
    requires base + (nread + 11) / 8 < rx.Length && (nbits + 12) / 8 <= output.Length
    requires ReaderAt(rx[..], base, nread, pin, next) && parity == MsbBits(rx[base..])
    requires ingolay == 2 * FromBits(Chunk(bits, w))
    requires Written(output[..], 0, CorrectedBits(bits, parity, w), pos, acc)
    modifies output
    ensures golay.Valid()
    ensures nread' == nread + 11 && ReaderAt(rx[..], base, nread', pin', next')
    ensures nbits' == nbits + 12 && |parity| >= 11 * w + 11
    ensures Written(output[..], 0, CorrectedBits(bits, parity, w + 1), pos', acc')
    ensures forall k | pos' <= k < output.Length :: output[k] == old(output[k])
  {
    hide FromBits, CorrectedBits, Written, WordValue, Pow2, Chunk, ReaderAt;
    var word;
    pin', next', nread', word := ReadParity(rx, base, pin, next, nread, ingolay, Chunk(bits, w), parity);
    FullReceived(Chunk(bits, w), parity[11 * w..11 * w + 11]);
    ghost var rxs := rx[..];
    pos', acc', nbits' := DecodeGroup(golay, output, pos, acc, nbits, word, 11, 12, bits, parity, w);
    assert rx[..] == rxs;
  }

  /** The last, short group: its word is put together from the data bits and the parity. */
  method DecodeShort(golay: Golay23, output: array<bv8>, rx: array<bv8>, ghost base: nat, pin: nat, next: bv8,
                     nread: nat,
                     ingolay: nat, pos: nat, acc: nat, nbits: nat, ntogo: nat,
                     ghost bits: seq<bool>, ghost parity: seq<bool>, ghost w: nat)
    returns (pos': nat, acc': nat, nbits': nat)
    requires golay.Valid() && golay.Apart(output) && output != rx
    requires nread == 11 * w && nbits == 12 * w && 12 * w < |bits| < 12 * w + 12 && ntogo == |bits| - nbits
    requires base + (nread + 11) / 8 < rx.Length && (nbits + ntogo) / 8 <= output.Length
    requires ReaderAt(rx[..], base, nread, pin, next) && parity == MsbBits(rx[base..])
    requires ingolay == 2 * FromBits(Chunk(bits, w))
    requires Written(output[..], 0, CorrectedBits(bits, parity, w), pos, acc)
    modifies output
    ensures golay.Valid()
    ensures nbits' == |bits| && |parity| >= 11 * w + 11
    ensures Written(output[..], 0, CorrectedBits(bits, parity, w + 1), pos', acc')
    ensures forall k | pos' <= k < output.Length :: output[k] == old(output[k])
  {
    hide FromBits, CorrectedBits, Written, WordValue, Pow2, Chunk, Shl, Shr, ReaderAt;
    NoBits();
    var _, _, _, golayparity := ReadParity(rx, base, pin, next, nread, 0, [], parity);
    assert [] + parity[11 * w..11 * w + 11] == parity[11 * w..11 * w + 11];
    ShortGroup(Chunk(bits, w));
    ReceivedFits(Chunk(bits, w), parity[11 * w..11 * w + 11]);
    var codeword := Shl(Shr(ingolay, 1), 12) + golayparity;
    pos', acc', nbits' := DecodeGroup(golay, output, pos, acc, nbits, codeword, ntogo, ntogo, bits, parity, w);
  }

  /** The loop over the received data bits: every full group is corrected and written out. */
  method DecodeGroups(golay: Golay23, output: array<bv8>, rx: array<bv8>, payloadBytes: nat,
                      ghost bits: seq<bool>, ghost parity: seq<bool>)
    returns (pin: nat, paritybyte: bv8, nparitybits: nat, ingolay: nat, pout: nat, outbyte: nat, noutbits: nat,
            ghost w: nat)
    requires golay.Valid() && golay.Apart(output) && output != rx
    requires payloadBytes <= output.Length && BytesRead(payloadBytes) <= rx.Length
    requires 2 + payloadBytes <= rx.Length
    requires bits == MsbBits(rx[2..2 + payloadBytes]) && parity == MsbBits(rx[2 + payloadBytes..])
    modifies output
    ensures golay.Valid()
    ensures 12 * w <= 8 * payloadBytes < 12 * w + 12 && noutbits == 12 * w && nparitybits == 11 * w <= |parity|
    ensures ReaderAt(rx[..], 2 + payloadBytes, nparitybits, pin, paritybyte)
    ensures ingolay == 2 * FromBits(Pending(bits, w, 8 * payloadBytes))
    ensures Written(output[..], 0, CorrectedBits(bits, parity, w), pout, outbyte)
    ensures forall k | payloadBytes <= k < output.Length :: output[k] == old(output[k])
  {
    hide FromBits, Or, CorrectedBits, Written, WordValue, Shl, BitOf, Pow2, NumWords, Pending, Chunk;
    hide BytesRead, ReaderAt, MsbBits, golay.Valid;
    BytesReadAt(payloadBytes);
    ghost var base, rxs := 2 + payloadBytes, rx[..];
    pin := 2 + payloadBytes;
    var payloadBits := payloadBytes * 8;
    var ninbit, ningolay := 0, 0;
    ingolay, nparitybits, noutbits, outbyte, pout := 0, 0, 0, 0, 0;
    paritybyte := rx[pin];
    pin := pin + 1;
    w := 0;
    StartOfStream(output[..], 0, bits);
    StartOfOutput(bits, parity);
    StartOfReader(rxs, base);
    while ninbit < payloadBits
      invariant golay.Valid() && ninbit <= payloadBits && ningolay == ninbit
      invariant 12 * w <= ninbit < 12 * w + 12 && noutbits == 12 * w && nparitybits == 11 * w <= |parity|
      invariant rx[..] == rxs && ReaderAt(rxs, base, nparitybits, pin, paritybyte)
      invariant ingolay == 2 * FromBits(Pending(bits, w, ninbit))
      invariant Written(output[..], 0, CorrectedBits(bits, parity, w), pout, outbyte)
      invariant forall k | payloadBytes <= k < output.Length :: output[k] == old(output[k])
    {
      var ninbyte, shift := ninbit / 8 + 2, 7 - ninbit % 8;
      var inbit := B(BitOf(rx[ninbyte], shift));
      DataBit(rxs, payloadBytes, bits, ninbit);
      PendingStep(bits, w, ninbit);
      ninbit := ninbit + 1;
      ingolay := Or(ingolay, inbit);
      ningolay := ningolay + 1;
      ShlOne(ingolay);
      ingolay := Shl(ingolay, 1);
      if ningolay % 12 == 0 {
        ReadRoom(payloadBytes, w, rx.Length);
        assert rx[base..] == rxs[base..];
        pin, paritybyte, nparitybits, pout, outbyte, noutbits :=
          DecodeFull(golay, output, rx, base, pin, paritybyte, nparitybits, ingolay, pout, outbyte, noutbits, bits,
              parity, w);
        w := w + 1;
        OutputBound(output[..], payloadBytes, bits, parity, w, pout, outbyte);
        ingolay := 0;
        NoBits();
      }
    }
  }

  lemma DataBit(rx: seq<bv8>, payloadBytes: nat, bits: seq<bool>, n: nat)
    requires 2 + payloadBytes <= |rx| && bits == MsbBits(rx[2..2 + payloadBytes]) && n < 8 * payloadBytes
    ensures bits[n] == BitOf(rx[n / 8 + 2], 7 - n % 8)
  {
    assert rx[2..2 + payloadBytes][n / 8] == rx[n / 8 + 2];
  }

  /** Everything after de-interleaving: correct every group, pack the data bits. The output
      cursor ends exactly at the payload length. */
  method DecodeBody(golay: Golay23, output: array<bv8>, rx: array<bv8>, payloadBytes: nat) returns (pout: nat)
    requires golay.Valid() && golay.Apart(output) && output != rx
    requires payloadBytes <= output.Length && BytesRead(payloadBytes) <= rx.Length
    modifies output
    ensures golay.Valid()
    ensures pout == payloadBytes && NumTxBytes(payloadBytes) <= rx.Length
    ensures output[..payloadBytes] == DecodedBody(rx[2..], payloadBytes)
    ensures forall k | payloadBytes <= k < output.Length :: output[k] == old(output[k])
  {
    hide FromBits, CorrectedBits, Written, NumTxBytes, NumWords, Pending, Chunk, BytesRead, DecodedBody;
    hide MsbBits, ReaderAt;
    BytesReadAt(payloadBytes);
    ghost var base, rxs := 2 + payloadBytes, rx[..];
    ghost var bits, parity := MsbBits(rx[2..base]), MsbBits(rx[base..]);
    var pin, paritybyte, nparitybits, ingolay, outbyte, noutbits;
    ghost var w;
    pin, paritybyte, nparitybits, ingolay, pout, outbyte, noutbits, w :=
      DecodeGroups(golay, output, rx, payloadBytes, bits, parity);
    assert rx[..] == rxs && rx[base..] == rxs[base..];
    LastGroup(bits, payloadBytes, w);
    if payloadBytes * 8 % 12 != 0 {
      ReadRoom(payloadBytes, w, rx.Length);
      pout, outbyte, noutbits :=
        DecodeShort(golay, output, rx, base, pin, paritybyte, nparitybits, ingolay, pout, outbyte, noutbits,
                    payloadBytes * 8 - noutbits, bits, parity, w);
      OutputBound(output[..], payloadBytes, bits, parity, w + 1, pout, outbyte);
    }
    AllDecoded(output[..], rxs, payloadBytes, bits, parity, pout, outbyte);
    assert rx[2..] == rxs[2..];
  }

  lemma BytesReadAt(payloadBytes: nat)
    ensures BytesRead(payloadBytes) > 2 + payloadBytes
  {}

  lemma StartOfReader(buf: seq<bv8>, base: nat)
    requires base < |buf|
    ensures ReaderAt(buf, base, 0, base + 1, buf[base])
  {}

  lemma StartOfOutput(bits: seq<bool>, parity: seq<bool>)
    ensures CorrectedBits(bits, parity, 0) == []
  {}

  lemma OutputBound(buf: seq<bv8>, payloadBytes: nat, bits: seq<bool>, parity: seq<bool>, w: nat, pos: nat, acc: nat)
    requires |bits| == 8 * payloadBytes > 12 * w - 12 && |parity| >= 11 * w
    requires Written(buf, 0, CorrectedBits(bits, parity, w), pos, acc)
    ensures pos <= payloadBytes
  {}

  lemma AllDecoded(buf: seq<bv8>, rx: seq<bv8>, payloadBytes: nat, bits: seq<bool>, parity: seq<bool>,
                   pos: nat, acc: nat)
    requires |rx| >= BytesRead(payloadBytes) && |rx| >= 2 + payloadBytes
    requires bits == MsbBits(rx[2..2 + payloadBytes]) && parity == MsbBits(rx[2 + payloadBytes..])
    requires |bits| > 12 * NumWords(payloadBytes) - 12 && |parity| >= 11 * NumWords(payloadBytes)
    requires Written(buf, 0, CorrectedBits(bits, parity, NumWords(payloadBytes)), pos, acc)
    ensures |rx| >= NumTxBytes(payloadBytes)
    ensures pos == payloadBytes && buf[..payloadBytes] == DecodedBody(rx[2..], payloadBytes)
  {
    hide CorrectedBits, MsbBits, Written;
    ReadsBeyondPacket(payloadBytes);
    assert rx[2..][..payloadBytes] == rx[2..2 + payloadBytes];
    assert rx[2..][payloadBytes..] == rx[2 + payloadBytes..];
    hide NumTxBytes, NumWords, BytesRead;
    WrittenPos(buf, 0, DecodedBits(rx[2..], payloadBytes), pos, acc);
    EndOfStream(buf, 0, DecodedBits(rx[2..], payloadBytes), pos, acc);
  }
}
