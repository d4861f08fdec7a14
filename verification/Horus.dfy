/** Whole Horus layer-2 packets: horus_l2_encode_tx_packet, horus_l2_decode_rx_packet, and the
    Horus Binary v2 wrappers around them. CONFIG_HORUS_INTERLEAVER and CONFIG_HORUS_SCRAMBLER
    are parameters. */
module Horus {
  import opened Words
  import opened GolayTables
  import opened Bytes
  import opened HorusLayout
  import opened HorusCodec
  import opened Interleaver
  import opened Scrambler
  import opened Crc16

  datatype Config = Config(interleaver: bool, scrambler: bool)

  /** The interleaver's prime table ends at 773 bits. */
  predicate Supported(config: Config, payloadBytes: nat) {
    config.interleaver ==> 8 * (NumTxBytes(payloadBytes) - 2) <= 773
  }

  /** That is up to 49 payload bytes: 50 of them make 776 bits. */
  lemma SupportedExactly(config: Config, payloadBytes: nat)
    ensures Supported(config, payloadBytes) <==> !config.interleaver || payloadBytes <= 49
    ensures 8 * (NumTxBytes(50) - 2) == 776
  {
    NumWordsCover(payloadBytes);
    NumWordsCover(50);
  }

  /** Bits as they go on the air: interleaved, then scrambled. */
  ghost function OnAir(config: Config, bits: seq<bool>): (s: seq<bool>)
    requires |bits| % 8 == 0 && (config.interleaver ==> |bits| <= 773)
    ensures |s| == |bits|
  {
    var mixed := if config.interleaver then Permuted(bits, false) else bits;
    if config.scrambler then Scrambled(mixed) else mixed
  }

  /** What the receiver makes of bits from the air. */
  ghost function FromAir(config: Config, bits: seq<bool>): (s: seq<bool>)
    requires |bits| % 8 == 0 && (config.interleaver ==> |bits| <= 773)
    ensures |s| == |bits|
  {
    var clear := if config.scrambler then Scrambled(bits) else bits;
    if config.interleaver then Permuted(clear, true) else clear
  }

  /** The receiver's steps undo the sender's. */
  lemma FromAirOnAir(config: Config, bits: seq<bool>)
    requires |bits| % 8 == 0 && (config.interleaver ==> |bits| <= 773)
    ensures FromAir(config, OnAir(config, bits)) == bits
  {
    hide Scrambled, Interleaved, Deinterleaved, Coprime, Multiplier;
    var mixed := if config.interleaver then Permuted(bits, false) else bits;
    ScrambleTwice(mixed);
    if config.interleaver && bits != [] {
      MultiplierCoprime(|bits|);
      InterleaveInverse(bits, Multiplier(|bits|));
    }
  }

  /** The bits on the air for a payload, after the unique word. */
  ghost function AirBits(config: Config, payload: seq<bv8>): (s: seq<bool>)
    requires Supported(config, |payload|)
    ensures |s| == 8 * (NumTxBytes(|payload|) - 2)
  {
    BodyLength(config, payload);
    OnAir(config, LsbBits(Body(payload)))
  }

  lemma BodyLength(config: Config, payload: seq<bv8>)
    requires Supported(config, |payload|)
    ensures |LsbBits(Body(payload))| == 8 * (NumTxBytes(|payload|) - 2)
    ensures |LsbBits(Body(payload))| % 8 == 0 && (config.interleaver ==> |LsbBits(Body(payload))| <= 773)
  {
    hide LsbBits, Body, NumTxBytes;
  }

  // ----- the two packet functions

  /** horus_l2_encode_tx_packet */
  method EncodeTxPacket(config: Config, output: array<bv8>, input: array<bv8>,
                        payloadBytes: nat) returns (txBytes: nat)
    requires output != input && payloadBytes <= input.Length && NumTxBytes(payloadBytes) <= output.Length
    requires Supported(config, payloadBytes)
    modifies output
    ensures txBytes == NumTxBytes(payloadBytes)
    ensures output[..2] == [0x24, 0x24]
    ensures LsbBits(output[2..txBytes]) == AirBits(config, input[..payloadBytes])
    ensures forall k | txBytes <= k < output.Length :: output[k] == old(output[k])
  {
    hide LsbBits, Permuted, Scrambled, Body, NumTxBytes;
    txBytes := GetNumTxDataBytes(payloadBytes);
    ghost var body := Body(input[..payloadBytes]);
    var pout := EncodeBody(output, input, payloadBytes);
    assert output[2..txBytes] == output[..txBytes][2..] == body;
    assert output[..2] == output[..txBytes][..2] == UNIQUE_WORD;
    if config.interleaver {
      Interleave(output, 2, txBytes - 2, false);
      assert output[2..2 + (txBytes - 2)] == output[2..txBytes];
    }
    ghost var mixed := LsbBits(output[2..txBytes]);
    if config.scrambler {
      Scramble(output, 2, txBytes - 2);
      assert output[2..2 + (txBytes - 2)] == output[2..txBytes];
    }
  }

  /** `after` is the received body `before`, unscrambled and de-interleaved. */
  ghost predicate Cleared(config: Config, before: seq<bv8>, after: seq<bv8>)
    requires config.interleaver ==> 8 * |before| <= 773
  {
    LsbBits(after) == FromAir(config, LsbBits(before))
  }

  /** horus_l2_decode_rx_packet; the received buffer is unscrambled and de-interleaved in place. */
  method DecodeRxPacket(config: Config, golay: Golay23, output: array<bv8>, rx: array<bv8>, payloadBytes: nat)
    requires golay.Valid() && golay.Apart(output) && golay.Apart(rx) && output != rx
    requires payloadBytes <= output.Length && BytesRead(payloadBytes) <= rx.Length &&
             NumTxBytes(payloadBytes) <= rx.Length
    requires Supported(config, payloadBytes)
    modifies output, rx
    ensures golay.Valid()
    ensures Cleared(config, old(rx[2..NumTxBytes(payloadBytes)]), rx[2..NumTxBytes(payloadBytes)])
    ensures output[..payloadBytes] == DecodedBody(rx[2..], payloadBytes)
    ensures forall k | payloadBytes <= k < output.Length :: output[k] == old(output[k])
  {
    hide LsbBits, Permuted, Scrambled, DecodedBody, NumTxBytes, golay.Valid;
    var txBytes := GetNumTxDataBytes(payloadBytes);
    if config.scrambler {
      Scramble(rx, 2, txBytes - 2);
      assert rx[2..2 + (txBytes - 2)] == rx[2..txBytes];
    }
    if config.interleaver {
      Interleave(rx, 2, txBytes - 2, true);
      assert rx[2..2 + (txBytes - 2)] == rx[2..txBytes];
    }
    var pout := DecodeBody(golay, output, rx, payloadBytes);
  }

  // ----- errors on the air

  /** Where bit `q` of the body (transmission order) is found among the bits on the air. */
  ghost function AirPosition(config: Config, nbits: nat, q: nat): (p: nat)
    requires nbits % 8 == 0 && q < nbits
    ensures p < nbits
  {
    if config.interleaver then Target(Multiplier(nbits), nbits, Mirror(q)) else Mirror(q)
  }

  /** Bits of the body that make up the `w`-th codeword: its data bits and its parity bits. */
  function WordPositions(payloadBytes: nat, w: nat): (s: seq<nat>)
    requires 8 * payloadBytes > 12 * w
    ensures forall i | 0 <= i < |s| :: s[i] < BodyBits(payloadBytes)
  {
    var data := if 12 * w + 12 <= 8 * payloadBytes then 12 else 8 * payloadBytes - 12 * w;
    WordInBody(payloadBytes, w);
    seq(data + 11, i requires 0 <= i < data + 11 =>
      if i < data then 12 * w + i else 8 * payloadBytes + 11 * w + (i - data))
  }

  lemma WordInBody(payloadBytes: nat, w: nat)
    requires 8 * payloadBytes > 12 * w
    ensures w < NumWords(payloadBytes) && 8 * payloadBytes + 11 * w + 11 <= BodyBits(payloadBytes)
    ensures BodyBits(payloadBytes) <= 8 * (NumTxBytes(payloadBytes) - 2)
  {
    NumWordsCover(payloadBytes);
  }

  /** The bits of one codeword, picked out of the bits on the air. */
  ghost function WordOnAir(config: Config, bits: seq<bool>, payloadBytes: nat, w: nat): (s: seq<bool>)
    requires |bits| == 8 * (NumTxBytes(payloadBytes) - 2) && 8 * payloadBytes > 12 * w
    ensures |s| == |WordPositions(payloadBytes, w)|
  {
    var positions := WordPositions(payloadBytes, w);
    WordInBody(payloadBytes, w);
    WholeBytes(NumTxBytes(payloadBytes) - 2);
    seq(|positions|, i requires 0 <= i < |positions| => bits[AirPosition(config, |bits|, positions[i])])
  }

  /** How many bits of one codeword the channel flipped. */
  ghost function FlippedBits(config: Config, sent: seq<bool>, received: seq<bool>, payloadBytes: nat, w: nat): nat
    requires |sent| == |received| == 8 * (NumTxBytes(payloadBytes) - 2) && 8 * payloadBytes > 12 * w
  {
    Distance(WordOnAir(config, received, payloadBytes, w), WordOnAir(config, sent, payloadBytes, w))
  }

  /** A bit of the recovered body is wrong exactly if its bit on the air was flipped. */
  lemma FlipsCarryOver(config: Config, body: seq<bv8>, body': seq<bv8>, received: seq<bool>, q: nat)
    requires |body'| == |body| && q < 8 * |body| && (config.interleaver ==> 8 * |body| <= 773)
    requires |received| == 8 * |body| && LsbBits(body') == FromAir(config, received)
    ensures var p := AirPosition(config, 8 * |body|, q);
            (MsbBits(body')[q] != MsbBits(body)[q]) == (received[p] != OnAir(config, LsbBits(body))[p])
  {
    hide Keystream, Coprime, Multiplier, Target, LsbBits, MsbBits;
    var n := 8 * |body|;
    MirrorBits(body, q);
    MirrorBits(body', q);
    if config.interleaver {
      MultiplierCoprime(n);
      SourceTarget(Multiplier(n), n, Mirror(q));
    }
  }

  lemma {:induction false} SameDistance(s: seq<bool>, t: seq<bool>, s': seq<bool>, t': seq<bool>)
    requires |s| == |t| == |s'| == |t'|
    requires forall i | 0 <= i < |s| :: (s[i] != t[i]) == (s'[i] != t'[i])
    ensures Distance(s, t) == Distance(s', t')
  {
    if s != [] {
      var n := |s| - 1;
      SameDistance(s[..n], t[..n], s'[..n], t'[..n]);
    }
  }

  /** The parity bits of each group sit at their place in the packet. */
  lemma {:induction false} ParityBitsAt(bits: seq<bool>, v: nat, w: nat)
    requires w < v && |bits| > 12 * v - 12
    ensures ParityBits(bits, v)[11 * w..11 * w + 11] == Parity(Chunk(bits, w))
  {
    hide Parity, Chunk;
    if w < v - 1 {
      ParityBitsAt(bits, v - 1, w);
    }
  }

  /** Data and parity of the `w`-th codeword, read from a body. */
  function WordInBits(bits: seq<bool>, payloadBytes: nat, w: nat): seq<bool>
    requires |bits| >= BodyBits(payloadBytes) && 8 * payloadBytes > 12 * w
  {
    WordInBody(payloadBytes, w);
    Chunk(bits[..8 * payloadBytes], w) + bits[8 * payloadBytes + 11 * w..8 * payloadBytes + 11 * w + 11]
  }

  lemma WordInBitsAt(bits: seq<bool>, payloadBytes: nat, w: nat, i: nat)
    requires |bits| >= BodyBits(payloadBytes) && 8 * payloadBytes > 12 * w
    requires i < |WordPositions(payloadBytes, w)|
    ensures |WordInBits(bits, payloadBytes, w)| == |WordPositions(payloadBytes, w)|
    ensures WordInBits(bits, payloadBytes, w)[i] == bits[WordPositions(payloadBytes, w)[i]]
  {
    WordInBody(payloadBytes, w);
    hide NumWords, NumTxBytes, BodyBits;
    var data := if 12 * w + 12 <= 8 * payloadBytes then 12 else 8 * payloadBytes - 12 * w;
    assert |Chunk(bits[..8 * payloadBytes], w)| == data;
    if i < data {
      assert WordPositions(payloadBytes, w)[i] == 12 * w + i;
    } else {
      assert WordPositions(payloadBytes, w)[i] == 8 * payloadBytes + 11 * w + (i - data);
    }
  }

  /** The sender's body holds each group with its parity. */
  lemma WordInSentBody(payload: seq<bv8>, w: nat)
    requires 8 * |payload| > 12 * w
    ensures |MsbBits(Body(payload))| >= BodyBits(|payload|)
    ensures WordInBits(MsbBits(Body(payload)), |payload|, w) ==
            Chunk(MsbBits(payload), w) + Parity(Chunk(MsbBits(payload), w))
  {
    hide MsbBits, Parity, ParityBits, Pack, PackByte, NumWords, NumTxBytes, Chunk;
    WordInBody(|payload|, w);
    NumWordsCover(|payload|);
    var bits, v := MsbBits(payload), NumWords(|payload|);
    var parity := ParityBits(bits, v);
    MsbBitsConcat(payload, Pack(parity));
    PackWhole(parity);
    ParityBitsAt(bits, v, w);
    var all := MsbBits(Body(payload));
    assert all == bits + MsbBits(Pack(parity));
    assert all[..8 * |payload|] == bits;
    assert all[8 * |payload| + 11 * w..8 * |payload| + 11 * w + 11] == parity[11 * w..11 * w + 11];
  }

  /** `bytes` hold what the receiver makes of bits from the air. */
  ghost predicate Holds(config: Config, received: seq<bool>, bytes: seq<bv8>)
    requires |received| % 8 == 0 && (config.interleaver ==> |received| <= 773)
  {
    LsbBits(bytes) == FromAir(config, received)
  }

  /** `body` is what the receiver has after undoing the scrambler and the interleaver. */
  ghost predicate Recovered(config: Config, payloadBytes: nat, received: seq<bool>, body: seq<bv8>)
    ensures Recovered(config, payloadBytes, received, body) ==>
              Supported(config, payloadBytes) && |received| == 8 * (NumTxBytes(payloadBytes) - 2) <= 8 * |body|
  {
    var n := NumTxBytes(payloadBytes) - 2;
    WholeBytes(n);
    && Supported(config, payloadBytes)
    && |received| == 8 * n && n <= |body|
    && Holds(config, received, body[..n])
  }

  lemma WholeBytes(n: nat)
    ensures 8 * n % 8 == 0
  {}

  /** Errors that the decoder sees in a codeword are the bits of it that were flipped on the air. */
  lemma ErrorsAreFlips(config: Config, payload: seq<bv8>, received: seq<bool>, body': seq<bv8>, w: nat)
    requires Recovered(config, |payload|, received, body') && 8 * |payload| > 12 * w
    ensures 8 * |body'[|payload|..]| >= 11 * w + 11
    ensures ErrorsInWord(MsbBits(payload), MsbBits(body'[..|payload|]), MsbBits(body'[|payload|..]), w) ==
            FlippedBits(config, AirBits(config, payload), received, |payload|, w)
  {
    hide MsbBits, LsbBits, Body, NumTxBytes, Chunk, Parity, OnAir, FromAir, AirPosition, BodyBits, NumWords, WordInBits,
         WordPositions;
    var n, body := |payload|, Body(payload);
    var cut := body'[..NumTxBytes(n) - 2];
    WordInBody(n, w);
    BodyLength(config, payload);
    WordInSentBody(payload, w);
    ReceivedWord(payload, cut, body', w);
    var s, t := WordInBits(MsbBits(cut), n, w), WordInBits(MsbBits(body), n, w);
    var s', t' := WordOnAir(config, received, n, w), WordOnAir(config, AirBits(config, payload), n, w);
    var positions := WordPositions(n, w);
    SomePosition(n, w);
    WordInBitsAt(MsbBits(cut), n, w, 0);
    WordInBitsAt(MsbBits(body), n, w, 0);
    forall i | 0 <= i < |positions|
      ensures (s[i] != t[i]) == (s'[i] != t'[i])
    {
      WordInBitsAt(MsbBits(cut), n, w, i);
      WordInBitsAt(MsbBits(body), n, w, i);
      FlipsCarryOver(config, body, cut, received, positions[i]);
    }
    SameDistance(s, t, s', t');
  }

  lemma SomePosition(payloadBytes: nat, w: nat)
    requires 8 * payloadBytes > 12 * w
    ensures |WordPositions(payloadBytes, w)| > 0
  {}

  lemma ReceivedWord(payload: seq<bv8>, cut: seq<bv8>, body': seq<bv8>, w: nat)
    requires 8 * |payload| > 12 * w && NumTxBytes(|payload|) - 2 == |cut| <= |body'| && cut == body'[..|cut|]
    ensures 8 * |cut| >= BodyBits(|payload|) && 8 * |body'[|payload|..]| >= 11 * w + 11
    ensures WordInBits(MsbBits(cut), |payload|, w) ==
            Chunk(MsbBits(body'[..|payload|]), w) + MsbBits(body'[|payload|..])[11 * w..11 * w + 11]
  {
    hide Chunk, NumTxBytes, NumWords, BodyBits, MsbBits, WordInBits;
    var n := |payload|;
    WordInBody(n, w);
    MsbBitsJoined(cut, body', n);
    WordOfJoined(MsbBits(body'[..n]), MsbBits(cut[n..]), MsbBits(body'[|cut|..]), n, w);
  }

  lemma MsbBitsJoined(cut: seq<bv8>, body': seq<bv8>, n: nat)
    requires n <= |cut| <= |body'| && cut == body'[..|cut|]
    ensures MsbBits(cut) == MsbBits(body'[..n]) + MsbBits(cut[n..])
    ensures MsbBits(body'[n..]) == MsbBits(cut[n..]) + MsbBits(body'[|cut|..])
  {
    hide MsbBits;
    assert cut == body'[..n] + cut[n..];
    assert body'[n..] == cut[n..] + body'[|cut|..];
    MsbBitsConcat(body'[..n], cut[n..]);
    MsbBitsConcat(cut[n..], body'[|cut|..]);
  }

  lemma WordOfJoined(x: seq<bool>, y: seq<bool>, z: seq<bool>, n: nat, w: nat)
    requires |x| == 8 * n > 12 * w && |x + y| >= BodyBits(n) && |y| >= 11 * w + 11
    ensures WordInBits(x + y, n, w) == Chunk(x, w) + (y + z)[11 * w..11 * w + 11]
  {
    hide Chunk, BodyBits, NumWords;
    assert (x + y)[..8 * n] == x;
    assert (x + y)[8 * n + 11 * w..8 * n + 11 * w + 11] == (y + z)[11 * w..11 * w + 11];
  }

  /** The packet survives: for every payload, in every configuration, if the channel flips at
      most three bits of each codeword then decoding returns the payload. */
  lemma PacketCorrected(config: Config, payload: seq<bv8>, received: seq<bool>, body': seq<bv8>)
    requires Recovered(config, |payload|, received, body')
    requires forall w: nat | 8 * |payload| > 12 * w ::
               FlippedBits(config, AirBits(config, payload), received, |payload|, w) <= 3
    ensures DecodedBody(body', |payload|) == payload
  {
    hide MsbBits, LsbBits, NumTxBytes, ErrorsInWord, FlippedBits, AirBits, FromAir, NumWords, Recovered;
    NumWordsCover(|payload|);
    forall w | 0 <= w < NumWords(|payload|)
      ensures 8 * |payload| > 12 * w && 8 * |body'[|payload|..]| >= 11 * w + 11
      ensures ErrorsInWord(MsbBits(payload), MsbBits(body'[..|payload|]), MsbBits(body'[|payload|..]), w) <= 3
    {
      ErrorsAreFlips(config, payload, received, body', w);
    }
    DecodedBodyCorrect(payload, body');
  }

  /** And only then, as far as full codewords go: four flipped bits in one of them always
      corrupt the payload. */
  lemma PacketCorruptedBeyond(config: Config, payload: seq<bv8>, received: seq<bool>, body': seq<bv8>, w: nat)
    requires Recovered(config, |payload|, received, body')
    requires 12 * w + 12 <= 8 * |payload|
    requires FlippedBits(config, AirBits(config, payload), received, |payload|, w) > 3
    ensures DecodedBody(body', |payload|) != payload
  {
    hide MsbBits, LsbBits, NumTxBytes, ErrorsInWord, FlippedBits, AirBits, FromAir, NumWords, Recovered;
    ErrorsAreFlips(config, payload, received, body', w);
    if DecodedBody(body', |payload|) == payload {
      DecodedBodyOnlyIf(payload, body', w);
    }
  }

  // ----- Horus Binary v2

  const PACKET_SIZE := 32
  const ENCODED_BUFFER_SIZE := 65

  /** The encoded buffer declared in horus.h is exactly large enough, the interleaver supports
      it, and decoding it stays inside it. */
  lemma PacketSizes(config: Config)
    ensures NumTxBytes(PACKET_SIZE) == ENCODED_BUFFER_SIZE == BytesRead(PACKET_SIZE)
    ensures Supported(config, PACKET_SIZE)
  {}

  /** A little-endian 16-bit field. */
  function FieldValue(low: bv8, high: bv8): bv16 {
    (low as bv16) | ((high as bv16) << 8)
  }

  function LowHalf(x: bv16): bv8 { (x & 0xFF) as bv8 }
  function HighHalf(x: bv16): bv8 { (x >> 8) as bv8 }

  lemma FieldRoundTrip(x: bv16)
    ensures FieldValue(LowHalf(x), HighHalf(x)) == x
  {}

  /** The stored checksum: a little-endian 16-bit field at the end of the packet. */
  function StoredChecksum(packet: seq<bv8>): bv16
    requires |packet| == PACKET_SIZE
  {
    FieldValue(packet[30], packet[31])
  }

  predicate ChecksumValid(packet: seq<bv8>)
    requires |packet| == PACKET_SIZE
  {
    StoredChecksum(packet) == Crc(packet[..30])
  }

  /** horusv2_encode: the checksum field is filled in, everything else in the packet is kept. */
  method HorusV2Encode(config: Config, packet: array<bv8>, output: array<bv8>)
    requires packet != output && packet.Length == PACKET_SIZE && output.Length == ENCODED_BUFFER_SIZE
    modifies packet, output
    ensures packet[..30] == old(packet[..30]) && ChecksumValid(packet[..])
    ensures LsbBits(output[2..]) == (PacketSizes(config); AirBits(config, packet[..]))
  {
    hide LsbBits, AirBits, Crc, NumTxBytes, Supported, BytesRead, LowHalf, HighHalf, FieldValue;
    PacketSizes(config);
    var checksum := GenCrc16(packet, 30);
    packet[30], packet[31] := LowHalf(checksum), HighHalf(checksum);
    FieldRoundTrip(checksum);
    assert packet[..][..30] == old(packet[..30]);
    var txBytes := EncodeTxPacket(config, output, packet, PACKET_SIZE);
    assert packet[..PACKET_SIZE] == packet[..];
    assert output[2..txBytes] == output[2..];
  }

  /** horusv2_checksum_verify */
  method HorusV2ChecksumVerify(packet: array<bv8>) returns (ok: bool)
    requires packet.Length == PACKET_SIZE
    ensures ok == ChecksumValid(packet[..])
  {
    hide Crc, FieldValue;
    var checksum := GenCrc16(packet, 30);
    assert packet[..][..30] == packet[..30];
    ok := checksum == FieldValue(packet[30], packet[31]);
  }

  /** horusv2_decode */
  method HorusV2Decode(config: Config, golay: Golay23, input: array<bv8>, packet: array<bv8>)
    requires golay.Valid() && golay.Apart(packet) && golay.Apart(input) && packet != input
    requires input.Length == ENCODED_BUFFER_SIZE && packet.Length == PACKET_SIZE
    modifies packet, input
    ensures Recovered(config, PACKET_SIZE, LsbBits(old(input[2..])), input[2..])
    ensures packet[..] == DecodedBody(input[2..], PACKET_SIZE)
  {
    hide LsbBits, DecodedBody, NumTxBytes, Supported, BytesRead, FromAir;
    PacketSizes(config);
    DecodeRxPacket(config, golay, packet, input, PACKET_SIZE);
    assert input[2..NumTxBytes(PACKET_SIZE)] == input[2..][..NumTxBytes(PACKET_SIZE) - 2];
    assert old(input[2..NumTxBytes(PACKET_SIZE)]) == old(input[2..]);
    assert packet[..PACKET_SIZE] == packet[..];
  }

  /** The link as a whole: whatever HorusV2Encode sends, HorusV2Decode delivers with a valid
      checksum if no codeword has more than three flipped bits. */
  lemma LinkDelivers(config: Config, packet: seq<bv8>, received: seq<bool>, body: seq<bv8>)
    requires |packet| == PACKET_SIZE && ChecksumValid(packet)
    requires Recovered(config, PACKET_SIZE, received, body)
    requires forall w: nat | w < 22 ::
               12 * w < 256 && FlippedBits(config, AirBits(config, packet), received, PACKET_SIZE, w) <= 3
    ensures DecodedBody(body, PACKET_SIZE) == packet && ChecksumValid(DecodedBody(body, PACKET_SIZE))
  {
    hide Recovered, FlippedBits, AirBits, DecodedBody, ChecksumValid;
    forall w: nat | 8 * |packet| > 12 * w
      ensures FlippedBits(config, AirBits(config, packet), received, |packet|, w) <= 3
    {
      assert w < 22;
    }
    PacketCorrected(config, packet, received, body);
  }

  /** A packet that is damaged in one place, by a burst of at most 16 bits in front of the
      checksum field, never passes for valid. */
  lemma DamageDetected(packet: seq<bv8>, damaged: seq<bv8>, k: nat)
    requires |packet| == |damaged| == PACKET_SIZE && ChecksumValid(packet)
    requires packet[30..] == damaged[30..] && packet != damaged
    requires forall i | 0 <= i < 240 && MsbBits(packet[..30])[i] != MsbBits(damaged[..30])[i] :: k <= i < k + 16
    ensures !ChecksumValid(damaged)
  {
    hide MsbBits, Crc, FieldValue;
    assert packet == packet[..30] + packet[30..] && damaged == damaged[..30] + damaged[30..];
    assert packet[30] == packet[30..][0] && packet[31] == packet[30..][1];
    assert damaged[30] == damaged[30..][0] && damaged[31] == damaged[30..][1];
    BurstDetected(packet[..30], damaged[..30], k);
  }
}
