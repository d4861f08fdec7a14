/** A packet's whole way: encoded, sent over a channel that flips bits, and decoded. */
module Channel {
  import opened GolayTables
  import opened Bytes
  import opened Words
  import opened HorusLayout
  import opened HorusCodec
  import opened Horus

  /** How many bits of a string are set. */
  function Ones(s: seq<bool>): nat {
    if s == [] then 0 else Ones(s[..|s| - 1]) + B(s[|s| - 1])
  }

  /** How many bits of the `w`-th codeword the noise hits, whatever the payload is. */
  ghost function Hits(config: Config, noise: seq<bv8>, payloadBytes: nat, w: nat): nat
    requires |noise| == NumTxBytes(payloadBytes) - 2 && 8 * payloadBytes > 12 * w
  {
    Ones(WordOnAir(config, LsbBits(noise), payloadBytes, w))
  }

  /** A byte that noise has gone over. */
  function Flip(a: bv8, b: bv8): bv8 {
    a ^ b
  }

  function Noisy(bytes: seq<bv8>, noise: seq<bv8>): (s: seq<bv8>)
    requires |bytes| == |noise|
    ensures |s| == |bytes| && forall i | 0 <= i < |s| :: s[i] == Flip(bytes[i], noise[i])
  {
    seq(|bytes|, i requires 0 <= i < |bytes| => Flip(bytes[i], noise[i]))
  }

  lemma FlipLowBits(a: bv8, b: bv8)
    ensures BitOf(Flip(a, b), 0) == (BitOf(a, 0) != BitOf(b, 0))
    ensures BitOf(Flip(a, b), 1) == (BitOf(a, 1) != BitOf(b, 1))
    ensures BitOf(Flip(a, b), 2) == (BitOf(a, 2) != BitOf(b, 2))
    ensures BitOf(Flip(a, b), 3) == (BitOf(a, 3) != BitOf(b, 3))
  {}

  lemma FlipHighBits(a: bv8, b: bv8)
    ensures BitOf(Flip(a, b), 4) == (BitOf(a, 4) != BitOf(b, 4))
    ensures BitOf(Flip(a, b), 5) == (BitOf(a, 5) != BitOf(b, 5))
    ensures BitOf(Flip(a, b), 6) == (BitOf(a, 6) != BitOf(b, 6))
    ensures BitOf(Flip(a, b), 7) == (BitOf(a, 7) != BitOf(b, 7))
  {}

  lemma XorBitOf(a: bv8, b: bv8, k: nat)
    requires k < 8
    ensures BitOf(Flip(a, b), k) == (BitOf(a, k) != BitOf(b, k))
  {
    hide BitOf, Flip;
    FlipLowBits(a, b);
    FlipHighBits(a, b);
  }

  lemma NoisyBits(bytes: seq<bv8>, noise: seq<bv8>, i: nat)
    requires |bytes| == |noise| && i < 8 * |bytes|
    ensures LsbBits(Noisy(bytes, noise))[i] == (LsbBits(bytes)[i] != LsbBits(noise)[i])
  {
    hide BitOf, Flip;
    XorBitOf(bytes[i / 8], noise[i / 8], i % 8);
  }

  lemma {:induction false} DistanceIsOnes(s: seq<bool>, t: seq<bool>, d: seq<bool>)
    requires |s| == |t| == |d| && forall i | 0 <= i < |s| :: s[i] == (t[i] != d[i])
    ensures Distance(s, t) == Ones(d)
  {
    if s != [] {
      var n := |s| - 1;
      DistanceIsOnes(s[..n], t[..n], d[..n]);
    }
  }

  /** Flips are hits. */
  lemma FlipsAreHits(config: Config, sent: seq<bv8>, noise: seq<bv8>, payloadBytes: nat, w: nat)
    requires |sent| == |noise| == NumTxBytes(payloadBytes) - 2 && 8 * payloadBytes > 12 * w
    ensures FlippedBits(config, LsbBits(sent), LsbBits(Noisy(sent, noise)), payloadBytes, w) ==
            Hits(config, noise, payloadBytes, w)
  {
    hide LsbBits, Noisy, NumTxBytes, AirPosition, BodyBits;
    var received := LsbBits(Noisy(sent, noise));
    var positions := WordPositions(payloadBytes, w);
    var s, t := WordOnAir(config, received, payloadBytes, w), WordOnAir(config, LsbBits(sent), payloadBytes, w);
    var d := WordOnAir(config, LsbBits(noise), payloadBytes, w);
    forall i | 0 <= i < |s|
      ensures s[i] == (t[i] != d[i])
    {
      WordInBody(payloadBytes, w);
      NoisyBits(sent, noise, AirPosition(config, |received|, positions[i]));
    }
    DistanceIsOnes(s, t, d);
  }

  /** The channel: every byte behind the unique word is disturbed. */
  method Disturb(air: array<bv8>, noise: array<bv8>, n: nat)
    requires air != noise && 2 <= n <= air.Length && n <= noise.Length
    modifies air
    ensures air[2..n] == Noisy(old(air[2..n]), noise[2..n])
    ensures forall k | 0 <= k < 2 || n <= k < air.Length :: air[k] == old(air[k])
  {
    hide Flip;
    for i := 2 to n
      invariant forall k | 2 <= k < i :: air[k] == Flip(old(air[k]), noise[k])
      invariant forall k | 0 <= k < 2 || i <= k < air.Length :: air[k] == old(air[k])
    {
      air[i] := Flip(air[i], noise[i]);
    }
    assert air[2..n] == Noisy(old(air[2..n]), noise[2..n]);
  }

  /** If the noise hits no codeword more than three times, the payload arrives: for every payload, every
      length and every configuration. */
  method Transmit(config: Config, golay: Golay23, input: array<bv8>, payloadBytes: nat, noise: array<bv8>,
                  output: array<bv8>)
    requires golay.Valid() && golay.Apart(output) && output != input && output != noise
    requires payloadBytes <= input.Length && payloadBytes <= output.Length && NumTxBytes(payloadBytes) <= noise.Length
    requires Supported(config, payloadBytes)
    requires forall w: nat | 8 * payloadBytes > 12 * w ::
               Hits(config, noise[2..NumTxBytes(payloadBytes)], payloadBytes, w) <= 3
    modifies output
    ensures output[..payloadBytes] == input[..payloadBytes]
    ensures forall k | payloadBytes <= k < output.Length :: output[k] == old(output[k])
  {
    hide NumTxBytes, BytesRead, LsbBits, AirBits, DecodedBody, FromAir, Supported, Hits, FlippedBits, golay.Valid;
    var n := GetNumTxDataBytes(payloadBytes);
    ReadsBeyondPacket(payloadBytes);
    var air := new bv8[n + 1];
    ghost var payload := input[..payloadBytes];
    n := EncodeTxPacket(config, air, input, payloadBytes);
    ghost var sent := air[2..n];
    Disturb(air, noise, n);
    ghost var received := LsbBits(air[2..n]);
    forall w: nat | 8 * payloadBytes > 12 * w
      ensures FlippedBits(config, AirBits(config, payload), received, payloadBytes, w) <= 3
    {
      FlipsAreHits(config, sent, noise[2..n], payloadBytes, w);
    }
    DecodeRxPacket(config, golay, output, air, payloadBytes);
    ClearedIsRecovered(config, received, air[2..], payloadBytes, sent, noise[2..n], air[2..n]);
    PacketCorrected(config, payload, received, air[2..]);
  }

  lemma ClearedIsRecovered(config: Config, received: seq<bool>, body: seq<bv8>, payloadBytes: nat, sent: seq<bv8>,
                           noise: seq<bv8>, cleared: seq<bv8>)
    requires Supported(config, payloadBytes) && NumTxBytes(payloadBytes) - 2 == |sent| == |noise| <= |body|
    requires cleared == body[..NumTxBytes(payloadBytes) - 2] && received == LsbBits(Noisy(sent, noise))
    requires Cleared(config, Noisy(sent, noise), cleared)
    ensures Recovered(config, payloadBytes, received, body)
  {
    hide LsbBits, NumTxBytes, FromAir, Noisy;
  }
}
