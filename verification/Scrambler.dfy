/** The additive scrambler of horus.c: every bit of a buffer is xor-ed with the output of a
    15-bit shift register that starts at 0x4a80 for every packet. */
module Scrambler {
  import opened Bytes

  const SEED: bv16 := 0x4a80

  /** `scrambler_out` */
  function Output(s: bv16): bv16 {
    ((s & 2) >> 1) ^ (s & 1)
  }

  function Next(s: bv16): bv16 {
    (s >> 1) | (Output(s) << 14)
  }

  /** State of the register after `t` bits. It does not depend on the data. */
  function State(t: nat): bv16 {
    if t == 0 then SEED else Next(State(t - 1))
  }

  predicate Keystream(t: nat) {
    Output(State(t)) == 1
  }

  lemma NextNonzero(s: bv16)
    requires 0 < s < 0x8000
    ensures 0 < Next(s) < 0x8000
    ensures Output(s) == 0 || Output(s) == 1
  {}

  /** The register never gets stuck at zero, and its top bit is never set. */
  lemma {:induction false} StateNonzero(t: nat)
    ensures 0 < State(t) < 0x8000
  {
    if t > 0 {
      StateNonzero(t - 1);
      NextNonzero(State(t - 1));
    }
  }

  function After(s: bv16, n: nat): bv16 {
    if n == 0 then s else Next(After(s, n - 1))
  }

  lemma {:induction false} StateAfter(t: nat, n: nat)
    ensures State(t + n) == After(State(t), n)
  {
    if n > 0 {
      StateAfter(t, n - 1);
    }
  }

  /** A bit that is fed back reaches the two taps after fourteen and fifteen steps. */
  lemma FeedbackReturns(s: bv16)
    requires s < 0x8000
    ensures ((After(s, 14) & 2) >> 1) == Output(s)
    ensures After(s, 15) & 1 == Output(s)
  {
    var s1 := Next(s);    var s2 := Next(s1);    var s3 := Next(s2);    var s4 := Next(s3);    var s5 := Next(s4);
    var s6 := Next(s5);   var s7 := Next(s6);    var s8 := Next(s7);    var s9 := Next(s8);    var s10 := Next(s9);
    var s11 := Next(s10); var s12 := Next(s11);  var s13 := Next(s12);  var s14 := Next(s13);  var s15 := Next(s14);
    assert After(s, 1) == s1 by { assert After(s, 0) == s; }
    assert After(s, 2) == s2;
    assert After(s, 3) == s3;
    assert After(s, 4) == s4;
    assert After(s, 5) == s5;
    assert After(s, 6) == s6;
    assert After(s, 7) == s7;
    assert After(s, 8) == s8;
    assert After(s, 9) == s9;
    assert After(s, 10) == s10;
    assert After(s, 11) == s11;
    assert After(s, 12) == s12;
    assert After(s, 13) == s13;
    assert After(s, 14) == s14;
    assert After(s, 15) == s15;
  }

  /** The keystream is the linear recurrence with taps 14 and 15. */
  lemma KeystreamRecurrence(t: nat)
    requires t >= 15
    ensures Keystream(t) == (Keystream(t - 14) != Keystream(t - 15))
  {
    StateNonzero(t - 14);
    StateNonzero(t - 15);
    StateAfter(t - 14, 14);
    StateAfter(t - 15, 15);
    FeedbackReturns(State(t - 14));
    FeedbackReturns(State(t - 15));
    TapsSum(State(t), State(t - 14), State(t - 15));
  }

  lemma TapsSum(s: bv16, a: bv16, b: bv16)
    requires ((s & 2) >> 1) == Output(a) && s & 1 == Output(b)
    requires 0 < a < 0x8000 && 0 < b < 0x8000
    ensures (Output(s) == 1) == ((Output(a) == 1) != (Output(b) == 1))
  {}

  function Scrambled(bits: seq<bool>): (s: seq<bool>)
    ensures |s| == |bits|
    ensures forall i | 0 <= i < |bits| :: s[i] == (bits[i] != Keystream(i))
  {
    seq(|bits|, i requires 0 <= i < |bits| => bits[i] != Keystream(i))
  }

  /** The keystream without the register: fifteen bits to start with, then the recurrence. */
  function Stream(t: nat): bool {
    if t < 6 || t == 12 then false
    else if t < 15 then true
    else Stream(t - 14) != Stream(t - 15)
  }

  lemma RegisterStep(s: bv16, next: bv16, t: nat)
    requires State(t) == s && next == Next(s)
    ensures State(t + 1) == next && (Keystream(t) <==> Output(s) == 1)
  {}

  lemma FirstBits(t: nat)
    requires t < 15
    ensures Keystream(t) == Stream(t)
  {
    hide State;
    Start();
    RegisterStep(0x4a80, 0x2540, 0);
    RegisterStep(0x2540, 0x12a0, 1);
    RegisterStep(0x12a0, 0x0950, 2);
    RegisterStep(0x0950, 0x04a8, 3);
    RegisterStep(0x04a8, 0x0254, 4);
    RegisterStep(0x0254, 0x012a, 5);
    RegisterStep(0x012a, 0x4095, 6);
    RegisterStep(0x4095, 0x604a, 7);
    RegisterStep(0x604a, 0x7025, 8);
    RegisterStep(0x7025, 0x7812, 9);
    RegisterStep(0x7812, 0x7c09, 10);
    RegisterStep(0x7c09, 0x7e04, 11);
    RegisterStep(0x7e04, 0x3f02, 12);
    RegisterStep(0x3f02, 0x5f81, 13);
    RegisterStep(0x5f81, 0x6fc0, 14);
  }

  lemma Start()
    ensures State(0) == 0x4a80
  {}

  lemma {:induction false} KeystreamIsStream(t: nat)
    ensures Keystream(t) == Stream(t)
  {
    hide Keystream;
    if t < 15 {
      FirstBits(t);
    } else {
      KeystreamRecurrence(t);
      KeystreamIsStream(t - 14);
      KeystreamIsStream(t - 15);
    }
  }

  /** So this is what scrambling does to every bit, on buffers of every length. */
  lemma ScrambledIs(bits: seq<bool>, i: nat)
    requires i < |bits|
    ensures Scrambled(bits)[i] == (bits[i] != Stream(i))
  {
    hide Keystream, Stream;
    KeystreamIsStream(i);
  }

  /** In particular, nothing but zeros becomes 0,0,0,0,0,0,1,1,1,1,1,1,0,1,1 and so on. */
  lemma ZerosScrambled(bits: seq<bool>)
    requires |bits| >= 15 && true !in bits
    ensures Scrambled(bits)[..15] ==
            [false, false, false, false, false, false, true, true, true, true, true, true, false, true, true]
  {
    hide Scrambled;
    forall i | 0 <= i < 15
      ensures Scrambled(bits)[i] == Stream(i)
    {
      ScrambledIs(bits, i);
    }
  }

  /** Scrambling twice gives the bits back. */
  lemma ScrambleTwice(bits: seq<bool>)
    ensures Scrambled(Scrambled(bits)) == bits
  {
    hide Keystream;
    assert forall i | 0 <= i < |bits| :: Scrambled(Scrambled(bits))[i] == bits[i];
  }

  /** The C statements `x &= ~(1 << k); x |= bit << k`. */
  function PutBit(x: bv8, bit: bool, k: nat): bv8
    requires k < 8
  {
    (x & !(1 << k)) | ((if bit then 1 else 0) << k)
  }

  lemma PutBitMasks(x: bv8, bit: bool, k: nat)
    requires k < 8
    ensures (PutBit(x, bit, k) & 1 != 0) == (if k == 0 then bit else x & 1 != 0)
    ensures (PutBit(x, bit, k) & 2 != 0) == (if k == 1 then bit else x & 2 != 0)
    ensures (PutBit(x, bit, k) & 4 != 0) == (if k == 2 then bit else x & 4 != 0)
    ensures (PutBit(x, bit, k) & 8 != 0) == (if k == 3 then bit else x & 8 != 0)
    ensures (PutBit(x, bit, k) & 16 != 0) == (if k == 4 then bit else x & 16 != 0)
    ensures (PutBit(x, bit, k) & 32 != 0) == (if k == 5 then bit else x & 32 != 0)
    ensures (PutBit(x, bit, k) & 64 != 0) == (if k == 6 then bit else x & 64 != 0)
    ensures (PutBit(x, bit, k) & 128 != 0) == (if k == 7 then bit else x & 128 != 0)
  {
    assert k == 0 || k == 1 || k == 2 || k == 3 || k == 4 || k == 5 || k == 6 || k == 7;
  }

  lemma PutBitOf(x: bv8, bit: bool, k: nat, m: nat)
    requires k < 8 && m < 8
    ensures BitOf(PutBit(x, bit, k), m) == if m == k then bit else BitOf(x, m)
  {
    hide PutBit, BitOf;
    PutBitMasks(x, bit, k);
    BitOfIs(x);
    BitOfIs(PutBit(x, bit, k));
    assert m == 0 || m == 1 || m == 2 || m == 3 || m == 4 || m == 5 || m == 6 || m == 7;
  }

  /** The first `i` bits of the buffer are scrambled, the rest are as they were. */
  ghost predicate ScrambledUpTo(buf: seq<bv8>, bits: seq<bool>, i: nat)
    requires |bits| == 8 * |buf|
  {
    forall q: nat | q < |bits| ::
      BitOf(buf[q / 8], q % 8) == if q < i then bits[q] != Keystream(q) else bits[q]
  }

  lemma ScrambleStep(buf: seq<bv8>, bits: seq<bool>, i: nat)
    requires |bits| == 8 * |buf| && i < |bits| && ScrambledUpTo(buf, bits, i)
    ensures ScrambledUpTo(buf[i / 8 := PutBit(buf[i / 8], BitOf(buf[i / 8], i % 8) != Keystream(i), i % 8)],
                          bits, i + 1)
  {
    hide PutBit, BitOf, Keystream;
    var x := BitOf(buf[i / 8], i % 8) != Keystream(i);
    var next := buf[i / 8 := PutBit(buf[i / 8], x, i % 8)];
    forall q: nat | q < |bits|
      ensures BitOf(next[q / 8], q % 8) == if q < i + 1 then bits[q] != Keystream(q) else bits[q]
    {
      if q / 8 == i / 8 {
        PutBitOf(buf[i / 8], x, i % 8, q % 8);
        assert q % 8 == i % 8 ==> q == i;
      }
    }
  }

  lemma ScrambleEnd(buf: seq<bv8>, bits: seq<bool>)
    requires |bits| == 8 * |buf| && ScrambledUpTo(buf, bits, |bits|)
    ensures LsbBits(buf) == Scrambled(bits)
  {
    hide BitOf, Keystream;
    forall q | 0 <= q < |bits|
      ensures LsbBits(buf)[q] == Scrambled(bits)[q]
    {
      assert LsbBits(buf)[q] == BitOf(buf[q / 8], q % 8);
    }
  }

  /** `scramble` on the `nbytes` bytes from `off` on, in place. */
  method Scramble(inout: array<bv8>, off: nat, nbytes: nat)
    requires off + nbytes <= inout.Length
    modifies inout
    ensures LsbBits(inout[off..off + nbytes]) == Scrambled(LsbBits(old(inout[off..off + nbytes])))
    ensures forall k | 0 <= k < off || off + nbytes <= k < inout.Length :: inout[k] == old(inout[k])
  {
    hide PutBit, BitOf, Output, ScrambledUpTo, Next;
    ghost var bits := LsbBits(inout[off..off + nbytes]);
    var nbits := nbytes * 8;
    var scrambler: bv16 := SEED;
    ScrambleStart(inout[off..off + nbytes], bits);
    for i := 0 to nbits
      invariant scrambler == State(i)
      invariant ScrambledUpTo(inout[off..off + nbytes], bits, i)
      invariant forall k | 0 <= k < off || off + nbytes <= k < inout.Length :: inout[k] == old(inout[k])
    {
      ghost var buf := inout[off..off + nbytes];
      ScrambleStep(buf, bits, i);
      var scramblerOut := Output(scrambler);
      var ibyte, ishift := i / 8, i % 8;
      var ibit := BitOf(inout[off + ibyte], ishift);
      inout[off + ibyte] := PutBit(inout[off + ibyte], ibit != (scramblerOut == 1), ishift);
      assert inout[off..off + nbytes] == buf[ibyte := PutBit(buf[ibyte], ibit != Keystream(i), ishift)];
      scrambler := Next(scrambler);
    }
    ScrambleEnd(inout[off..off + nbytes], bits);
  }

  lemma ScrambleStart(buf: seq<bv8>, bits: seq<bool>)
    requires bits == LsbBits(buf)
    ensures ScrambledUpTo(buf, bits, 0)
  {}
}
