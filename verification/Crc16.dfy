/** `gen_crc16` of horus.c: CRC-16 with polynomial x^16 + x^12 + x^5 + 1 and initial value
    0xFFFF, computed a byte at a time. */
module Crc16 {
  import opened Bytes

  const INITIAL: bv16 := 0xFFFF

  function UpperByte(crc: bv16): bv8 { (crc >> 8) as bv8 }

  /** The terms that the upper byte and the message byte decide. */
  function Fold(x: bv8): bv16 {
    var y: bv8 := x ^ (x >> 4);
    ((y as bv16) << 12) ^ ((y as bv16) << 5) ^ (y as bv16)
  }

  /** The loop body of gen_crc16. */
  function ByteStep(crc: bv16, byte: bv8): bv16 {
    (crc << 8) ^ Fold(UpperByte(crc) ^ byte)
  }

  function Crc(message: seq<bv8>): bv16 {
    if message == [] then INITIAL else ByteStep(Crc(message[..|message| - 1]), message[|message| - 1])
  }

  method GenCrc16(data: array<bv8>, length: nat) returns (crc: bv16)
    requires length <= data.Length && length < 256
    ensures crc == Crc(data[..length])
  {
    hide ByteStep;
    crc := 0xFFFF;
    for i := 0 to length
      invariant crc == Crc(data[..i])
    {
      assert data[..i + 1][..i] == data[..i];
      crc := ByteStep(crc, data[i]);
    }
  }

  // ----- the check value

  /** The characters 1 to 9, for which check values are published. */
  const CHECKED: seq<bv8> := [0x31, 0x32, 0x33, 0x34, 0x35, 0x36, 0x37, 0x38, 0x39]

  lemma CheckStep(m: seq<bv8>, byte: bv8, crc: bv16, next: bv16)
    requires Crc(m) == crc && next == ByteStep(crc, byte)
    ensures Crc(m + [byte]) == next
  {
    assert (m + [byte])[..|m|] == m;
  }

  /** CRC-16 with this polynomial and initial value, not reflected and not inverted, gives 0x29B1. */
  lemma CheckValue()
    ensures Crc([]) == 0xFFFF
    ensures Crc(CHECKED) == 0x29B1
  {
    assert CHECKED[..0] == [] && CHECKED[..9] == CHECKED;
    CheckStep(CHECKED[..0], CHECKED[0], 0xffff, 0xc782);
    assert CHECKED[..1] == CHECKED[..0] + [CHECKED[0]];
    CheckStep(CHECKED[..1], CHECKED[1], 0xc782, 0x3dba);
    assert CHECKED[..2] == CHECKED[..1] + [CHECKED[1]];
    CheckStep(CHECKED[..2], CHECKED[2], 0x3dba, 0x5bce);
    assert CHECKED[..3] == CHECKED[..2] + [CHECKED[2]];
    CheckStep(CHECKED[..3], CHECKED[3], 0x5bce, 0x5349);
    assert CHECKED[..4] == CHECKED[..3] + [CHECKED[3]];
    CheckStep(CHECKED[..4], CHECKED[4], 0x5349, 0x4560);
    assert CHECKED[..5] == CHECKED[..4] + [CHECKED[4]];
    CheckStep(CHECKED[..5], CHECKED[5], 0x4560, 0x2ef4);
    assert CHECKED[..6] == CHECKED[..5] + [CHECKED[5]];
    CheckStep(CHECKED[..6], CHECKED[6], 0x2ef4, 0x7718);
    assert CHECKED[..7] == CHECKED[..6] + [CHECKED[6]];
    CheckStep(CHECKED[..7], CHECKED[7], 0x7718, 0xa12b);
    assert CHECKED[..8] == CHECKED[..7] + [CHECKED[7]];
    CheckStep(CHECKED[..8], CHECKED[8], 0xa12b, 0x29b1);
    assert CHECKED[..9] == CHECKED[..8] + [CHECKED[8]];
  }

  // ----- the byte-wise formula is division by the polynomial, one bit at a time

  /** Addition of polynomials. */
  function Plus(a: bv16, b: bv16): bv16 { a ^ b }

  /** A message bit at the highest coefficient. */
  function Top(bit: bool): bv16 { if bit then 0x8000 else 0 }

  /** Shift the register; subtract the polynomial if a one falls out. */
  function Shift(s: bv16): bv16 {
    (s << 1) ^ ((0 - (s >> 15)) & 0x1021)
  }

  /** Division step: the next message bit is added to the highest coefficient. */
  function BitStep(crc: bv16, bit: bool): bv16 {
    Shift(Plus(crc, Top(bit)))
  }

  /** Remainder after dividing further message bits. */
  function Divide(crc: bv16, bits: seq<bool>): bv16 {
    if bits == [] then crc else BitStep(Divide(crc, bits[..|bits| - 1]), bits[|bits| - 1])
  }

  lemma PlusIs(a: bv16, b: bv16)
    ensures Plus(a, b) == a ^ b
  {}

  lemma ShiftXor(s: bv16, t: bv16)
    ensures Shift(s ^ t) == Shift(s) ^ Shift(t)
  {}

  lemma ShiftPlus(s: bv16, t: bv16)
    ensures Shift(Plus(s, t)) == Plus(Shift(s), Shift(t))
  {
    hide Shift, Plus;
    PlusIs(s, t);
    PlusIs(Shift(s), Shift(t));
    ShiftXor(s, t);
  }

  function Shift2(s: bv16): bv16 { Shift(Shift(s)) }
  function Shift4(s: bv16): bv16 { Shift2(Shift2(s)) }
  function Shift8(s: bv16): bv16 { Shift4(Shift4(s)) }

  lemma Shift8Plus(s: bv16, t: bv16)
    ensures Shift8(Plus(s, t)) == Plus(Shift8(s), Shift8(t))
  {
    hide Shift, Plus;
    ShiftPlus(s, t);
    ShiftPlus(Shift(s), Shift(t));
    ShiftPlus(Shift2(s), Shift2(t));
    ShiftPlus(Shift(Shift2(s)), Shift(Shift2(t)));
    ShiftPlus(Shift4(s), Shift4(t));
    ShiftPlus(Shift(Shift4(s)), Shift(Shift4(t)));
    ShiftPlus(Shift2(Shift4(s)), Shift2(Shift4(t)));
    ShiftPlus(Shift(Shift2(Shift4(s))), Shift(Shift2(Shift4(t))));
  }

  /** A byte in the high half of the register. */
  function High(byte: bv8): bv16 { (byte as bv16) << 8 }

  function LowerByte(crc: bv16): bv16 { crc & 0xFF }

  lemma Shift8High(x: bv8)
    ensures Shift8(High(x)) == Fold(x)
  {}

  lemma Shift8Low(crc: bv16)
    ensures Shift8(LowerByte(crc)) == LowerByte(crc) << 8 == crc << 8
  {}

  lemma HighIs(byte: bv8)
    ensures High(byte) == (byte as bv16) << 8
  {}

  lemma HalvesAre(crc: bv16)
    ensures UpperByte(crc) == (crc >> 8) as bv8 && LowerByte(crc) == crc & 0xFF
  {}

  lemma XorSplit(crc: bv16, byte: bv8)
    ensures crc ^ ((byte as bv16) << 8) == (((((crc >> 8) as bv8) ^ byte) as bv16) << 8) ^ (crc & 0xFF)
  {}

  lemma LoadSplit(crc: bv16, byte: bv8)
    ensures Plus(crc, High(byte)) == Plus(High(UpperByte(crc) ^ byte), LowerByte(crc))
  {
    hide *;
    HighIs(byte);
    HighIs(UpperByte(crc) ^ byte);
    HalvesAre(crc);
    PlusIs(crc, High(byte));
    PlusIs(High(UpperByte(crc) ^ byte), LowerByte(crc));
    XorSplit(crc, byte);
  }

  lemma ByteStepSplit(crc: bv16, byte: bv8)
    ensures ByteStep(crc, byte) == Plus(Fold(UpperByte(crc) ^ byte), crc << 8)
  {
    hide Fold, UpperByte;
    PlusIs(Fold(UpperByte(crc) ^ byte), crc << 8);
  }

  /** The byte formula shifts the whole byte out at once. */
  lemma ByteIsShift8(crc: bv16, byte: bv8)
    ensures ByteStep(crc, byte) == Shift8(Plus(crc, High(byte)))
  {
    hide Shift8, ByteStep, Plus, High, UpperByte, LowerByte;
    LoadSplit(crc, byte);
    ByteStepSplit(crc, byte);
    Shift8Plus(High(UpperByte(crc) ^ byte), LowerByte(crc));
    Shift8High(UpperByte(crc) ^ byte);
    Shift8Low(crc);
  }

  function First(byte: bv8): bool { byte & 128 != 0 }
  function Up(byte: bv8): bv8 { byte << 1 }

  /** The message bit on top, and the bits behind it. */
  lemma FirstBitApart(crc: bv16, byte: bv8)
    ensures Plus(crc, High(byte)) == Plus(Plus(crc, Top(First(byte))), High(byte & 127))
  {
    hide *;
    HighIs(byte);
    HighIs(byte & 127);
    TopIs(byte);
    PlusIs(crc, High(byte));
    PlusIs(crc, Top(First(byte)));
    PlusIs(crc ^ Top(First(byte)), High(byte & 127));
    XorFirst(crc, byte);
  }

  lemma TopIs(byte: bv8)
    ensures Top(First(byte)) == if byte & 128 != 0 then 0x8000 else 0
  {}

  lemma XorFirst(crc: bv16, byte: bv8)
    ensures crc ^ ((byte as bv16) << 8) ==
            (crc ^ (if byte & 128 != 0 then 0x8000 else 0)) ^ (((byte & 127) as bv16) << 8)
  {}

  lemma ShiftBehind(byte: bv8)
    ensures Shift(High(byte & 127)) == High(Up(byte))
  {}

  /** One division step takes one bit of the byte; the bits behind it move up. */
  lemma BitOfByte(crc: bv16, byte: bv8)
    ensures Shift(Plus(crc, High(byte))) == Plus(BitStep(crc, First(byte)), High(Up(byte)))
  {
    hide Shift, Plus, High, First, Up, Top;
    FirstBitApart(crc, byte);
    ShiftPlus(Plus(crc, Top(First(byte))), High(byte & 127));
    ShiftBehind(byte);
  }

  lemma ByteBitsInOrder(byte: bv8)
    ensures First(byte) == BitOf(byte, 7) && First(Up(byte)) == BitOf(byte, 6)
    ensures First(Up(Up(byte))) == BitOf(byte, 5) && First(Up(Up(Up(byte)))) == BitOf(byte, 4)
    ensures First(Up(Up(Up(Up(byte))))) == BitOf(byte, 3) && First(Up(Up(Up(Up(Up(byte)))))) == BitOf(byte, 2)
    ensures First(Up(Up(Up(Up(Up(Up(byte))))))) == BitOf(byte, 1)
    ensures First(Up(Up(Up(Up(Up(Up(Up(byte)))))))) == BitOf(byte, 0)
    ensures Up(Up(Up(Up(Up(Up(Up(Up(byte)))))))) == 0
  {}

  lemma PlusNothing(crc: bv16)
    ensures Plus(crc, High(0)) == crc
  {}

  lemma ByteIsEightBits(crc: bv16, byte: bv8)
    ensures ByteStep(crc, byte) == Divide(crc, MsbBits([byte]))
  {
    hide Shift, BitStep, ByteStep, MsbBits, BitOf, Plus, High, First, Up;
    ByteIsShift8(crc, byte);
    var a1, c1 := Up(byte), BitStep(crc, First(byte));
    var a2, c2 := Up(a1), BitStep(c1, First(a1));
    var a3, c3 := Up(a2), BitStep(c2, First(a2));
    var a4, c4 := Up(a3), BitStep(c3, First(a3));
    var a5, c5 := Up(a4), BitStep(c4, First(a4));
    var a6, c6 := Up(a5), BitStep(c5, First(a5));
    var a7, c7 := Up(a6), BitStep(c6, First(a6));
    BitOfByte(crc, byte);
    BitOfByte(c1, a1);
    BitOfByte(c2, a2);
    BitOfByte(c3, a3);
    BitOfByte(c4, a4);
    BitOfByte(c5, a5);
    BitOfByte(c6, a6);
    BitOfByte(c7, a7);
    ByteBitsInOrder(byte);
    PlusNothing(BitStep(c7, First(a7)));
    DivideEight(crc, MsbBits([byte]));
  }

  lemma DivideFour(crc: bv16, bits: seq<bool>)
    requires |bits| == 4
    ensures Divide(crc, bits) == BitStep(BitStep(BitStep(BitStep(crc, bits[0]), bits[1]), bits[2]), bits[3])
  {
    hide BitStep;
    DivideSteps(crc, bits, 3);
    DivideSteps(crc, bits, 2);
    DivideSteps(crc, bits, 1);
    DivideSteps(crc, bits, 0);
    assert bits[..4] == bits && bits[..0] == [];
    assert Divide(crc, []) == crc;
  }

  lemma DivideSteps(crc: bv16, bits: seq<bool>, i: nat)
    requires i < |bits|
    ensures Divide(crc, bits[..i + 1]) == BitStep(Divide(crc, bits[..i]), bits[i])
  {
    hide BitStep;
    assert bits[..i + 1] == bits[..i] + [bits[i]];
    DivideAppend(crc, bits[..i], bits[i]);
  }

  lemma DivideEight(crc: bv16, bits: seq<bool>)
    requires |bits| == 8
    ensures Divide(crc, bits) ==
            BitStep(BitStep(BitStep(BitStep(BitStep(BitStep(BitStep(BitStep(crc, bits[0]), bits[1]), bits[2]), bits[3]),
              bits[4]), bits[5]), bits[6]), bits[7])
  {
    hide BitStep, Divide;
    var s, t := bits[..4], bits[4..];
    assert bits == s + t;
    DivideConcat(crc, s, t);
    DivideFour(crc, s);
    DivideFour(Divide(crc, s), t);
  }

  /** gen_crc16 is the remainder of the message bits, for every message. */
  lemma {:induction false} CrcIsDivision(message: seq<bv8>)
    ensures Crc(message) == Divide(INITIAL, MsbBits(message))
  {
    hide ByteStep, MsbBits;
    if message != [] {
      var m, b := message[..|message| - 1], message[|message| - 1];
      CrcIsDivision(m);
      assert message == m + [b];
      MsbBitsConcat(m, [b]);
      DivideConcat(INITIAL, MsbBits(m), MsbBits([b]));
      ByteIsEightBits(Crc(m), b);
    }
  }

  lemma DivideAppend(crc: bv16, bits: seq<bool>, bit: bool)
    ensures Divide(crc, bits + [bit]) == BitStep(Divide(crc, bits), bit)
  {
    assert (bits + [bit])[..|bits|] == bits;
  }

  lemma {:induction false} DivideConcat(crc: bv16, s: seq<bool>, t: seq<bool>)
    ensures Divide(crc, s + t) == Divide(Divide(crc, s), t)
  {
    if t == [] {
      assert s + t == s;
    } else {
      var t', b := t[..|t| - 1], t[|t| - 1];
      assert s + t == (s + t') + [b];
      DivideAppend(crc, s + t', b);
      DivideConcat(crc, s, t');
    }
  }

  // ----- burst errors

  /** Where two bit strings differ. */
  function Differ(u: seq<bool>, v: seq<bool>): (d: seq<bool>)
    requires |u| == |v|
    ensures |d| == |u| && forall i | 0 <= i < |u| :: d[i] == (u[i] != v[i])
  {
    seq(|u|, i requires 0 <= i < |u| => u[i] != v[i])
  }

  lemma PlusComm(a: bv16, b: bv16)
    ensures Plus(a, b) == Plus(b, a)
  {}

  lemma PlusAssoc(a: bv16, b: bv16, c: bv16)
    ensures Plus(Plus(a, b), c) == Plus(a, Plus(b, c))
  {
    assert Plus(a, b) == a ^ b && Plus(b, c) == b ^ c;
    assert Plus(a ^ b, c) == (a ^ b) ^ c && Plus(a, b ^ c) == a ^ (b ^ c);
    assert (a ^ b) ^ c == a ^ (b ^ c);
  }

  lemma PlusSwap(s: bv16, t: bv16, x: bv16, y: bv16)
    ensures Plus(Plus(s, t), Plus(x, y)) == Plus(Plus(s, x), Plus(t, y))
  {
    hide Plus;
    PlusAssoc(s, t, Plus(x, y));
    PlusAssoc(t, x, y);
    PlusComm(t, x);
    PlusAssoc(x, t, y);
    PlusAssoc(s, x, Plus(t, y));
  }

  lemma TopPlus(a: bool, b: bool)
    ensures Top(a != b) == Plus(Top(a), Top(b))
  {}

  lemma BitStepPlus(s: bv16, t: bv16, a: bool, b: bool)
    ensures BitStep(Plus(s, t), a != b) == Plus(BitStep(s, a), BitStep(t, b))
  {
    hide Shift, Plus, Top;
    TopPlus(a, b);
    PlusSwap(s, t, Top(a), Top(b));
    ShiftPlus(Plus(s, Top(a)), Plus(t, Top(b)));
  }

  /** Division is linear: remainders of two messages differ by the remainder of the difference. */
  lemma {:induction false} DividePlus(s: bv16, t: bv16, u: seq<bool>, v: seq<bool>)
    requires |u| == |v|
    ensures Divide(Plus(s, t), Differ(u, v)) == Plus(Divide(s, u), Divide(t, v))
  {
    hide BitStep, Plus;
    if u != [] {
      var n := |u| - 1;
      DividePlus(s, t, u[..n], v[..n]);
      BitStepPlus(Divide(s, u[..n]), Divide(t, v[..n]), u[n], v[n]);
      assert Differ(u, v) == Differ(u[..n], v[..n]) + [u[n] != v[n]];
      DivideAppend(Plus(s, t), Differ(u[..n], v[..n]), u[n] != v[n]);
    }
  }

  lemma ShiftZero(s: bv16)
    ensures Shift(s) == 0 <==> s == 0
    ensures Plus(s, Top(false)) == s
  {}

  /** If no one falls out, a step only shifts. */
  lemma EvenStep(s: bv16, b: bool)
    ensures BitStep(s, b) & 1 == 0 ==> BitStep(s, b) == s << 1
  {}

  lemma {:induction false} DivideZeros(s: bv16, bits: seq<bool>)
    requires true !in bits
    ensures Divide(s, bits) == 0 <==> s == 0
  {
    hide Shift, Plus, Top;
    if bits != [] {
      var n := |bits| - 1;
      DivideZeros(s, bits[..n]);
      assert !bits[n];
      ShiftZero(Divide(s, bits[..n]));
    }
  }

  lemma OddSurvives(s: bv16, j: nat)
    requires j <= 15 && s & 1 == 1
    ensures s << j != 0
  {
    assert j == 0 || j == 1 || j == 2 || j == 3 || j == 4 || j == 5 || j == 6 || j == 7 ||
           j == 8 || j == 9 || j == 10 || j == 11 || j == 12 || j == 13 || j == 14 || j == 15;
  }

  lemma ShiftOnce(s: bv16, j: nat)
    requires 1 <= j <= 16
    ensures (s << 1) << (j - 1) == s << j
  {
    assert j == 1 || j == 2 || j == 3 || j == 4 || j == 5 || j == 6 || j == 7 || j == 8 ||
           j == 9 || j == 10 || j == 11 || j == 12 || j == 13 || j == 14 || j == 15 || j == 16;
  }

  lemma EvenOrOdd(s: bv16)
    ensures s & 1 == 0 || s & 1 == 1
    ensures s << 0 == s
  {}

  lemma StepBack(s: bv16, b: bool, j: nat)
    requires 1 <= j <= 16 && BitStep(s, b) << (j - 1) == 0
    ensures s << j == 0
  {
    hide BitStep;
    var t := BitStep(s, b);
    EvenOrOdd(t);
    if t & 1 == 1 {
      OddSurvives(t, j - 1);
    }
    EvenStep(s, b);
    ShiftOnce(s, j);
  }

  /** To be cancelled by the next few message bits, a register has to be shifted out whole. */
  lemma {:induction false} CancelledByShifting(s: bv16, bits: seq<bool>)
    requires |bits| <= 16 && Divide(s, bits) == 0
    ensures s << |bits| == 0
    decreases |bits|
  {
    hide BitStep;
    if bits == [] {
      EvenOrOdd(s);
    } else {
      assert bits == [bits[0]] + bits[1..];
      DivideConcat(s, [bits[0]], bits[1..]);
      DivideAppend(s, [], bits[0]);
      assert [] + [bits[0]] == [bits[0]];
      CancelledByShifting(BitStep(s, bits[0]), bits[1..]);
      StepBack(s, bits[0], |bits|);
    }
  }

  lemma FirstStepOdd()
    ensures BitStep(0, true) & 1 == 1
  {}

  /** A difference that starts with a one and spans at most 16 bits leaves a remainder. */
  lemma BurstRemainder(bits: seq<bool>)
    requires 0 < |bits| <= 16 && bits[0]
    ensures Divide(0, bits) != 0
  {
    hide BitStep, Divide;
    var rest := bits[1..];
    assert bits == [true] + rest;
    DivideConcat(0, [true], rest);
    DivideOne(0, true);
    FirstStepOdd();
    OddLeavesRemainder(BitStep(0, true), rest);
  }

  lemma DivideOne(crc: bv16, bit: bool)
    ensures Divide(crc, [bit]) == BitStep(crc, bit)
  {
    hide BitStep;
    assert [] + [bit] == [bit];
    DivideAppend(crc, [], bit);
  }

  lemma OddLeavesRemainder(s: bv16, bits: seq<bool>)
    requires |bits| <= 15 && s & 1 == 1
    ensures Divide(s, bits) != 0
  {
    hide BitStep, Divide;
    if Divide(s, bits) == 0 {
      CancelledByShifting(s, bits);
      OddSurvives(s, |bits|);
    }
  }

  /** First position at which a bit string is set. */
  lemma {:induction false} FirstOne(bits: seq<bool>) returns (f: nat)
    requires true in bits
    ensures f < |bits| && bits[f] && true !in bits[..f]
  {
    if bits[0] {
      f := 0;
    } else {
      assert bits == [false] + bits[1..];
      var g := FirstOne(bits[1..]);
      f := g + 1;
      assert bits[..f] == [false] + bits[1..][..g];
    }
  }

  lemma BurstLeavesRemainder(bits: seq<bool>, k: nat)
    requires true in bits && forall i | 0 <= i < |bits| && bits[i] :: k <= i < k + 16
    ensures Divide(0, bits) != 0
  {
    var f := FirstOne(bits);
    var e := if f + 16 <= |bits| then f + 16 else |bits|;
    assert bits == (bits[..f] + bits[f..e]) + bits[e..];
    DivideConcat(0, bits[..f] + bits[f..e], bits[e..]);
    DivideConcat(0, bits[..f], bits[f..e]);
    DivideZeros(0, bits[..f]);
    BurstRemainder(bits[f..e]);
    DivideZeros(Divide(0, bits[..f] + bits[f..e]), bits[e..]);
  }

  lemma PlusEqual(a: bv16)
    ensures Plus(a, a) == 0
  {}

  /** Every error burst of at most 16 bits changes the checksum. */
  lemma BurstDetected(m: seq<bv8>, m': seq<bv8>, k: nat)
    requires |m| == |m'| && m != m'
    requires forall i | 0 <= i < 8 * |m| && MsbBits(m)[i] != MsbBits(m')[i] :: k <= i < k + 16
    ensures Crc(m) != Crc(m')
  {
    hide MsbBits, Plus, Crc, Divide;
    var u, v := MsbBits(m), MsbBits(m');
    var d := Differ(u, v);
    if true !in d {
      assert forall i | 0 <= i < |u| :: d[i] == (u[i] != v[i]);
      assert u == v;
      MsbExtensional(m, m');
    }
    CrcIsDivision(m);
    CrcIsDivision(m');
    PlusEqual(INITIAL);
    DividePlus(INITIAL, INITIAL, u, v);
    BurstLeavesRemainder(d, k);
    PlusEqual(Crc(m));
  }
}
