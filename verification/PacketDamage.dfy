/** Which damage the checksum of a Horus v2 packet shows. The checksum covers 30 bytes and is stored
    behind them, low byte first. */
module PacketDamage {
  import opened Bytes
  import opened Crc16
  import opened Horus

  lemma PlusCancel(x: bv16, y: bv16, z: bv16)
    ensures Plus(x, y) == Plus(x, z) <==> y == z
  {}

  /** A valid packet that is damaged stays valid if and only if the damage to the checksum field is
      the remainder of the damage to the data. */
  lemma DamageExactly(packet: seq<bv8>, damaged: seq<bv8>)
    requires |packet| == |damaged| == PACKET_SIZE && ChecksumValid(packet)
    ensures ChecksumValid(damaged) <==>
            Plus(StoredChecksum(packet), StoredChecksum(damaged)) ==
            Divide(0, Differ(MsbBits(packet[..30]), MsbBits(damaged[..30])))
  {
    hide Plus, Divide, Crc, MsbBits, FieldValue, Differ;
    var m, m' := packet[..30], damaged[..30];
    CrcIsDivision(m);
    CrcIsDivision(m');
    PlusEqual(INITIAL);
    DividePlus(INITIAL, INITIAL, MsbBits(m), MsbBits(m'));
    PlusCancel(Crc(m), StoredChecksum(damaged), Crc(m'));
  }

  /** Damage to the checksum field alone always shows. */
  lemma FieldDamageDetected(packet: seq<bv8>, damaged: seq<bv8>)
    requires |packet| == |damaged| == PACKET_SIZE && ChecksumValid(packet)
    requires packet[..30] == damaged[..30] && packet != damaged
    ensures !ChecksumValid(damaged)
  {
    hide Crc;
    FieldInjective(packet[30], packet[31], damaged[30], damaged[31]);
    assert packet == packet[..30] + [packet[30], packet[31]];
    assert damaged == damaged[..30] + [damaged[30], damaged[31]];
  }

  lemma FieldInjective(a: bv8, b: bv8, c: bv8, d: bv8)
    ensures FieldValue(a, b) == FieldValue(c, d) ==> a == c && b == d
  {}

  /** Three bytes around the start of the field, changed in four bits: the last bit of the data, and
      what this bit does to the checksum. */
  function Patched(packet: seq<bv8>): (damaged: seq<bv8>)
    requires |packet| == PACKET_SIZE
    ensures |damaged| == PACKET_SIZE
  {
    packet[29 := packet[29] ^ 0x01][30 := packet[30] ^ 0x21][31 := packet[31] ^ 0x10]
  }

  lemma FieldPatched(low: bv8, high: bv8)
    ensures Plus(FieldValue(low, high), FieldValue(low ^ 0x21, high ^ 0x10)) == 0x1021
  {}

  lemma LastBitFlips(b: bv8, k: nat)
    requires k < 8
    ensures BitOf(b ^ 0x01, k) != BitOf(b, k) <==> k == 0
  {
    if k == 0 {} else if k == 1 {} else if k == 2 {} else if k == 3 {}
    else if k == 4 {} else if k == 5 {} else if k == 6 {} else {}
  }

  lemma HighByteFlips(b: bv8, k: nat)
    requires k < 8
    ensures BitOf(b ^ 0x10, k) != BitOf(b, k) <==> k == 4
  {
    if k == 0 {} else if k == 1 {} else if k == 2 {} else if k == 3 {}
    else if k == 4 {} else if k == 5 {} else if k == 6 {} else {}
  }

  /** The field being stored low byte first, a burst that reaches into it can go unnoticed: in
      every valid packet these 13 consecutive bits contain four that can be flipped together. */
  lemma BurstIntoFieldMissed(packet: seq<bv8>)
    requires |packet| == PACKET_SIZE && ChecksumValid(packet)
    ensures Patched(packet) != packet && ChecksumValid(Patched(packet))
    ensures forall i | 0 <= i < 8 * PACKET_SIZE && MsbBits(packet)[i] != MsbBits(Patched(packet))[i] :: 239 <= i < 252
  {
    hide Plus, Divide, Crc, FieldValue, BitOf;
    var damaged := Patched(packet);
    LastBitFlips(packet[29], 0);
    forall i | 0 <= i < 8 * PACKET_SIZE && MsbBits(packet)[i] != MsbBits(damaged)[i]
      ensures 239 <= i < 252
    {
      PatchedBits(packet, i / 8, 7 - i % 8);
    }
    var d := Differ(MsbBits(packet[..30]), MsbBits(damaged[..30]));
    forall i | 0 <= i < 240
      ensures d[i] == (i == 239)
    {
      assert d[i] == (BitOf(packet[i / 8], 7 - i % 8) != BitOf(damaged[i / 8], 7 - i % 8));
      LastBitFlips(packet[29], 7 - i % 8);
    }
    assert true !in d[..239];
    OneBitRemainder(d);
    PatchedField(packet);
    hide ChecksumValid, StoredChecksum, Patched, Differ, MsbBits;
    DamageExactly(packet, damaged);
  }

  lemma PatchedField(packet: seq<bv8>)
    requires |packet| == PACKET_SIZE
    ensures Plus(StoredChecksum(packet), StoredChecksum(Patched(packet))) == 0x1021
  {
    hide FieldValue, Plus;
    var low, high := packet[30], packet[31];
    FieldPatched(low, high);
    assert StoredChecksum(packet) == FieldValue(low, high);
    PatchedBytes(packet);
  }

  lemma PatchedBytes(packet: seq<bv8>)
    requires |packet| == PACKET_SIZE
    ensures StoredChecksum(Patched(packet)) == FieldValue(packet[30] ^ 0x21, packet[31] ^ 0x10)
  {
    hide FieldValue;
  }

  lemma OneBitRemainder(d: seq<bool>)
    requires |d| > 0 && true !in d[..|d| - 1] && d[|d| - 1]
    ensures Divide(0, d) == 0x1021
  {
    hide Plus, BitStep;
    DivideZeros(0, d[..|d| - 1]);
    LastStep();
  }

  lemma LastStep()
    ensures BitStep(0, true) == 0x1021
  {}

  lemma PatchedBits(packet: seq<bv8>, b: nat, k: nat)
    requires |packet| == PACKET_SIZE && b < PACKET_SIZE && k < 8
    ensures BitOf(packet[b], k) != BitOf(Patched(packet)[b], k) ==> 239 <= 8 * b + 7 - k < 252
  {
    hide BitOf;
    if b == 29 {
      LastBitFlips(packet[29], k);
    } else if b == 31 {
      HighByteFlips(packet[31], k);
    }
  }
}
