/** The constants of the checksum as numbers: the generator, and what they make of the table. */
module CrcValues {
  import opened Bytes
  import opened Crc

  function One(b: bool): nat
  {
    if b then 1 else 0
  }

  /** Eight bits by their weights, the most significant first. */
  lemma ByteWeights(s: Bits)
    requires |s| == 8
    ensures ByteOf(s) ==
      128 * One(s[0]) + 64 * One(s[1]) + 32 * One(s[2]) + 16 * One(s[3])
      + 8 * One(s[4]) + 4 * One(s[5]) + 2 * One(s[6]) + One(s[7])
  {
    hide FromBits;
    FromBitsSnoc(s, 0);
    FromBitsSnoc(s, 1);
    FromBitsSnoc(s, 2);
    FromBitsSnoc(s, 3);
    FromBitsSnoc(s, 4);
    FromBitsSnoc(s, 5);
    FromBitsSnoc(s, 6);
    FromBitsSnoc(s, 7);
    assert s[..8] == s;
  }

  lemma FromBitsSnoc(s: Bits, k: nat)
    requires k < |s|
    ensures FromBits(s[..k + 1]) == 2 * FromBits(s[..k]) + One(s[k])
    ensures FromBits(s[..0]) == 0
  {
    assert s[..k + 1][..k] == s[..k];
  }

  /** A 32-bit word as the bytes of its hexadecimal form. */
  function WordBytes(w: Word): seq<Byte>
  {
    [ByteOf(w[0..8]), ByteOf(w[8..16]), ByteOf(w[16..24]), ByteOf(w[24..32])]
  }

  /** 0x04c11db7, bit by bit. */
  predicate IsGenerator(w: Word)
  {
    && !w[0] && !w[1] && !w[2] && !w[3] && !w[4] && w[5] && !w[6] && !w[7]
    && w[8] && w[9] && !w[10] && !w[11] && !w[12] && !w[13] && !w[14] && w[15]
    && !w[16] && !w[17] && !w[18] && w[19] && w[20] && w[21] && !w[22] && w[23]
    && w[24] && !w[25] && w[26] && w[27] && !w[28] && w[29] && w[30] && w[31]
  }

  lemma GeneratorBytes(w: Word)
    ensures IsGenerator(w) ==> WordBytes(w) == [0x04, 0xc1, 0x1d, 0xb7]
  {
    WordByteWeights(w, 0);
    WordByteWeights(w, 8);
    WordByteWeights(w, 16);
    WordByteWeights(w, 24);
  }

  /** The generator is 0x04c11db7. */
  lemma GeneratorValue()
    ensures WordBytes(POLY) == [0x04, 0xc1, 0x1d, 0xb7]
  {
    assert IsGenerator(POLY);
    GeneratorBytes(POLY);
  }

  lemma WordByteWeights(w: Word, k: nat)
    requires k <= 24
    ensures ByteOf(w[k..k + 8]) ==
      128 * One(w[k]) + 64 * One(w[k + 1]) + 32 * One(w[k + 2]) + 16 * One(w[k + 3])
      + 8 * One(w[k + 4]) + 4 * One(w[k + 5]) + 2 * One(w[k + 6]) + One(w[k + 7])
  {
    ByteWeights(w[k..k + 8]);
  }

  /** Entry 1 of the table is the generator itself: there is no reflection. */
  lemma TableStart()
    ensures WordBytes(TableEntry(1)) == [0x04, 0xc1, 0x1d, 0xb7]
  {
    GeneratorValue();
    var bits := BitsOf(1);
    ByteOfBitsOf(1);
    ByteWeights(bits);
    assert bits + Falses(24) == Falses(7) + [true] + Falses(24);
    LoneBit();
  }

  /** A single bit in place 7 arrives at the top after seven shifts, and leaves the generator. */
  lemma LoneBit()
    ensures ShiftN(Falses(7) + [true] + Falses(24), 8) == POLY
  {
    hide ShiftN;
    var w: Word := Falses(7) + [true] + Falses(24);
    ShiftNLast(w, 7);
    ShiftNZeroPrefix(w, 7);
    assert w[7..] + Falses(7) == [true] + Falses(31);
    LoneTop();
  }

  lemma LoneTop()
    ensures Shift([true] + Falses(31)) == POLY
  {
    assert Shl([true] + Falses(31)) == Falses(32);
    assert Xor(Falses(32), POLY) == POLY;
  }
}
