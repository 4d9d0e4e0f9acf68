/** What little- and big-endian fields stand for, by the weight of each byte. */
module Weights {
  import opened Bytes

  /** Four bytes, least significant first, by their weights. */
  function Value32(s: seq<Byte>): int
    requires |s| == 4
  {
    s[0] as int + 0x100 * s[1] as int + 0x1_0000 * s[2] as int + 0x100_0000 * s[3] as int
  }

  lemma LittleEndianWeights(v: nat)
    ensures v < 0x1_0000_0000 ==> v == Value32(LittleEndian(v, 4))
    ensures v < 0x1_0000_0000_0000_0000 ==>
      v == Value32(LittleEndian(v, 8)[..4]) + 0x1_0000_0000 * Value32(LittleEndian(v, 8)[4..])
  {
    LittleEndianFour(v);
    LittleEndianFour(v / 256 / 256 / 256 / 256);
    LittleEndianHalves(v);
  }

  lemma LittleEndianFour(v: nat)
    ensures LittleEndian(v, 4) == [v % 256, v / 256 % 256, v / 256 / 256 % 256, v / 256 / 256 / 256 % 256]
  {
    var a, b, c := v / 256, v / 256 / 256, v / 256 / 256 / 256;
    assert LittleEndian(c, 1) == [c % 256] + LittleEndian(c / 256, 0);
    assert LittleEndian(b, 2) == [b % 256] + LittleEndian(c, 1);
    assert LittleEndian(a, 3) == [a % 256] + LittleEndian(b, 2);
    assert LittleEndian(a, 1) == [a % 256] + LittleEndian(b, 0);
  }

  lemma LittleEndianHalves(v: nat)
    ensures LittleEndian(v, 8) == LittleEndian(v, 4) + LittleEndian(v / 256 / 256 / 256 / 256, 4)
  {
    var a, b, c, d := v / 256, v / 256 / 256, v / 256 / 256 / 256, v / 256 / 256 / 256 / 256;
    assert LittleEndian(c, 5) == [c % 256] + LittleEndian(d, 4);
    assert LittleEndian(b, 6) == [b % 256] + LittleEndian(c, 5);
    assert LittleEndian(a, 7) == [a % 256] + LittleEndian(b, 6);
    assert LittleEndian(v, 8) == [v % 256] + LittleEndian(a, 7);
    LittleEndianFour(v);
  }

  /** The weights of four bytes, most significant first. */
  lemma BigEndianWeights(s: seq<Byte>)
    requires |s| == 4
    ensures FromBigEndian(s) == Value32([s[3], s[2], s[1], s[0]])
  {
    assert s[..3][..2] == s[..2] && s[..2][..1] == s[..1] && s[..1][..0] == [];
    assert FromBigEndian(s[..1]) == 256 * FromBigEndian([]) + s[0];
    assert FromBigEndian(s[..2]) == 256 * FromBigEndian(s[..1]) + s[1];
    assert FromBigEndian(s[..3]) == 256 * FromBigEndian(s[..2]) + s[2];
  }
}
