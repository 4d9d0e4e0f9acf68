/** The Ogg page checksum (section 6 of RFC 3533): generator 0x04c11db7, zero initial value,
    no reflection and no final xor.

    A uint32 is modelled as its 32 bits, most significant first, so `<<` drops bits on the
    left and `^` is a pointwise difference. Polynomials over GF(2) are bit strings in the same order. */
module Crc {
  import opened Bytes

  type Bits = seq<bool>
  type Word = w: Bits | |w| == 32 witness seq(32, _ => false)

  function Falses(n: nat): (z: Bits)
    ensures |z| == n && forall i :: 0 <= i < n ==> !z[i]
  {
    seq(n, _ => false)
  }

  /** 0x04c11db7: the generator without its leading x^32 term. */
  const POLY: Word := [
    false, false, false, false, false, true, false, false,
    true, true, false, false, false, false, false, true,
    false, false, false, true, true, true, false, true,
    true, false, true, true, false, true, true, true]

  function Xor(a: Bits, b: Bits): (c: Bits)
    requires |a| == |b|
    ensures |c| == |a| && forall i :: 0 <= i < |c| ==> c[i] == (a[i] != b[i])
  {
    seq(|a|, i requires 0 <= i < |a| => a[i] != b[i])
  }

  function Pow2(n: nat): nat
  {
    if n == 0 then 1 else 2 * Pow2(n - 1)
  }

  /** The `n` low-order bits of `v`, most significant first. */
  function ToBits(v: nat, n: nat): (s: Bits)
    ensures |s| == n
  {
    if n == 0 then [] else ToBits(v / 2, n - 1) + [v % 2 == 1]
  }

  function FromBits(s: Bits): (v: nat)
    ensures v < Pow2(|s|)
  {
    if s == [] then 0
    else 2 * FromBits(s[..|s| - 1]) + if s[|s| - 1] then 1 else 0
  }

  lemma {:induction false} FromToBits(v: nat, n: nat)
    requires v < Pow2(n)
    ensures FromBits(ToBits(v, n)) == v
  {
    if n > 0 {
      FromToBits(v / 2, n - 1);
      assert ToBits(v, n)[..n - 1] == ToBits(v / 2, n - 1);
    }
  }

  lemma {:induction false} ToFromBits(s: Bits)
    ensures ToBits(FromBits(s), |s|) == s
  {
    if s != [] {
      ToFromBits(s[..|s| - 1]);
      assert s == s[..|s| - 1] + [s[|s| - 1]];
    }
  }

  lemma Pow2Of8()
    ensures Pow2(8) == 256
  {
    assert Pow2(8) == 2 * (2 * (2 * (2 * Pow2(4))));
  }

  function BitsOf(b: Byte): (s: Bits)
    ensures |s| == 8
  {
    ToBits(b, 8)
  }

  function ByteOf(s: Bits): Byte
    requires |s| == 8
  {
    Pow2Of8();
    FromBits(s)
  }

  lemma ByteOfBitsOf(b: Byte)
    ensures ByteOf(BitsOf(b)) == b
  {
    Pow2Of8();
    FromToBits(b, 8);
  }

  lemma BitsOfByteOf(s: Bits)
    requires |s| == 8
    ensures BitsOf(ByteOf(s)) == s
  {
    ToFromBits(s);
  }

  // ---------------------------------------------------------------------------------
  // The shift step
  // ---------------------------------------------------------------------------------

  /** `r << 1`. */
  function Shl(r: Word): Word
  {
    r[1..] + [false]
  }

  /** Multiplication by x modulo the generator: one round of the table loop. */
  function Shift(r: Word): Word
  {
    if r[0] then Xor(Shl(r), POLY) else Shl(r)
  }

  function ShiftN(r: Word, n: nat): Word
    decreases n
  {
    if n == 0 then r else ShiftN(Shift(r), n - 1)
  }

  lemma ShiftLinear(a: Word, b: Word)
    ensures Shift(Xor(a, b)) == Xor(Shift(a), Shift(b))
  {
    assert Shl(Xor(a, b)) == Xor(Shl(a), Shl(b));
  }

  lemma {:induction false} ShiftNLinear(a: Word, b: Word, n: nat)
    ensures ShiftN(Xor(a, b), n) == Xor(ShiftN(a, n), ShiftN(b, n))
    decreases n
  {
    if n > 0 {
      ShiftLinear(a, b);
      ShiftNLinear(Shift(a), Shift(b), n - 1);
    }
  }

  /** The generator's constant term is 1, so the bit shifted out can be read off the result. */
  lemma ShiftInjective(a: Word, b: Word)
    ensures Shift(a) == Shift(b) <==> a == b
  {
    if Shift(a) == Shift(b) {
      assert Shift(a)[31] == a[0] && Shift(b)[31] == b[0];
      forall i | 1 <= i < 32 ensures a[i] == b[i] {
        assert Shift(a)[i - 1] == (a[i] != (a[0] && POLY[i - 1]));
        assert Shift(b)[i - 1] == (b[i] != (b[0] && POLY[i - 1]));
      }
    }
  }

  lemma {:induction false} ShiftNInjective(a: Word, b: Word, n: nat)
    ensures ShiftN(a, n) == ShiftN(b, n) <==> a == b
    decreases n
  {
    if n > 0 {
      ShiftNInjective(Shift(a), Shift(b), n - 1);
      ShiftInjective(a, b);
    }
  }

  lemma {:induction false} ShiftNLast(r: Word, n: nat)
    ensures ShiftN(r, n + 1) == Shift(ShiftN(r, n))
    decreases n
  {
    if n > 0 {
      ShiftNLast(Shift(r), n - 1);
    }
  }

  /** While only zeros are shifted out, the step is a plain left shift. */
  lemma {:induction false} ShiftNZeroPrefix(r: Word, n: nat)
    requires n <= 32 && forall i :: 0 <= i < n ==> !r[i]
    ensures ShiftN(r, n) == r[n..] + Falses(n)
    decreases n
  {
    if n > 0 {
      ShiftNZeroPrefix(Shift(r), n - 1);
      assert Shift(r)[n - 1..] + Falses(n - 1) == r[n..] + Falses(n);
    } else {
      assert r[0..] + Falses(0) == r;
    }
  }

  // ---------------------------------------------------------------------------------
  // Reference definitions: long division, and the bit-serial register
  // ---------------------------------------------------------------------------------

  /** Schoolbook long division of the polynomial `d` by x^32 + POLY: the remainder. */
  function LongDivision(d: Bits): Word
    requires |d| >= 32
    decreases |d|
  {
    if |d| == 32 then d
    else if d[0] then LongDivision(Xor(d[..33], [true] + POLY)[1..] + d[33..])
    else LongDivision(d[1..])
  }

  /** The bit-serial register after reading `m` from state `s`. */
  function BitSerial(s: Word, m: Bits): Word
    decreases |m|
  {
    if m == [] then s else BitSerial(Shift(s[0 := s[0] != m[0]]), m[1..])
  }

  /** `s` added to the 32 leading coefficients of `d`. */
  function AddTop(d: Bits, s: Word): Bits
    requires |d| >= 32
  {
    Xor(d[..32], s) + d[32..]
  }

  /** Subtracting the divisor from the leading coefficients of b followed by `rest`. */
  lemma SubtractDivisor(s: Word, b: bool, rest: Bits)
    requires |rest| >= 32 && b != s[0]
    ensures var d := AddTop([b] + rest, s);
      Xor(d[..33], [true] + POLY)[1..] + d[33..] == AddTop(rest, Xor(s[1..] + [false], POLY))
  {
    var d := AddTop([b] + rest, s);
    var e := Xor(d[..33], [true] + POLY)[1..];
    var t := Xor(s[1..] + [false], POLY);
    forall i | 0 <= i < 32 ensures e[i] == Xor(rest[..32], t)[i] {
      assert e[i] == (d[i + 1] != POLY[i]);
      assert d[i + 1] == if i < 31 then rest[i] != s[i + 1] else rest[i];
    }
    assert e == Xor(rest[..32], t);
    assert d[33..] == rest[32..];
  }

  /** One round of the division consumes the leading coefficient exactly as the register
      consumes a bit. */
  lemma DivisionRound(s: Word, b: bool, rest: Bits)
    requires |rest| >= 32
    ensures LongDivision(AddTop([b] + rest, s)) == LongDivision(AddTop(rest, Shift(s[0 := s[0] != b])))
  {
    var d := AddTop([b] + rest, s);
    assert Shl(s[0 := s[0] != b]) == s[1..] + [false];
    if d[0] {
      SubtractDivisor(s, b, rest);
    } else {
      assert d[1..] == AddTop(rest, s[1..] + [false]);
    }
  }

  /** The bit-serial register holds the remainder of the message times x^32, its initial
      state being added to the leading coefficients. */
  lemma {:induction false} BitSerialDivides(s: Word, m: Bits)
    ensures BitSerial(s, m) == LongDivision(AddTop(m + Falses(32), s))
    decreases |m|
  {
    if m == [] {
      assert AddTop(m + Falses(32), s) == s;
    } else {
      BitSerialDivides(Shift(s[0 := s[0] != m[0]]), m[1..]);
      DivisionRound(s, m[0], m[1..] + Falses(32));
      assert [m[0]] + (m[1..] + Falses(32)) == m + Falses(32);
    }
  }

  lemma {:induction false} BitSerialAppend(s: Word, a: Bits, b: Bits)
    ensures BitSerial(s, a + b) == BitSerial(BitSerial(s, a), b)
    decreases |a|
  {
    if a == [] {
      assert a + b == b;
    } else {
      BitSerialAppend(Shift(s[0 := s[0] != a[0]]), a[1..], b);
      assert (a + b)[1..] == a[1..] + b;
    }
  }

  /** `m` placed at the top of an otherwise zero word. */
  function AtTop(m: Bits): Word
    requires |m| <= 32
  {
    m + Falses(32 - |m|)
  }

  /** Reading one bit adds it to the top of the register and shifts. */
  lemma BitSerialOne(s: Word, b: bool)
    ensures BitSerial(s, [b]) == Shift(Xor(s, AtTop([b])))
  {
    var t := s[0 := s[0] != b];
    assert BitSerial(s, [b]) == BitSerial(Shift(t), [b][1..]);
    assert t == Xor(s, AtTop([b]));
  }

  /** Adding a block bit by bit is adding it at once. */
  lemma XorAtTopSnoc(s: Word, m: Bits, b: bool)
    requires |m| < 32
    ensures Xor(Xor(s, AtTop(m)), AtTop(Falses(|m|) + [b])) == Xor(s, AtTop(m + [b]))
  {
  }

  /** A bit added n positions down arrives at the top of the register after n shifts. */
  lemma BitArrives(x: Word, n: nat, b: bool)
    requires n < 32
    ensures Shift(Xor(ShiftN(x, n), AtTop([b]))) == ShiftN(Xor(x, AtTop(Falses(n) + [b])), n + 1)
  {
    var bit: Word := AtTop(Falses(n) + [b]);
    ShiftNZeroPrefix(bit, n);
    assert bit[n..] + Falses(n) == AtTop([b]);
    ShiftNLinear(x, bit, n);
    ShiftNLast(Xor(x, bit), n);
  }

  /** Up to 32 bits can be added to the register at once and then shifted through. */
  lemma {:induction false} BitSerialBlock(s: Word, m: Bits)
    requires |m| <= 32
    ensures BitSerial(s, m) == ShiftN(Xor(s, AtTop(m)), |m|)
    decreases |m|
  {
    if m == [] {
      assert Xor(s, AtTop(m)) == s;
    } else {
      var n := |m| - 1;
      var init, b := m[..n], m[n];
      assert m == init + [b];
      BitSerialBlock(s, init);
      BitSerialAppend(s, init, [b]);
      BitSerialOne(BitSerial(s, init), b);
      BitArrives(Xor(s, AtTop(init)), n, b);
      XorAtTopSnoc(s, init, b);
    }
  }

  /** A message's bits, each byte most significant bit first. */
  function MessageBits(data: seq<Byte>): (m: Bits)
    ensures |m| == 8 * |data|
  {
    if data == [] then [] else BitsOf(data[0]) + MessageBits(data[1..])
  }

  lemma {:induction false} MessageBitsAppend(a: seq<Byte>, b: seq<Byte>)
    ensures MessageBits(a + b) == MessageBits(a) + MessageBits(b)
  {
    if a == [] {
      assert a + b == b;
    } else {
      var c := a + b;
      assert c[0] == a[0] && c[1..] == a[1..] + b;
      MessageBitsAppend(a[1..], b);
      SeqAssociative(BitsOf(a[0]), MessageBits(a[1..]), MessageBits(b));
    }
  }

  lemma MessageBitsSplit(p: seq<Byte>, v: seq<Byte>, q: seq<Byte>)
    ensures MessageBits(p + v + q) == MessageBits(p) + MessageBits(v) + MessageBits(q)
  {
    MessageBitsAppend(p + v, q);
    MessageBitsAppend(p, v);
  }

  lemma {:induction false} MessageBitsInjective(a: seq<Byte>, b: seq<Byte>)
    requires |a| == |b|
    ensures MessageBits(a) == MessageBits(b) <==> a == b
  {
    if a != [] && MessageBits(a) == MessageBits(b) {
      assert BitsOf(a[0]) == MessageBits(a)[..8] == MessageBits(b)[..8] == BitsOf(b[0]);
      ByteOfBitsOf(a[0]);
      ByteOfBitsOf(b[0]);
      assert MessageBits(a[1..]) == MessageBits(a)[8..] == MessageBits(b)[8..] == MessageBits(b[1..]);
      MessageBitsInjective(a[1..], b[1..]);
    }
  }

  /** The checksum of `data`: the remainder of its polynomial times x^32. */
  function Checksum(data: seq<Byte>): Word
  {
    LongDivision(MessageBits(data) + Falses(32))
  }

  lemma ChecksumIsBitSerial(data: seq<Byte>)
    ensures Checksum(data) == BitSerial(Falses(32), MessageBits(data))
  {
    var d := MessageBits(data) + Falses(32);
    BitSerialDivides(Falses(32), MessageBits(data));
    assert AddTop(d, Falses(32)) == d;
  }

  // ---------------------------------------------------------------------------------
  // The table-driven loop
  // ---------------------------------------------------------------------------------

  function TableEntry(i: Byte): Word
  {
    ShiftN(BitsOf(i) + Falses(24), 8)
  }

  predicate IsChecksumTable(table: seq<Word>)
  {
    |table| == 256 && forall i: Byte :: table[i] == TableEntry(i)
  }

  /** `byte(checksum>>24) ^ b`. */
  function TableIndex(checksum: Word, b: Byte): Byte
  {
    ByteOf(Xor(checksum[..8], BitsOf(b)))
  }

  method GenerateChecksumTable() returns (table: array<Word>)
    ensures fresh(table) && IsChecksumTable(table[..])
  {
    table := new Word[256](_ => Falses(32));
    for i := 0 to 256
      invariant forall k: Byte :: k < i ==> table[k] == TableEntry(k)
    {
      var r: Word := BitsOf(i) + Falses(24);
      for j := 0 to 8
        invariant ShiftN(r, 8 - j) == TableEntry(i)
        invariant j > 0 ==> table[i] == r
        invariant forall k: Byte :: k < i ==> table[k] == TableEntry(k)
      {
        if r[0] {
          r := Xor(Shl(r), POLY);
        } else {
          r := Shl(r);
        }
        table[i] := r;
      }
    }
  }

  /** The register splits into its top byte, which indexes the table, and the rest. */
  lemma SplitTop(w: Word, bits: Bits)
    requires |bits| == 8
    ensures Xor(w, AtTop(bits)) == Xor(Falses(8) + w[8..], Xor(w[..8], bits) + Falses(24))
  {
  }

  /** One lookup does the work of eight bit-serial steps. */
  lemma TableStep(checksum: Word, b: Byte)
    ensures Xor(checksum[8..] + Falses(8), TableEntry(TableIndex(checksum, b)))
         == BitSerial(checksum, BitsOf(b))
  {
    var top := Xor(checksum[..8], BitsOf(b));
    var high: Word := top + Falses(24);
    var low: Word := Falses(8) + checksum[8..];
    BitsOfByteOf(top);
    BitSerialBlock(checksum, BitsOf(b));
    SplitTop(checksum, BitsOf(b));
    ShiftNLinear(low, high, 8);
    ShiftNZeroPrefix(low, 8);
    assert low[8..] == checksum[8..];
  }

  lemma ChecksumSnoc(data: seq<Byte>, b: Byte)
    ensures Checksum(data + [b]) == BitSerial(Checksum(data), BitsOf(b))
  {
    ChecksumIsBitSerial(data);
    ChecksumIsBitSerial(data + [b]);
    MessageBitsAppend(data, [b]);
    assert MessageBits([b]) == BitsOf(b) + MessageBits([]);
    assert MessageBits([b]) == BitsOf(b);
    BitSerialAppend(Falses(32), MessageBits(data), BitsOf(b));
  }

  /** The checksum loop of createPage computes the remainder of the long division. */
  method ComputeChecksum(table: array<Word>, data: array<Byte>) returns (checksum: Word)
    requires IsChecksumTable(table[..])
    ensures checksum == Checksum(data[..])
  {
    checksum := Falses(32);
    ChecksumIsBitSerial([]);
    assert data[..0] == [];
    for index := 0 to data.Length
      invariant checksum == Checksum(data[..index])
    {
      ghost var before := checksum;
      var i := TableIndex(checksum, data[index]);
      assert table[..][i] == TableEntry(i);
      checksum := Xor(checksum[8..] + Falses(8), table[i]);
      TableStep(before, data[index]);
      ChecksumSnoc(data[..index], data[index]);
      assert data[..index + 1] == data[..index] + [data[index]];
    }
    assert data[..data.Length] == data[..];
  }

  // ---------------------------------------------------------------------------------
  // Error detection
  // ---------------------------------------------------------------------------------

  lemma {:induction false} BitSerialInjective(s: Word, t: Word, m: Bits)
    ensures BitSerial(s, m) == BitSerial(t, m) <==> s == t
    decreases |m|
  {
    if m != [] && BitSerial(s, m) == BitSerial(t, m) {
      var s', t' := s[0 := s[0] != m[0]], t[0 := t[0] != m[0]];
      BitSerialInjective(Shift(s'), Shift(t'), m[1..]);
      ShiftInjective(s', t');
      assert s'[0] == t'[0] && forall i :: 1 <= i < 32 ==> s'[i] == t'[i];
      assert forall i :: 1 <= i < 32 ==> s[i] == s'[i] && t[i] == t'[i];
    }
  }

  /** Any error burst of at most 32 bits, at any bit alignment, changes the register: results
      are equal exactly when the blocks are. */
  lemma BurstDetected(s: Word, p: Bits, v: Bits, w: Bits, q: Bits)
    requires |v| == |w| <= 32
    ensures BitSerial(s, p + v + q) == BitSerial(s, p + w + q) <==> v == w
  {
    var t := BitSerial(s, p);
    BitSerialAppend(s, p, v);
    BitSerialAppend(s, p, w);
    BitSerialAppend(s, p + v, q);
    BitSerialAppend(s, p + w, q);
    BitSerialInjective(BitSerial(t, v), BitSerial(t, w), q);
    BitSerialBlock(t, v);
    BitSerialBlock(t, w);
    XorShiftInjective(t, v, w);
  }

  lemma XorShiftInjective(t: Word, v: Bits, w: Bits)
    requires |v| == |w| <= 32
    ensures ShiftN(Xor(t, AtTop(v)), |v|) == ShiftN(Xor(t, AtTop(w)), |w|) <==> v == w
  {
    if ShiftN(Xor(t, AtTop(v)), |v|) == ShiftN(Xor(t, AtTop(w)), |w|) {
      ShiftNInjective(Xor(t, AtTop(v)), Xor(t, AtTop(w)), |v|);
      forall i | 0 <= i < |v| ensures v[i] == w[i] {
        assert Xor(t, AtTop(v))[i] == (t[i] != v[i]) && Xor(t, AtTop(w))[i] == (t[i] != w[i]);
      }
    }
  }

  lemma SplitAround(x: seq<Byte>, lo: nat, hi: nat)
    requires lo <= hi <= |x|
    ensures Checksum(x) == BitSerial(Falses(32),
      MessageBits(x[..lo]) + MessageBits(x[lo..hi]) + MessageBits(x[hi..]))
  {
    assert x == x[..lo] + x[lo..hi] + x[hi..];
    MessageBitsSplit(x[..lo], x[lo..hi], x[hi..]);
    ChecksumIsBitSerial(x);
  }

  lemma RejoinEqual(x: seq<Byte>, y: seq<Byte>, lo: nat, hi: nat)
    requires lo <= hi <= |x| == |y|
    requires x[..lo] == y[..lo] && x[lo..hi] == y[lo..hi] && x[hi..] == y[hi..]
    ensures x == y
  {
    assert x == x[..lo] + x[lo..hi] + x[hi..];
    assert y == y[..lo] + y[lo..hi] + y[hi..];
  }

  /** Two messages of equal length that differ only inside some four consecutive bytes have
      different checksums. */
  lemma ErrorDetected(x: seq<Byte>, y: seq<Byte>, k: nat)
    requires |x| == |y| && x != y
    requires forall i :: 0 <= i < |x| && !(k <= i < k + 4) ==> x[i] == y[i]
    ensures Checksum(x) != Checksum(y)
  {
    var lo := if k < |x| then k else |x|;
    var hi := if k + 4 < |x| then k + 4 else |x|;
    var v, w := x[lo..hi], y[lo..hi];
    SplitAround(x, lo, hi);
    SplitAround(y, lo, hi);
    assert y[..lo] == x[..lo] && y[hi..] == x[hi..];
    if Checksum(x) == Checksum(y) {
      BurstDetected(Falses(32), MessageBits(x[..lo]), MessageBits(v), MessageBits(w), MessageBits(x[hi..]));
      MessageBitsInjective(v, w);
      RejoinEqual(x, y, lo, hi);
      assert false;
    }
  }
}
