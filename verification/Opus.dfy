/** How long an Opus packet lasts, in samples at 48 kHz (sections 3.1 and 3.2 of RFC 6716). */
module Opus {
  import opened Bytes

  /** A packet Write can read: it looks at the first byte, and at the second for code 3. */
  predicate Readable(payload: seq<Byte>)
  {
    |payload| >= 1 && (payload[0] % 4 == 3 ==> |payload| >= 2)
  }

  /** Samples per frame of a configuration; 0 outside the 32 configurations of the TOC byte. */
  function GranulePosition(config: Byte): (samples: nat)
    ensures samples <= 2880
  {
    if config in {16, 20, 24, 28} then 120
    else if config in {17, 21, 25, 29} then 240
    else if config in {0, 4, 8, 12, 14, 18, 22, 26, 30} then 480
    else if config in {1, 5, 9, 13, 15, 19, 23, 27, 31} then 960
    else if config in {2, 6, 10} then 1920
    else if config in {3, 7, 11} then 2880
    else 0
  }

  /** The configuration bits of the TOC byte: `(toc & 0xf8) >> 3`. */
  function Config(toc: Byte): Byte
  {
    toc / 8
  }

  function FrameCount(payload: seq<Byte>): (count: nat)
    requires Readable(payload)
    ensures count <= 63
  {
    match payload[0] % 4
    case 0 => 1
    case 1 => 2
    case 2 => 2
    case _ => payload[1] % 64
  }

  const LONGEST_PACKET := 63 * 2880

  function Duration(payload: seq<Byte>): (samples: nat)
    requires Readable(payload)
    ensures samples <= LONGEST_PACKET
  {
    ProductBound(FrameCount(payload), GranulePosition(Config(payload[0])));
    FrameCount(payload) * GranulePosition(Config(payload[0]))
  }

  lemma ProductBound(count: nat, samples: nat)
    requires count <= 63 && samples <= 2880
    ensures count * samples <= 63 * 2880
  {
    assert count * samples <= 63 * samples by {
      assert (63 - count) * samples >= 0;
    }
  }

  /** Frame duration in tenths of a millisecond, by coding mode: SILK, hybrid and CELT
      configurations each run through their own list of frame sizes (table 2 of RFC 6716). */
  function FrameTenths(config: Byte): nat
    requires config < 32
  {
    if config < 12 then [100, 200, 400, 600][config % 4]
    else if config < 16 then [100, 200][config % 2]
    else [25, 50, 100, 200][config % 4]
  }

  /** The switch of GranulePosition is the table of the standard at 48 samples per millisecond. */
  lemma GranulePositionIsTable(toc: Byte)
    ensures Config(toc) < 32 && 10 * GranulePosition(Config(toc)) == 48 * FrameTenths(Config(toc))
  {
    var c := Config(toc);
    if c < 12 {
      assert c in {0, 1, 2, 3, 4, 5, 6, 7, 8, 9, 10, 11};
    } else if c < 16 {
      assert c in {12, 13, 14, 15};
    } else {
      assert c in {16, 17, 18, 19, 20, 21, 22, 23, 24, 25, 26, 27, 28, 29, 30, 31};
    }
  }

  /** What Write can read: anything of two bytes or more, and a single byte unless its code is 3. */
  lemma ReadableExactly(payload: seq<Byte>)
    ensures |payload| == 0 ==> !Readable(payload)
    ensures |payload| == 1 ==> (Readable(payload) <==> payload[0] % 4 in {0, 1, 2})
    ensures |payload| >= 2 ==> Readable(payload)
  {
  }

  /** The duration of a packet with configuration `c` and stereo bit `t`, by its frame count code:
      one frame for code 0, two for codes 1 and 2, and for code 3 the number in the six low-order
      bits of the second byte (section 3.2 of RFC 6716). */
  lemma DurationByCode(c: nat, t: nat, m: Byte, rest: seq<Byte>)
    requires c < 32 && t < 2
    ensures var b := 8 * c + 4 * t; var frame := FrameTenths(c);
      && 10 * Duration([b] + rest) == 48 * frame
      && 10 * Duration([b + 1] + rest) == 48 * (2 * frame)
      && 10 * Duration([b + 2] + rest) == 48 * (2 * frame)
      && 10 * Duration([b + 3, m] + rest) == 48 * ((m % 64) * frame)
  {
    var b := 8 * c + 4 * t;
    GranulePositionIsTable(b);
    assert Config(b) == c && Config(b + 1) == c && Config(b + 2) == c && Config(b + 3) == c;
    CodeOf(b, m, rest);
    assert ([b] + rest)[0] == b && ([b + 1] + rest)[0] == b + 1 && ([b + 2] + rest)[0] == b + 2;
    assert ([b + 3, m] + rest)[0] == b + 3;
    DurationIs([b] + rest);
    DurationIs([b + 1] + rest);
    DurationIs([b + 2] + rest);
    DurationIs([b + 3, m] + rest);
    hide Readable, Config, GranulePosition, FrameTenths, FrameCount, Duration;
    Scaled(1, GranulePosition(c), FrameTenths(c));
    Scaled(2, GranulePosition(c), FrameTenths(c));
    Scaled(m % 64, GranulePosition(c), FrameTenths(c));
  }

  lemma DurationIs(payload: seq<Byte>)
    requires Readable(payload)
    ensures Duration(payload) == FrameCount(payload) * GranulePosition(Config(payload[0]))
  {
  }

  lemma Scaled(n: nat, samples: nat, tenths: nat)
    requires 10 * samples == 48 * tenths
    ensures 10 * (n * samples) == 48 * (n * tenths)
  {
    assert 10 * (n * samples) == n * (10 * samples) == n * (48 * tenths) == 48 * (n * tenths);
  }

  lemma CodeOf(b: nat, m: Byte, rest: seq<Byte>)
    requires b <= 252 && b % 4 == 0
    ensures Readable([b] + rest) && FrameCount([b] + rest) == 1
    ensures Readable([b + 1] + rest) && FrameCount([b + 1] + rest) == 2
    ensures Readable([b + 2] + rest) && FrameCount([b + 2] + rest) == 2
    ensures Readable([b + 3, m] + rest) && FrameCount([b + 3, m] + rest) == m % 64
  {
    assert ([b + 3, m] + rest)[0] == b + 3 && ([b + 3, m] + rest)[1] == m;
  }

  predicate AllReadable(packets: seq<seq<Byte>>)
  {
    forall i :: 0 <= i < |packets| ==> Readable(packets[i])
  }

  function TotalDuration(packets: seq<seq<Byte>>): (t: nat)
    requires AllReadable(packets)
  {
    if packets == [] then 0
    else TotalDuration(packets[..|packets| - 1]) + Duration(packets[|packets| - 1])
  }

  /** The packet the silent option inserts. */
  const SILENT_PACKET: seq<Byte> := [252, 255, 254]

  /** It is one 20 ms frame: configuration 31, stereo, code 0, with two bytes of data. */
  lemma SilentDuration()
    ensures Readable(SILENT_PACKET) && Duration(SILENT_PACKET) == 960
    ensures SILENT_PACKET == [8 * 31 + 4 * 1 + 0, 255, 254]
  {
  }
}
