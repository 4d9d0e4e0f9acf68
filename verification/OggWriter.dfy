/** The Ogg Opus writer: page and granule state, and the end-of-stream rewrite. */
module OggWriter {
  import opened Bytes
  import opened Weights
  import opened Crc
  import opened OggPage
  import opened Opus

  const DEFAULT_PRE_SKIP := 3840
  /** "OpusHead". */
  const ID_SIGNATURE: seq<Byte> := [79, 112, 117, 115, 72, 101, 97, 100]
  /** "OpusTags". */
  const COMMENT_SIGNATURE: seq<Byte> := [79, 112, 117, 115, 84, 97, 103, 115]
  /** "pion". */
  const VENDOR: seq<Byte> := [112, 105, 111, 110]

  // ---------------------------------------------------------------------------------
  // What the writer is to produce
  // ---------------------------------------------------------------------------------

  /** The identification header (section 5.1 of RFC 7845). */
  function IdHeader(sampleRate: U32, channelCount: nat): (s: seq<Byte>)
    ensures |s| == 19
  {
    ID_SIGNATURE + [1, channelCount % 256] + LittleEndian(DEFAULT_PRE_SKIP, 2)
    + LittleEndian(sampleRate, 4) + [0, 0, 0]
  }

  /** The comment header (section 5.2 of RFC 7845): the vendor string is "pion" and a zero byte. */
  function CommentHeader(): (s: seq<Byte>)
    ensures |s| == 21
  {
    COMMENT_SIGNATURE + LittleEndian(5, 4) + VENDOR + [0] + LittleEndian(0, 4)
  }

  /** The identification header reads back field by field; a channel count of more than one byte
      is cut down to its low byte. */
  lemma IdHeaderFields(sampleRate: U32, channelCount: nat)
    ensures var s := IdHeader(sampleRate, channelCount);
      && Spells(s[..8], "OpusHead") && s[8] == 1
      && (s[9] == channelCount <==> channelCount < 256)
      && s[10] as int + 0x100 * s[11] as int == 3840
      && Value32(s[12..16]) == sampleRate
      && s[16] == 0 && s[17] == 0 && s[18] == 0
  {
    var s := IdHeader(sampleRate, channelCount);
    LittleEndianTwo(DEFAULT_PRE_SKIP);
    LittleEndianWeights(sampleRate);
    hide LittleEndian;
    assert s[..8] == ID_SIGNATURE && Spells(ID_SIGNATURE, "OpusHead");
    assert s[10] == LittleEndian(DEFAULT_PRE_SKIP, 2)[0] && s[11] == LittleEndian(DEFAULT_PRE_SKIP, 2)[1];
    assert s[12..16] == LittleEndian(sampleRate, 4);
  }

  lemma LittleEndianTwo(v: nat)
    requires v < 0x1_0000
    ensures var s := LittleEndian(v, 2); s[0] as int + 0x100 * s[1] as int == v
  {
    assert LittleEndian(v, 2) == [v % 256] + LittleEndian(v / 256, 1);
  }

  /** The comment header is consumed exactly: a vendor string of the announced length, then an
      empty comment list. */
  lemma CommentHeaderFields()
    ensures var s := CommentHeader(); var n := Value32(s[8..12]);
      && Spells(s[..8], "OpusTags")
      && 0 <= n && 12 + n + 4 == |s|
      && Spells(s[12..16], "pion") && n == 5 && s[16] == 0
      && Value32(s[12 + n..]) == 0
  {
    var s := CommentHeader();
    LittleEndianWeights(5);
    LittleEndianWeights(0);
    hide LittleEndian;
    assert Spells(COMMENT_SIGNATURE, "OpusTags") && Spells(VENDOR, "pion");
    assert (VENDOR + [0])[..4] == VENDOR && (VENDOR + [0])[4] == 0;
    FourParts(COMMENT_SIGNATURE, LittleEndian(5, 4), VENDOR + [0], LittleEndian(0, 4));
    SeqAssociative(COMMENT_SIGNATURE + LittleEndian(5, 4), VENDOR, [0]);
    assert s[12..16] == s[12..17][..4] && s[16] == s[12..17][4];
  }

  lemma FourParts(a: seq<Byte>, b: seq<Byte>, c: seq<Byte>, d: seq<Byte>)
    requires |a| == 8 && |b| == 4 && |c| == 5
    ensures var s := a + b + c + d; s[..8] == a && s[8..12] == b && s[12..17] == c && s[17..] == d
  {
  }

  function Next32(i: U32): U32
  {
    (i + 1) % TWO32
  }

  function Prev32(i: U32): U32
  {
    (i - 1) % TWO32
  }

  function HeaderPages(serial: U32, index: U32, sampleRate: U32, channelCount: nat): (pages: seq<Page>)
    ensures |pages| == 2
  {
    [Page(BEGINNING_OF_STREAM, 0, serial, index, IdHeader(sampleRate, channelCount)),
     Page(CONTINUATION, 0, serial, Next32(index), CommentHeader())]
  }

  /** The granule position after `packets`, starting from `granule`. */
  function GranuleAfter(granule: U64, packets: seq<seq<Byte>>): U64
    requires AllReadable(packets)
  {
    (granule + TotalDuration(packets)) % TWO64
  }

  /** The audio page a writer in this state writes for `payload`. */
  function AudioPage(serial: U32, granule: U64, index: U32, payload: seq<Byte>): Page
    requires Readable(payload)
  {
    Page(CONTINUATION, (granule + Duration(payload)) % TWO64, serial, index, payload)
  }

  /** One page a packet. */
  function AudioPages(serial: U32, granule: U64, index: U32, packets: seq<seq<Byte>>): (pages: seq<Page>)
    requires AllReadable(packets)
    ensures |pages| == |packets|
  {
    if packets == [] then []
    else
      var n := |packets| - 1;
      AudioPages(serial, granule, index, packets[..n])
      + [AudioPage(serial, GranuleAfter(granule, packets[..n]), (index + n) % TWO32, packets[n])]
  }

  /** The whole stream: header pages, then one page a packet, with the granule starting at 1. */
  function OggStream(serial: U32, sampleRate: U32, channelCount: nat, packets: seq<seq<Byte>>): seq<Page>
    requires AllReadable(packets)
  {
    HeaderPages(serial, 0, sampleRate, channelCount) + AudioPages(serial, 1, 2, packets)
  }

  // ---------------------------------------------------------------------------------
  // Properties of the stream
  // ---------------------------------------------------------------------------------

  lemma ModStep(g: nat, t: nat, d: nat)
    ensures ((g + t) % TWO64 + d) % TWO64 == (g + (t + d)) % TWO64
  {
  }

  /** Page k carries packet k, the next sequence number, and the samples up to its end. */
  lemma {:induction false} AudioPageAt(serial: U32, granule: U64, index: U32, packets: seq<seq<Byte>>, k: nat)
    requires AllReadable(packets) && k < |packets|
    ensures AudioPages(serial, granule, index, packets)[k]
         == Page(CONTINUATION, GranuleAfter(granule, packets[..k + 1]), serial, (index + k) % TWO32, packets[k])
    decreases |packets|
  {
    hide Duration;
    var n := |packets| - 1;
    if k < n {
      AudioPageAt(serial, granule, index, packets[..n], k);
      assert packets[..n][..k + 1] == packets[..k + 1];
    } else {
      assert packets[..k + 1] == packets;
      ModStep(granule, TotalDuration(packets[..n]), Duration(packets[n]));
    }
  }

  lemma {:induction false} TotalDurationMonotone(packets: seq<seq<Byte>>, k: nat)
    requires AllReadable(packets) && k <= |packets|
    ensures TotalDuration(packets[..k]) <= TotalDuration(packets)
    decreases |packets|
  {
    if k < |packets| {
      TotalDurationMonotone(packets[..|packets| - 1], k);
      assert packets[..|packets| - 1][..k] == packets[..k];
    } else {
      assert packets[..k] == packets;
    }
  }

  /** The granule of the page of packet j, when the stream fits in 64 bits. */
  lemma AudioPosition(serial: U32, packets: seq<seq<Byte>>, j: nat)
    requires AllReadable(packets) && 1 + TotalDuration(packets) < TWO64 && j < |packets|
    ensures GranuleAfter(1, packets[..j + 1]) == 1 + TotalDuration(packets[..j + 1])
    ensures AudioPages(serial, 1, 2, packets)[j]
         == Page(CONTINUATION, GranuleAfter(1, packets[..j + 1]), serial, (2 + j) % TWO32, packets[j])
  {
    hide AudioPages, TotalDuration;
    AudioPageAt(serial, 1, 2, packets, j);
    TotalDurationMonotone(packets, j + 1);
  }

  lemma DurationStep(packets: seq<seq<Byte>>, j: nat)
    requires AllReadable(packets) && j < |packets|
    ensures TotalDuration(packets[..j]) <= TotalDuration(packets[..j + 1])
         <= TotalDuration(packets[..j]) + LONGEST_PACKET
  {
    assert packets[..j + 1][..j] == packets[..j];
  }

  /** Over a whole stream whose length fits in 64 bits: page k has sequence number k modulo
      2^32; audio granules are 1 plus the samples so far; they never go back, and rise by at
      most 63 frames of 60 ms at a time. */
  lemma StreamPositions(serial: U32, sampleRate: U32, channelCount: nat, packets: seq<seq<Byte>>, k: nat)
    requires AllReadable(packets) && 1 + TotalDuration(packets) < TWO64
    requires k < |packets| + 2
    ensures var pages := OggStream(serial, sampleRate, channelCount, packets);
      && |pages| == |packets| + 2
      && pages[k].index == k % TWO32
      && pages[k].serial == serial
      && (k < 2 ==> pages[k].granule == 0)
      && (k >= 2 ==> pages[k].payload == packets[k - 2])
      && (k >= 2 ==> pages[k].granule == 1 + TotalDuration(packets[..k - 1]))
      && (k > 2 ==> pages[k - 1].granule <= pages[k].granule <= pages[k - 1].granule + LONGEST_PACKET)
  {
    hide IdHeader, CommentHeader, AudioPages, TotalDuration, Duration;
    if k >= 2 {
      AudioPosition(serial, packets, k - 2);
      if k > 2 {
        AudioPosition(serial, packets, k - 3);
        DurationStep(packets, k - 2);
      }
    }
  }

  lemma OggStreamOfNothing(serial: U32, sampleRate: U32, channelCount: nat)
    ensures OggStream(serial, sampleRate, channelCount, []) == HeaderPages(serial, 0, sampleRate, channelCount)
    ensures GranuleAfter(1, []) == 1
  {
    assert AudioPages(serial, 1, 2, []) == [];
  }

  lemma AudioPagesSnoc(serial: U32, granule: U64, packets: seq<seq<Byte>>, p: seq<Byte>)
    requires AllReadable(packets) && Readable(p)
    ensures AllReadable(packets + [p])
    ensures var page := AudioPage(serial, GranuleAfter(granule, packets), (2 + |packets|) % TWO32, p);
      && AudioPages(serial, granule, 2, packets + [p]) == AudioPages(serial, granule, 2, packets) + [page]
      && page.granule == GranuleAfter(granule, packets + [p])
  {
    hide Duration;
    var all := packets + [p];
    assert all[..|packets|] == packets && all[|packets|] == p;
    ModStep(granule, TotalDuration(packets), Duration(p));
  }

  /** Writing one more packet appends its page to the stream. */
  lemma OggStreamSnoc(serial: U32, sampleRate: U32, channelCount: nat, packets: seq<seq<Byte>>, p: seq<Byte>)
    requires AllReadable(packets) && Readable(p)
    ensures AllReadable(packets + [p])
    ensures var page := AudioPage(serial, GranuleAfter(1, packets), (2 + |packets|) % TWO32, p);
      && EncodeAll(OggStream(serial, sampleRate, channelCount, packets + [p]))
         == EncodeAll(OggStream(serial, sampleRate, channelCount, packets)) + Encode(page)
      && page.granule == GranuleAfter(1, packets + [p])
      && Next32(page.index) == (2 + |packets| + 1) % TWO32
  {
    hide IdHeader, CommentHeader, Duration, Encode, EncodeAll, AudioPages, GranuleAfter;
    var header := HeaderPages(serial, 0, sampleRate, channelCount);
    var audio := AudioPages(serial, 1, 2, packets);
    var page := AudioPage(serial, GranuleAfter(1, packets), (2 + |packets|) % TWO32, p);
    AudioPagesSnoc(serial, 1, packets, p);
    SeqAssociative(header, audio, [page]);
    EncodeAllSnoc(header + audio, page);
  }

  /** Header types over a whole stream: beginning of stream on the first page, which carries the
      identification header, and none on any other; end of stream on the last page, once marked. */
  lemma HeaderTypes(serial: U32, sampleRate: U32, channelCount: nat, packets: seq<seq<Byte>>, k: nat)
    requires AllReadable(packets) && k < |packets| + 2
    ensures var pages := OggStream(serial, sampleRate, channelCount, packets);
      && pages[k].headerType == (if k == 0 then 2 else 0)
      && (k == 0 ==> Spells(pages[k].payload[..8], "OpusHead") && |pages[k].payload| == 19)
      && (k == 1 ==> Spells(pages[k].payload[..8], "OpusTags") && |pages[k].payload| == 21)
      && MarkLast(pages)[k] == (if k == |packets| + 1 then pages[k].(headerType := 4) else pages[k])
  {
    IdHeaderFields(sampleRate, channelCount);
    CommentHeaderFields();
    hide IdHeader, CommentHeader, AudioPages, Duration;
    if k >= 2 {
      AudioPageAt(serial, 1, 2, packets, k - 2);
    }
  }

  // ---------------------------------------------------------------------------------
  // The RTP clock
  // ---------------------------------------------------------------------------------

  /** The granule position after a packet with wire timestamp `ts`; 1 marks "no packet yet". */
  function ClockStep(granule: U64, previous: U32, ts: U32): U64
  {
    if previous == 1 then granule else (granule + (ts - previous) % TWO32) % TWO64
  }

  /** The granule after packets whose true, unwrapped timestamps are `clock`, for a new writer. */
  function ClockGranule(clock: seq<nat>): U64
  {
    if clock == [] then 1
    else
      var n := |clock| - 1;
      ClockStep(ClockGranule(clock[..n]), if n == 0 then 1 else clock[n - 1] % TWO32, clock[n] % TWO32)
  }

  /** Consecutive true timestamps are less than 2^32 apart. */
  predicate Advancing(clock: seq<nat>)
  {
    forall i :: 0 < i < |clock| ==> clock[i - 1] <= clock[i] < clock[i - 1] + TWO32
  }

  /** The step to packet i is dropped: the packet before it carried wire timestamp 1, and
      time has passed since. */
  predicate Hidden(clock: seq<nat>, i: nat)
    requires 0 < i < |clock|
  {
    clock[i - 1] % TWO32 == 1 && clock[i] != clock[i - 1]
  }

  /** The ticks of all dropped steps. */
  function LostTicks(clock: seq<nat>): nat
    requires Advancing(clock)
  {
    if |clock| < 2 then 0
    else
      var n := |clock| - 1;
      LostTicks(clock[..n]) + if Hidden(clock, n) then clock[n] - clock[n - 1] else 0
  }

  function Elapsed(clock: seq<nat>): int
    requires |clock| > 0
  {
    clock[|clock| - 1] as int - clock[0] as int
  }

  lemma WireDifference(a: nat, b: nat)
    requires a <= b < a + TWO32
    ensures (b % TWO32 - a % TWO32) % TWO32 == b - a
  {
    var qa, qb := a / TWO32, b / TWO32;
    assert a == TWO32 * qa + a % TWO32 && b == TWO32 * qb + b % TWO32;
    assert b % TWO32 - a % TWO32 == (b - a) - TWO32 * (qb - qa);
    assert qb - qa == 0 || qb - qa == 1;
  }

  lemma ClockStepValue(granule: U64, a: nat, b: nat)
    requires a <= b < a + TWO32 && granule + (b as int - a as int) < TWO64
    ensures ClockStep(granule, a % TWO32, b % TWO32)
         == if a % TWO32 == 1 then granule else granule + (b as int - a as int)
  {
    WireDifference(a, b);
  }

  /** An input for which the clock is wrong: the first packet has timestamp 1, and the 20 ms to
      the second one are lost. */
  lemma ClockLoses()
    ensures ClockGranule([1, 961]) == 1 && ClockGranule([2, 962]) == 961
  {
    assert [1, 961][..1] == [1] && [1][..0] == [];
    assert [2, 962][..1] == [2] && [2][..0] == [];
    assert ClockGranule([1]) == ClockStep(ClockGranule([]), 1, 1);
    assert ClockGranule([2]) == ClockStep(ClockGranule([]), 1, 2);
  }

  /** The clock is unwrapped exactly, except for the dropped ticks. */
  lemma {:induction false} ClockUnwraps(clock: seq<nat>)
    requires Advancing(clock) && |clock| > 0 && 1 + Elapsed(clock) < TWO64
    ensures LostTicks(clock) <= Elapsed(clock)
    ensures ClockGranule(clock) == 1 + Elapsed(clock) - LostTicks(clock)
    decreases |clock|
  {
    var n := |clock| - 1;
    if n > 0 {
      var before := clock[..n];
      assert before[0] == clock[0] && before[|before| - 1] == clock[n - 1];
      assert clock[n - 1] <= clock[n];
      ClockUnwraps(before);
      ClockStepValue(ClockGranule(before), clock[n - 1], clock[n]);
      hide ClockStep;
    } else {
      assert clock[..0] == [];
      assert ClockGranule(clock[..0]) == 1;
    }
  }

  lemma {:induction false} LostTicksZero(clock: seq<nat>)
    requires Advancing(clock)
    ensures LostTicks(clock) == 0 <==> forall i :: 0 < i < |clock| ==> !Hidden(clock, i)
    decreases |clock|
  {
    if |clock| >= 2 {
      var n := |clock| - 1;
      assert clock[n - 1] <= clock[n];
      forall i | 0 < i < n ensures Hidden(clock[..n], i) == Hidden(clock, i) {
      }
      hide Hidden;
      LostTicksZero(clock[..n]);
    }
  }

  /** The granule is 1 plus the true elapsed ticks, across any number of wraps, exactly when
      no step follows a packet whose wire timestamp is the sentinel 1. */
  lemma ClockExact(clock: seq<nat>)
    requires Advancing(clock) && |clock| > 0 && 1 + Elapsed(clock) < TWO64
    ensures ClockGranule(clock) == 1 + Elapsed(clock) <==> forall i :: 0 < i < |clock| ==> !Hidden(clock, i)
  {
    ClockUnwraps(clock);
    LostTicksZero(clock);
  }

  // ---------------------------------------------------------------------------------
  // Files and the writer
  // ---------------------------------------------------------------------------------

  /** `data` with `p` written at `pos`. */
  function Overwrite(data: seq<Byte>, pos: nat, p: seq<Byte>): seq<Byte>
    requires pos <= |data|
  {
    data[..pos] + p + if pos + |p| < |data| then data[pos + |p|..] else []
  }

  /** Two writes, seen from the start: what there is during the first and during the second. */
  lemma TwoParts(start: seq<Byte>, p0: seq<Byte>, p1: seq<Byte>, now: seq<Byte>)
    ensures start + p0 + p1 == start + (p0 + p1)
    ensures start <= now <= start + p0 ==> now <= start + (p0 + p1)
    ensures start + p0 <= now ==> start <= now
  {
    if start <= now <= start + p0 {
      PrefixTransitive(now, start + p0, start + (p0 + p1));
    }
    if start + p0 <= now {
      PrefixTransitive(start, start + p0, now);
    }
  }

  /** A write replaces the bytes from its position on and lengthens the file if it must. */
  lemma OverwriteExactly(data: seq<Byte>, pos: nat, p: seq<Byte>, i: nat)
    requires pos <= |data|
    ensures var r := Overwrite(data, pos, p);
      && |r| == (if pos + |p| < |data| then |data| else pos + |p|)
      && (i < |r| ==> r[i] == if pos <= i < pos + |p| then p[i - pos] else data[i])
  {
  }

  lemma PrefixTransitive(a: seq<Byte>, b: seq<Byte>, c: seq<Byte>)
    requires a <= b <= c
    ensures a <= c
  {
  }

  /** A file, or the writing end of a pipe, which is never repositioned. */
  class File {
    var data: seq<Byte>
    var pos: nat
    var closed: bool
    /** While it is open, writing and closing never fail. */
    const reliable: bool

    constructor (reliable: bool)
      ensures data == [] && pos == 0 && !closed && this.reliable == reliable
    {
      data, pos, closed, this.reliable := [], 0, false, reliable;
    }

    predicate AtEnd()
      reads this
    {
      pos == |data|
    }

    predicate Sound()
      reads this
    {
      reliable && !closed
    }

    /** A write may fail after any part of it; on a closed file it does nothing. */
    method Write(p: seq<Byte>) returns (ok: bool)
      requires pos <= |data|
      modifies this
      ensures pos <= |data| && (old(AtEnd()) ==> AtEnd()) && closed == old(closed)
      ensures old(Sound()) ==> ok
      ensures closed ==> !ok && data == old(data)
      ensures ok ==> data == Overwrite(old(data), old(pos), p)
      ensures old(AtEnd()) ==> old(data) <= data <= old(data) + p
    {
      if closed {
        return false;
      }
      var n := |p|;
      if !reliable {
        var k: nat :| k <= |p|;
        n := k;
      }
      ok := n == |p|;
      data := Overwrite(data, pos, p[..n]);
      pos := pos + n;
      assert p[..|p|] == p;
    }

    method Close() returns (ok: bool)
      modifies this`closed
      ensures closed && (old(Sound()) ==> ok)
    {
      ok := *;
      ok := ok || (reliable && !closed);
      closed := true;
    }
  }

  datatype RtpInput = NilPacket | RtpPacket(timestamp: U32, payload: seq<Byte>)

  /** The page Close writes. */
  function EosPage(serial: U32, granule: U64, index: U32, payload: seq<Byte>): Page
  {
    Page(END_OF_STREAM, granule, serial, index, payload)
  }

  /** What Close leaves of `data` when the last payload has `size` bytes: it steps back over one
      page header with a single lacing value. */
  function Closed(data: seq<Byte>, size: nat, eos: Page): seq<Byte>
    requires size + PAGE_HEADER_SIZE + 1 <= |data|
  {
    data[..|data| - (size + PAGE_HEADER_SIZE + 1)] + Encode(eos)
  }

  /** The page Close is to leave at the end: the last one, with the end-of-stream mark. */
  function Marked(last: Page): Page
  {
    last.(headerType := END_OF_STREAM)
  }

  function MarkLast(pages: seq<Page>): seq<Page>
    requires pages != []
  {
    pages[..|pages| - 1] + [Marked(pages[|pages| - 1])]
  }

  /** The general shape of the rewrite: the new page starts as many bytes late as the old page
      has lacing values beyond one, and the file grows by that amount. */
  lemma ClosedShape(front: seq<Byte>, last: Page, eos: Page)
    requires eos.payload == last.payload
    ensures var data := front + Encode(last); var late := Segments(|last.payload|) - 1;
      var size := |last.payload|;
      && data[|data| - size..] == last.payload
      && Closed(data, size, eos) == front + Encode(last)[..late] + Encode(eos)
      && |Closed(data, size, eos)| == |data| + late
  {
    hide Encode;
    var data, page := front + Encode(last), Encode(last);
    var n, size := Segments(|last.payload|), |last.payload|;
    PayloadAtEnd(last);
    assert |page| - (size + 28) == n - 1;
    assert data[|data| - size..] == page[27 + n..];
    assert data[..|front| + (n - 1)] == front + page[..n - 1];
  }

  lemma PayloadAtEnd(p: Page)
    ensures Encode(p)[27 + Segments(|p.payload|)..] == p.payload
  {
    PageFields(p, CrcField(Checksum(PageWith(p, Zeros(4)))));
  }

  /** The page Close writes has the length of the last page, and agrees with it outside header
      type and checksum exactly if the writer's granule is still the one of that page. */
  lemma EosChangesTwoFields(last: Page, granule: U64)
    ensures var eos := EosPage(last.serial, granule, last.index, last.payload);
      && |Encode(eos)| == |Encode(last)|
      && ((forall i :: 0 <= i < |Encode(last)| && i != 5 && !(22 <= i < 26) ==> Encode(eos)[i] == Encode(last)[i])
          <==> granule == last.granule)
  {
    var eos := EosPage(last.serial, granule, last.index, last.payload);
    var x, y := Encode(last), Encode(eos);
    assert Back(eos) == Back(last);
    GranuleField(last);
    GranuleField(eos);
    SameTail(last, eos);
    if forall i :: 0 <= i < |x| && i != 5 && !(22 <= i < 26) ==> y[i] == x[i] {
      hide Encode;
      assert x[6..14] == y[6..14];
    }
    if granule == last.granule {
      assert forall i :: 0 <= i < 22 && i != 5 ==> Front(eos)[i] == Front(last)[i];
      assert forall i :: 0 <= i < 22 ==> x[i] == Front(last)[i] && y[i] == Front(eos)[i];
    }
  }

  lemma GranuleField(p: Page)
    ensures |Encode(p)| >= 14 && FromLittleEndian(Encode(p)[6..14]) == p.granule
  {
    PageFields(p, CrcField(Checksum(PageWith(p, Zeros(4)))));
    Pow256Values();
    LittleEndianRoundTrip(p.granule, 8);
  }

  lemma SameTail(a: Page, b: Page)
    requires Back(a) == Back(b)
    ensures |Encode(a)| == |Encode(b)| && forall i :: 26 <= i < |Encode(a)| ==> Encode(a)[i] == Encode(b)[i]
  {
    assert Encode(a)[26..] == Back(a) && Encode(b)[26..] == Back(b);
    hide Encode;
    forall i | 26 <= i < |Encode(a)| ensures Encode(a)[i] == Encode(b)[i] {
      assert Encode(a)[26..][i - 26] == Encode(a)[i] && Encode(b)[26..][i - 26] == Encode(b)[i];
    }
  }

  /** A page header that starts late, behind a fragment of the old page, is not taken for the
      intended page: either the signature is broken or the header type is another one. */
  lemma LateHeader(last: Page, eos: Page, offset: nat)
    requires eos.headerType == END_OF_STREAM && last.headerType == CONTINUATION
    requires 255 <= |last.payload|
    ensures var late := Segments(|last.payload|) - 1;
      var r := ParsePages(Encode(last)[..late] + Encode(eos), offset);
      r.Ok? ==> |r.value| > 0 && r.value[0].page.headerType != END_OF_STREAM
  {
    hide ParsePages, PageLength, Decode, Encode;
    var data := Encode(last)[..Segments(|last.payload|) - 1] + Encode(eos);
    LateType(last, eos);
    ParseStep(data, offset);
    var l := PageLength(data, offset);
    if l.Ok? {
      LateSignature(data, offset);
      DecodedType(data[..l.value]);
      assert data[..l.value][5] == data[5];
    }
  }

  lemma DecodedType(page: seq<Byte>)
    requires |page| >= PAGE_HEADER_SIZE && |page| >= PAGE_HEADER_SIZE + page[26]
    ensures Decode(page).page.headerType == page[5]
  {
  }

  lemma LateType(last: Page, eos: Page)
    requires eos.headerType == END_OF_STREAM && last.headerType == CONTINUATION
    requires 255 <= |last.payload|
    ensures var data := Encode(last)[..Segments(|last.payload|) - 1] + Encode(eos);
      data[0] == 79 && data[1] == 103 && data[2] == 103 && data[3] == 83 ==> data[5] != END_OF_STREAM
  {
    LeadingBytes(last);
    LeadingBytes(eos);
    hide Encode;
    var late := Segments(|last.payload|) - 1;
    var data := Encode(last)[..late] + Encode(eos);
    if late >= 6 {
      assert data[5] == CONTINUATION;
    } else {
      assert data[late] == 79 && data[late + 1] == 103;
    }
  }

  lemma LateSignature(data: seq<Byte>, offset: nat)
    requires PageLength(data, offset).Ok?
    ensures data[..4] == SIGNATURE && data[0] == 79 && data[1] == 103 && data[2] == 103 && data[3] == 83
  {
    assert data[..4][0] == data[0] && data[..4][1] == data[1] && data[..4][2] == data[2] && data[..4][3] == data[3];
  }

  lemma LeadingBytes(p: Page)
    ensures var s := Encode(p);
      s[0] == 79 && s[1] == 103 && s[2] == 103 && s[3] == 83 && s[4] == 0 && s[5] == p.headerType
  {
  }

  /** Close on any file of written pages, whatever granule the writer holds by then. Earlier
      pages stay. The file then parses to the same pages with the last one marked exactly when
      the earlier pages fit, the last payload has a single lacing value, and the writer's granule
      is the one of the last page. */
  lemma CloseRewrites(pages: seq<Page>, last: Page, granule: U64)
    requires last.headerType == CONTINUATION
    ensures EncodeAll(pages + [last]) == EncodeAll(pages) + Encode(last)
    ensures var eos := EosPage(last.serial, granule, last.index, last.payload);
      var data := EncodeAll(pages + [last]);
      var closed := Closed(data, |last.payload|, eos);
      && |closed| == |data| + Segments(|last.payload|) - 1
      && closed[..|EncodeAll(pages)|] == EncodeAll(pages)
      && (|last.payload| < 255 ==> closed == EncodeAll(pages + [eos]))
      && (ParsePages(closed, 0) == Ok(Expected(pages + [Marked(last)])) <==>
            Fits(pages) && |last.payload| < 255 && granule == last.granule)
  {
    hide Encode, EncodeAll, ParsePages, Expected, Closed, Fits;
    var eos := EosPage(last.serial, granule, last.index, last.payload);
    var front, fragment := EncodeAll(pages), Encode(last)[..Segments(|last.payload|) - 1];
    EncodeAllSnoc(pages, last);
    EncodeAllSnoc(pages, eos);
    ClosedShape(front, last, eos);
    SeqAssociative(front, fragment, Encode(eos));
    if |last.payload| < 255 {
      assert fragment == [] && front + fragment == front;
    }
    if !Fits(pages) {
      UnfitLost(pages, fragment + Encode(eos), [Marked(last)]);
    } else if |last.payload| < 255 {
      CloseInPlace(pages, last, eos);
    } else {
      CloseLate(pages, last, eos);
    }
  }

  lemma CloseInPlace(pages: seq<Page>, last: Page, eos: Page)
    requires Fits(pages) && |last.payload| < 255 && eos.payload == last.payload
    ensures ParsePages(EncodeAll(pages + [eos]), 0) == Ok(Expected(pages + [Marked(last)])) <==> eos == Marked(last)
  {
    hide ParsePages, EncodeAll, Expected;
    PageStreamRoundTrip(pages + [eos]);
    assert Expected(pages + [eos])[|pages|].page == (pages + [eos])[|pages|];
    assert Expected(pages + [Marked(last)])[|pages|].page == (pages + [Marked(last)])[|pages|];
  }

  lemma CloseLate(pages: seq<Page>, last: Page, eos: Page)
    requires Fits(pages) && last.headerType == CONTINUATION
    requires 255 <= |last.payload|
    requires eos.headerType == END_OF_STREAM
    ensures ParsePages(EncodeAll(pages) + (Encode(last)[..Segments(|last.payload|) - 1] + Encode(eos)), 0)
         != Ok(Expected(pages + [Marked(last)]))
  {
    hide ParsePages, Encode;
    var tail := Encode(last)[..Segments(|last.payload|) - 1] + Encode(eos);
    var n := |EncodeAll(pages)|;
    ParseAfterPages(pages, tail, 0);
    LateHeader(last, eos, n);
    var r := ParsePages(tail, n);
    if r.Ok? {
      assert (Expected(pages) + r.value)[|pages|] == r.value[0];
      assert (pages + [Marked(last)])[|pages|] == Marked(last);
      assert Expected(pages + [Marked(last)])[|pages|].page == Marked(last);
    }
  }

  /** The payload of the last page written. */
  function LastPayload(packets: seq<seq<Byte>>): seq<Byte>
  {
    if packets == [] then CommentHeader() else packets[|packets| - 1]
  }

  lemma LastPayloads(packets: seq<seq<Byte>>, p: seq<Byte>)
    ensures |LastPayload([])| == 21 && LastPayload(packets + [p]) == p
  {
  }

  /** What Close makes of the file of a started stream. */
  function ClosedStream(serial: U32, sampleRate: U32, channelCount: nat, packets: seq<seq<Byte>>): seq<Byte>
    requires AllReadable(packets)
  {
    var data := EncodeAll(OggStream(serial, sampleRate, channelCount, packets));
    var eos := EosPage(serial, GranuleAfter(1, packets), Prev32((2 + |packets|) % TWO32), LastPayload(packets));
    StreamEnd(serial, sampleRate, channelCount, packets);
    Closed(data, |LastPayload(packets)|, eos)
  }

  /** How a stream ends, before Close. */
  lemma StreamEnd(serial: U32, sampleRate: U32, channelCount: nat, packets: seq<seq<Byte>>)
    requires AllReadable(packets)
    ensures var pages := OggStream(serial, sampleRate, channelCount, packets); var n := |packets| + 1;
      && |pages| == n + 1 && pages == pages[..n] + [pages[n]]
      && pages[n] == Page(CONTINUATION, if packets == [] then 0 else GranuleAfter(1, packets), serial,
                          Prev32((2 + |packets|) % TWO32), LastPayload(packets))
      && EncodeAll(pages) == EncodeAll(pages[..n]) + Encode(pages[n])
      && |LastPayload(packets)| + PAGE_HEADER_SIZE + 1 <= |EncodeAll(pages)|
  {
    hide EncodeAll, Encode, IdHeader, CommentHeader, AudioPages, GranuleAfter;
    var pages, n := OggStream(serial, sampleRate, channelCount, packets), |packets| + 1;
    if packets != [] {
      AudioPageAt(serial, 1, 2, packets, |packets| - 1);
      assert packets[..|packets|] == packets;
    }
    EncodeAllSnoc(pages[..n], pages[n]);
  }

  predicate AllFit(packets: seq<seq<Byte>>)
  {
    forall i :: 0 <= i < |packets| ==> |packets[i]| <= MAX_PAGE_PAYLOAD
  }

  lemma AudioPagesFit(serial: U32, granule: U64, index: U32, packets: seq<seq<Byte>>)
    requires AllReadable(packets)
    ensures Fits(AudioPages(serial, granule, index, packets)) <==> AllFit(packets)
  {
    hide GranuleAfter;
    var audio := AudioPages(serial, granule, index, packets);
    forall k | 0 <= k < |packets| ensures audio[k].payload == packets[k] {
      AudioPageAt(serial, granule, index, packets, k);
    }
    hide AudioPages;
    if Fits(audio) {
      assert forall k :: 0 <= k < |packets| ==> |audio[k].payload| <= MAX_PAGE_PAYLOAD;
    }
  }

  lemma FitsAppend(a: seq<Page>, b: seq<Page>)
    ensures Fits(a + b) <==> Fits(a) && Fits(b)
  {
    assert forall i :: 0 <= i < |a| ==> (a + b)[i] == a[i];
    assert forall i :: 0 <= i < |b| ==> (a + b)[|a| + i] == b[i];
  }

  /** A stream fits exactly when its packets do. */
  lemma StreamFits(serial: U32, sampleRate: U32, channelCount: nat, packets: seq<seq<Byte>>)
    requires AllReadable(packets)
    ensures Fits(OggStream(serial, sampleRate, channelCount, packets)) <==> AllFit(packets)
  {
    hide IdHeader, CommentHeader, AudioPages, AllFit;
    AudioPagesFit(serial, 1, 2, packets);
    FitsAppend(HeaderPages(serial, 0, sampleRate, channelCount), AudioPages(serial, 1, 2, packets));
  }

  /** A closed stream reads back with its last page marked exactly when there is a packet, every
      packet fits into a page, and the last one has fewer than 255 bytes. Without a packet, the
      page of the comment header ends up with granule 1 instead of 0. */
  lemma ClosedStreamReadsBack(serial: U32, sampleRate: U32, channelCount: nat, packets: seq<seq<Byte>>)
    requires AllReadable(packets)
    ensures var pages := OggStream(serial, sampleRate, channelCount, packets);
      ParsePages(ClosedStream(serial, sampleRate, channelCount, packets), 0) == Ok(Expected(MarkLast(pages))) <==>
        packets != [] && AllFit(packets) && |packets[|packets| - 1]| < 255
  {
    hide Encode, EncodeAll, Expected, ParsePages, IdHeader, AudioPages, TotalDuration, Closed, Fits, OggStream;
    var pages, n := OggStream(serial, sampleRate, channelCount, packets), |packets| + 1;
    StreamEnd(serial, sampleRate, channelCount, packets);
    CloseRewrites(pages[..n], pages[n], GranuleAfter(1, packets));
    StreamFits(serial, sampleRate, channelCount, packets);
    FitsAppend(pages[..n], [pages[n]]);
    if packets == [] {
      assert GranuleAfter(1, packets) == 1 by {
        NoDuration();
      }
    } else {
      assert |packets[|packets| - 1]| < 255 ==> Fits([pages[n]]) by {
        OneFits(pages[n]);
      }
    }
  }

  lemma OneFits(p: Page)
    ensures Fits([p]) <==> |p.payload| <= MAX_PAGE_PAYLOAD
  {
    assert [p][0] == p;
  }

  lemma NoDuration()
    ensures GranuleAfter(1, []) == 1
  {
  }

  /** What is read back from a recording that is closed before its first packet. */
  lemma HeadersClosed(serial: U32, sampleRate: U32, channelCount: nat)
    ensures var h := HeaderPages(serial, 0, sampleRate, channelCount);
      var eos := Marked(h[1]).(granule := 1);
      && ParsePages(ClosedStream(serial, sampleRate, channelCount, []), 0) == Ok(Expected([h[0], eos]))
      && ParsePages(ClosedStream(serial, sampleRate, channelCount, []), 0) != Ok(Expected(MarkLast(h)))
  {
    hide Encode, EncodeAll, Expected, ParsePages, IdHeader, CommentHeader, Closed;
    var h := HeaderPages(serial, 0, sampleRate, channelCount);
    var eos := Marked(h[1]).(granule := 1);
    OggStreamOfNothing(serial, sampleRate, channelCount);
    StreamEnd(serial, sampleRate, channelCount, []);
    CloseRewrites([h[0]], h[1], 1);
    assert [h[0]] + [h[1]] == h && h[..1] == [h[0]] && [h[0]] + [eos] == [h[0], eos];
    PageStreamRoundTrip([h[0], eos]);
    ClosedStreamReadsBack(serial, sampleRate, channelCount, []);
  }

  class OggWriter {
    /** Where pages go; null after Close. */
    var stream: File?
    /** Whether the stream is a multi-writer, which has no Close of its own. */
    const multi: bool
    /** If not null, `stream` is the second part of a multi-writer: all data goes to `copy` first. */
    var copy: File?
    var fd: File?
    const sampleRate: U32
    const channelCount: nat
    const serial: U32
    var pageIndex: U32
    const checksumTable: array<Word>
    var previousGranulePosition: U64
    var previousTimestamp: U32
    var lastPayloadSize: nat

    predicate Apart()
      reads this
    {
      copy != null ==> multi && stream != null && copy != stream
    }

    /** No write to the stream fails. */
    predicate Sound()
      reads this, stream, copy
    {
      stream != null && stream.Sound() && (copy != null ==> copy.Sound())
    }

    ghost predicate Valid()
      reads this, checksumTable, stream, copy
    {
      && IsChecksumTable(checksumTable[..])
      && Apart()
      && (stream != null ==> stream.AtEnd())
      && (copy != null ==> copy.AtEnd())
    }

    constructor (out: File, multi: bool, copy: File?, sampleRate: U32, channelCount: nat, serial: U32)
      requires out.AtEnd() && (copy != null ==> multi && copy.AtEnd() && copy != out)
      ensures Valid() && stream == out && this.multi == multi && this.copy == copy && fd == null
      ensures this.sampleRate == sampleRate && this.channelCount == channelCount && this.serial == serial
      ensures pageIndex == 0 && previousGranulePosition == 1 && previousTimestamp == 1
      ensures lastPayloadSize == 0 && fresh(checksumTable)
    {
      var table := GenerateChecksumTable();
      this.stream, this.multi, this.copy, this.fd := out, multi, copy, null;
      this.sampleRate, this.channelCount, this.serial := sampleRate, channelCount, serial;
      this.checksumTable := table;
      this.previousTimestamp, this.previousGranulePosition := 1, 1;
      this.pageIndex, this.lastPayloadSize := 0, 0;
    }

    /** A new writer that has not written anything; there is none without an output. */
    static method NewWithoutHeader(out: File?, multi: bool, copy: File?,
                                   sampleRate: U32, channelCount: nat, serial: U32)
      returns (w: OggWriter?)
      requires out != null ==> out.AtEnd()
      requires copy != null ==> multi && copy.AtEnd() && out != null && copy != out
      ensures w == null <==> out == null
      ensures w != null ==>
        && fresh(w) && w.Valid() && w.stream == out && w.multi == multi && w.copy == copy && w.fd == null
        && w.sampleRate == sampleRate && w.channelCount == channelCount && w.serial == serial
        && w.pageIndex == 0 && w.previousGranulePosition == 1 && w.previousTimestamp == 1
        && w.lastPayloadSize == 0 && fresh(w.checksumTable)
    {
      if out == null {
        return null;
      }
      w := new OggWriter(out, multi, copy, sampleRate, channelCount, serial);
    }

    static method FillFront(page: array<Byte>, p: Page)
      requires page.Length >= 22
      modifies page
      ensures page[..22] == Front(p)
      ensures forall k :: 22 <= k < page.Length ==> page[k] == old(page[k])
    {
      hide LittleEndian;
      Copy(page, 0, SIGNATURE);
      page[4] := 0;
      page[5] := p.headerType;
      Copy(page, 6, LittleEndian(p.granule, 8));
      Copy(page, 14, LittleEndian(p.serial, 4));
      Copy(page, 18, LittleEndian(p.index, 4));
      assert page[..6] == SIGNATURE + [0, p.headerType];
      assert page[..22] == page[..6] + page[6..14] + page[14..18] + page[18..22];
      assert page[6..14] == LittleEndian(p.granule, 8) && page[14..18] == LittleEndian(p.serial, 4);
    }

    static method FillBack(page: array<Byte>, payload: seq<Byte>)
      requires page.Length == PAGE_HEADER_SIZE + Segments(|payload|) + |payload|
      modifies page
      ensures page[26..] == [Segments(|payload|) % 256] + Lacing(|payload|) + payload
      ensures forall k :: 0 <= k < 26 ==> page[k] == old(page[k])
    {
      var nSegments := |payload| / 255 + 1;
      page[26] := nSegments % 256;
      for i := 0 to nSegments - 1
        invariant page[26] == nSegments % 256
        invariant forall k :: PAGE_HEADER_SIZE <= k < PAGE_HEADER_SIZE + i ==> page[k] == 255
        invariant forall k :: 0 <= k < 26 ==> page[k] == old(page[k])
      {
        page[PAGE_HEADER_SIZE + i] := 255;
      }
      page[PAGE_HEADER_SIZE + nSegments - 1] := |payload| % 255;
      Copy(page, PAGE_HEADER_SIZE + nSegments, payload);
      assert page[27..27 + nSegments] == Lacing(|payload|);
      assert page[26..] == [page[26]] + page[27..27 + nSegments] + page[27 + nSegments..];
    }

    method CreatePage(payload: seq<Byte>, headerType: Byte, granulePos: U64, index: U32) returns (page: array<Byte>)
      requires IsChecksumTable(checksumTable[..])
      modifies this`lastPayloadSize
      ensures fresh(page)
      ensures lastPayloadSize == |payload|
      ensures page[..] == Encode(Page(headerType, granulePos, serial, index, payload))
    {
      hide Front, Checksum;
      ghost var p := Page(headerType, granulePos, serial, index, payload);
      lastPayloadSize := |payload|;
      page := new Byte[PAGE_HEADER_SIZE + lastPayloadSize + (|payload| / 255 + 1)](_ => 0);
      FillFront(page, Page(headerType, granulePos, serial, index, payload));
      FillBack(page, payload);
      assert page[..22] == Front(p) && page[22..26] == Zeros(4) && page[26..] == Back(p);
      assert page[..] == page[..22] + page[22..26] + page[26..];
      var checksum := ComputeChecksum(checksumTable, page);
      Copy(page, 22, CrcField(checksum));
      assert page[..22] == Front(p) && page[26..] == Back(p);
      assert page[..] == page[..22] + page[22..26] + page[26..];
    }

    /** A multi-writer hands all data to its first part, and only then to the second. */
    method WriteToStream(p: seq<Byte>) returns (ok: bool)
      requires Apart()
      requires stream != null ==> stream.pos <= |stream.data|
      requires copy != null ==> copy.pos <= |copy.data|
      modifies stream, copy
      ensures stream == null ==> !ok
      ensures old(Sound()) ==> ok
      ensures stream != null ==> stream.closed == old(stream.closed) && (old(stream.AtEnd()) ==> stream.AtEnd())
      ensures copy != null ==> copy.closed == old(copy.closed) && (old(copy.AtEnd()) ==> copy.AtEnd())
      ensures ok ==> !stream.closed && stream.data == Overwrite(old(stream.data), old(stream.pos), p)
      ensures ok && copy != null ==> copy.data == Overwrite(old(copy.data), old(copy.pos), p)
      ensures stream != null && stream.closed ==> stream.data == old(stream.data)
      ensures copy != null && (old(copy.Sound()) || stream.data != old(stream.data)) ==>
        copy.data == Overwrite(old(copy.data), old(copy.pos), p)
      ensures copy != null && old(copy.AtEnd() && stream.AtEnd() && stream.data == copy.data) ==>
        stream.data <= copy.data
      ensures stream != null && old(stream.AtEnd()) ==> old(stream.data) <= stream.data <= old(stream.data) + p
      ensures copy != null && old(copy.AtEnd()) ==> old(copy.data) <= copy.data <= old(copy.data) + p
    {
      if stream == null {
        return false;
      }
      if copy != null {
        ok := copy.Write(p);
        if !ok {
          return;
        }
      }
      ok := stream.Write(p);
    }

    /** Writes both header pages. After a failure, a part of them is written. */
    method WriteHeaders() returns (ok: bool)
      requires Valid()
      modifies this`pageIndex, this`lastPayloadSize, stream, copy
      ensures Valid()
      ensures stream == null ==> !ok
      ensures old(Sound()) ==> ok
      ensures stream != null ==> stream.closed == old(stream.closed)
      ensures copy != null ==> copy.closed == old(copy.closed)
      ensures ok ==> pageIndex == Next32(Next32(old(pageIndex))) && lastPayloadSize == 21
      ensures copy != null && old(stream.data == copy.data) ==> stream.data <= copy.data
      ensures copy != null && old(copy.Sound()) && !ok ==>
        var pages := HeaderPages(serial, old(pageIndex), sampleRate, channelCount);
        if pageIndex == old(pageIndex) then lastPayloadSize == 19 && copy.data == old(copy.data) + Encode(pages[0])
        else pageIndex == Next32(old(pageIndex)) && lastPayloadSize == 21
             && copy.data == old(copy.data) + EncodeAll(pages)
      ensures var all := EncodeAll(HeaderPages(serial, old(pageIndex), sampleRate, channelCount));
        && (ok ==> stream.data == old(stream.data) + all && (copy != null ==> copy.data == old(copy.data) + all))
        && (stream != null ==> old(stream.data) <= stream.data <= old(stream.data) + all)
        && (copy != null ==> old(copy.data) <= copy.data <= old(copy.data) + all)
    {
      hide Encode, EncodeAll, IdHeader, CommentHeader, IsChecksumTable, Overwrite;
      ghost var pages := HeaderPages(serial, pageIndex, sampleRate, channelCount);
      ghost var p0, p1 := Encode(pages[0]), Encode(pages[1]);
      ghost var start := if stream == null then [] else stream.data;
      ghost var first := if copy == null then [] else copy.data;
      EncodePair(pages[0], pages[1]);
      var idHeader := MakeIdHeader();
      ok := WriteHeaderPage(idHeader, BEGINNING_OF_STREAM);
      TwoParts(start, p0, p1, if stream == null then [] else stream.data);
      TwoParts(first, p0, p1, if copy == null then [] else copy.data);
      if !ok {
        return;
      }
      var commentHeader := MakeCommentHeader();
      ok := WriteHeaderPage(commentHeader, CONTINUATION);
      TwoParts(start, p0, p1, if stream == null then [] else stream.data);
      TwoParts(first, p0, p1, if copy == null then [] else copy.data);
    }

    /** One header page; it is counted only when it has been written. */
    method WriteHeaderPage(payload: seq<Byte>, headerType: Byte) returns (ok: bool)
      requires Valid()
      modifies this`pageIndex, this`lastPayloadSize, stream, copy
      ensures Valid() && lastPayloadSize == |payload|
      ensures stream == null ==> !ok
      ensures old(Sound()) ==> ok
      ensures stream != null ==> stream.closed == old(stream.closed)
      ensures copy != null ==> copy.closed == old(copy.closed)
      ensures pageIndex == if ok then Next32(old(pageIndex)) else old(pageIndex)
      ensures copy != null && old(stream.data == copy.data) ==> stream.data <= copy.data
      ensures var p := Encode(Page(headerType, 0, serial, old(pageIndex), payload));
        && (ok ==> stream.data == old(stream.data) + p)
        && (copy != null && (ok || old(copy.Sound())) ==> copy.data == old(copy.data) + p)
        && (stream != null ==> old(stream.data) <= stream.data <= old(stream.data) + p)
        && (copy != null ==> old(copy.data) <= copy.data <= old(copy.data) + p)
    {
      hide Encode, IsChecksumTable;
      var data := CreatePage(payload, headerType, 0, pageIndex);
      ok := WriteToStream(data[..]);
      if ok {
        pageIndex := (pageIndex + 1) % TWO32;
      }
    }

    method MakeIdHeader() returns (header: seq<Byte>)
      ensures header == IdHeader(sampleRate, channelCount)
    {
      hide LittleEndian;
      var a := new Byte[19](_ => 0);
      Copy(a, 0, ID_SIGNATURE);
      a[8] := 1;
      a[9] := channelCount % 256;
      assert a[..10] == ID_SIGNATURE + [1, channelCount % 256];
      Copy(a, 10, LittleEndian(DEFAULT_PRE_SKIP, 2));
      Copy(a, 12, LittleEndian(sampleRate, 4));
      a[16], a[17] := 0, 0;
      a[18] := 0;
      header := a[..];
      assert header[..10] == ID_SIGNATURE + [1, channelCount % 256] && header[16..] == [0, 0, 0];
      assert header[10..12] == LittleEndian(DEFAULT_PRE_SKIP, 2) && header[12..16] == LittleEndian(sampleRate, 4);
      assert header == header[..10] + header[10..12] + header[12..16] + [0, 0, 0];
    }

    method MakeCommentHeader() returns (header: seq<Byte>)
      ensures header == CommentHeader()
    {
      var a := new Byte[21](_ => 0);
      Copy(a, 0, COMMENT_SIGNATURE);
      Copy(a, 8, LittleEndian(5, 4));
      Copy(a, 12, VENDOR);
      Copy(a, 17, LittleEndian(0, 4));
      header := a[..];
      assert header[..8] == COMMENT_SIGNATURE && header[8..12] == LittleEndian(5, 4);
      assert header[12..16] == VENDOR && header[16] == 0 && header[17..] == LittleEndian(0, 4);
      assert header == header[..8] + header[8..12] + header[12..16] + [header[16]] + header[17..];
    }

    /** Writes one packet as one page. The granule and the page index advance even when the
        write fails. */
    method Write(payload: seq<Byte>) returns (ok: bool)
      requires Valid() && Readable(payload)
      modifies this`previousGranulePosition, this`pageIndex, this`lastPayloadSize, stream, copy
      ensures Valid()
      ensures previousGranulePosition == (old(previousGranulePosition) + Duration(payload)) % TWO64
      ensures pageIndex == Next32(old(pageIndex)) && lastPayloadSize == |payload|
      ensures stream == null ==> !ok
      ensures old(Sound()) ==> ok
      ensures stream != null ==> stream.closed == old(stream.closed)
      ensures copy != null ==> copy.closed == old(copy.closed)
      ensures var p := Encode(AudioPage(serial, old(previousGranulePosition), old(pageIndex), payload));
        && (ok ==> stream.data == old(stream.data) + p && (copy != null ==> copy.data == old(copy.data) + p))
        && (stream != null ==> old(stream.data) <= stream.data <= old(stream.data) + p)
        && (copy != null ==> old(copy.data) <= copy.data <= old(copy.data) + p)
        && (copy != null && old(copy.Sound()) ==> copy.data == old(copy.data) + p)
    {
      hide Encode, IsChecksumTable;
      var config := Config(payload[0]);
      var c := payload[0] % 4;
      var count := 0;
      if c == 0 {
        count := 1;
      } else if c == 1 || c == 2 {
        count := 2;
      } else {
        count := payload[1] % 64;
      }
      previousGranulePosition := (previousGranulePosition + count * GranulePosition(config)) % TWO64;
      var data := CreatePage(payload, CONTINUATION, previousGranulePosition, pageIndex);
      pageIndex := (pageIndex + 1) % TWO32;
      ok := WriteToStream(data[..]);
    }

    /** Writes an RTP packet; the granule follows the RTP clock. An empty payload is skipped. */
    method WriteRTP(packet: RtpInput) returns (ok: bool)
      requires Valid()
      modifies this`previousGranulePosition, this`previousTimestamp, this`pageIndex, this`lastPayloadSize, stream, copy
      ensures Valid()
      ensures packet.NilPacket? ==> !ok
      ensures packet.RtpPacket? && old(Sound()) ==> ok
      ensures stream != null ==> stream.closed == old(stream.closed)
      ensures copy != null ==> copy.closed == old(copy.closed)
      ensures packet.NilPacket? || packet.payload == [] ==>
        && previousGranulePosition == old(previousGranulePosition)
        && previousTimestamp == old(previousTimestamp)
        && pageIndex == old(pageIndex) && lastPayloadSize == old(lastPayloadSize)
        && (stream != null ==> stream.data == old(stream.data))
        && (copy != null ==> copy.data == old(copy.data))
      ensures packet.RtpPacket? && packet.payload == [] ==> ok
      ensures packet.RtpPacket? && packet.payload != [] ==>
        var g := ClockStep(old(previousGranulePosition), old(previousTimestamp), packet.timestamp);
        var p := Encode(Page(CONTINUATION, g, serial, old(pageIndex), packet.payload));
        && previousGranulePosition == g
        && previousTimestamp == packet.timestamp
        && pageIndex == Next32(old(pageIndex)) && lastPayloadSize == |packet.payload|
        && (stream == null ==> !ok)
        && (ok ==> stream.data == old(stream.data) + p && (copy != null ==> copy.data == old(copy.data) + p))
        && (stream != null ==> old(stream.data) <= stream.data <= old(stream.data) + p)
        && (copy != null ==> old(copy.data) <= copy.data <= old(copy.data) + p)
    {
      hide Encode, IsChecksumTable;
      if packet.NilPacket? {
        return false;
      }
      if |packet.payload| == 0 {
        return true;
      }
      if previousTimestamp != 1 {
        var increment := (packet.timestamp - previousTimestamp) % TWO32;
        previousGranulePosition := (previousGranulePosition + increment) % TWO64;
      }
      previousTimestamp := packet.timestamp;
      var data := CreatePage(packet.payload, CONTINUATION, previousGranulePosition, pageIndex);
      pageIndex := (pageIndex + 1) % TWO32;
      ok := WriteToStream(data[..]);
    }

    /** Marks the last page of a file as the end of the stream, in place, and closes the file.
        The page goes through the whole stream, so an open second part of a multi-writer gets it
        too. Without a file it closes the stream, unless that is a multi-writer. */
    method Close() returns (ok: bool)
      requires Valid()
      requires fd != null ==> if copy != null then fd == copy else fd == stream
      modifies this`stream, this`copy, this`fd, this`lastPayloadSize, stream, copy
      ensures stream == null && copy == null && fd == null
      ensures old(fd) == null && old(stream) != null ==>
        && old(stream).data == old(stream.data)
        && old(stream).closed == (old(stream.closed) || !multi)
        && (multi || old(stream.Sound()) ==> ok)
        && (old(copy) != null ==> old(copy).data == old(copy.data) && old(copy).closed == old(copy.closed))
      ensures old(fd) != null && old(copy) != null ==> old(stream).closed == old(stream.closed)
      ensures old(fd) != null && old(stream.closed) ==> !ok && old(fd).closed == old(fd.closed)
      ensures old(fd) != null ==>
        var data := old(fd.data); var size := old(lastPayloadSize);
        if size + PAGE_HEADER_SIZE + 1 > |data| then
          !ok && old(fd).data == data && old(stream).data == old(stream.data)
        else
          var eos := EosPage(serial, previousGranulePosition, Prev32(pageIndex), data[|data| - size..]);
          && (old(Sound()) ==> ok)
          && (ok || old(fd.Sound()) ==> old(fd).data == Closed(data, size, eos))
          && (old(copy) != null ==> old(stream.data) <= old(stream).data <= old(stream.data) + Encode(eos))
          && (old(stream.closed) && old(copy) != null ==> old(stream).data == old(stream.data))
          && (ok ==> old(fd).closed)
    {
      hide Encode, IsChecksumTable;
      if fd == null {
        ok := true;
        if stream != null && !multi {
          ok := stream.Close();
        }
        stream, copy := null, null;
        return;
      }
      var size := lastPayloadSize;
      var back := size + PAGE_HEADER_SIZE + 1;
      if back > |fd.data| {
        stream, copy, fd := null, null, null;
        return false;
      }
      var pageOffset := |fd.data| - back;
      fd.pos := pageOffset;
      var payload := fd.data[pageOffset + PAGE_HEADER_SIZE + 1..];
      ghost var before := fd.data;
      var data := CreatePage(payload, END_OF_STREAM, previousGranulePosition, (pageIndex - 1) % TWO32);
      ok := WriteToStream(data[..]);
      assert Overwrite(before, pageOffset, data[..]) == before[..pageOffset] + data[..] by {
        NothingBehind(before, pageOffset, data[..]);
      }
      if ok {
        ok := fd.Close();
      }
      stream, copy, fd := null, null, null;
    }
  }

  lemma NothingBehind(data: seq<Byte>, pos: nat, p: seq<Byte>)
    requires pos <= |data| <= pos + |p|
    ensures Overwrite(data, pos, p) == data[..pos] + p
  {
  }

  /** A whole recording to a file: headers, packets, end-of-stream mark. Without write errors
      the file reads back as the stream with its last page marked, exactly when there is a
      packet, all packets fit into a page, and the last one has fewer than 255 bytes. */
  method Record(packets: seq<seq<Byte>>, sampleRate: U32, channelCount: nat, serial: U32, reliable: bool)
    returns (file: File, ok: bool)
    requires AllReadable(packets)
    ensures reliable ==> ok
    ensures ok ==> file.data == ClosedStream(serial, sampleRate, channelCount, packets)
    ensures var pages := OggStream(serial, sampleRate, channelCount, packets);
      ok ==> (ParsePages(file.data, 0) == Ok(Expected(MarkLast(pages))) <==>
                packets != [] && AllFit(packets) && |packets[|packets| - 1]| < 255)
  {
    hide Encode, EncodeAll, Expected, ParsePages, IdHeader, Duration, Closed, MarkLast, AllFit,
         OggStream, GranuleAfter, Overwrite, Readable, IsChecksumTable, ClosedStream, HeaderPages, LastPayload,
         CommentHeader;
    file := new File(reliable);
    var w := OggWriter.NewWithoutHeader(file, false, null, sampleRate, channelCount, serial);
    w.fd := file;
    ok := w.WriteHeaders();
    if !ok {
      return;
    }
    OggStreamOfNothing(serial, sampleRate, channelCount);
    LastPayloads([], []);
    assert packets[..0] == [] && [] + file.data == file.data;
    for k := 0 to |packets|
      invariant w.Valid() && w.stream == file && w.fd == file && w.copy == null
      invariant fresh(w) && fresh(file) && file.reliable == reliable && !file.closed
      invariant w.serial == serial && w.sampleRate == sampleRate && w.channelCount == channelCount
      invariant file.data == EncodeAll(OggStream(serial, sampleRate, channelCount, packets[..k]))
      invariant w.pageIndex == (2 + k) % TWO32
      invariant w.previousGranulePosition == GranuleAfter(1, packets[..k])
      invariant w.lastPayloadSize == |LastPayload(packets[..k])|
    {
      ok := w.Write(packets[k]);
      if !ok {
        return;
      }
      OggStreamSnoc(serial, sampleRate, channelCount, packets[..k], packets[k]);
      LastPayloads(packets[..k], packets[k]);
      assert packets[..k] + [packets[k]] == packets[..k + 1];
    }
    assert packets[..|packets|] == packets;
    ClosedStreamIs(serial, sampleRate, channelCount, packets);
    ClosedStreamReadsBack(serial, sampleRate, channelCount, packets);
    ok := w.Close();
  }

  /** The rewrite of a stream's own bytes, as Close performs it. */
  lemma ClosedStreamIs(serial: U32, sampleRate: U32, channelCount: nat, packets: seq<seq<Byte>>)
    requires AllReadable(packets)
    ensures var data := EncodeAll(OggStream(serial, sampleRate, channelCount, packets));
      var size := |LastPayload(packets)|;
      && size + PAGE_HEADER_SIZE + 1 <= |data|
      && ClosedStream(serial, sampleRate, channelCount, packets)
         == Closed(data, size, EosPage(serial, GranuleAfter(1, packets), Prev32((2 + |packets|) % TWO32),
                                       data[|data| - size..]))
  {
    hide EncodeAll, Encode, IdHeader, CommentHeader, OggStream, GranuleAfter, Closed;
    var pages, n := OggStream(serial, sampleRate, channelCount, packets), |packets| + 1;
    StreamEnd(serial, sampleRate, channelCount, packets);
    ClosedShape(EncodeAll(pages[..n]), pages[n], pages[n]);
  }

  /** An RTP packet with its true, unwrapped timestamp. */
  datatype TimedPacket = TimedPacket(time: nat, payload: seq<Byte>)

  function Times(packets: seq<TimedPacket>): (clock: seq<nat>)
    ensures |clock| == |packets|
  {
    seq(|packets|, i requires 0 <= i < |packets| => packets[i].time)
  }

  /** The packets that are written: those with a payload. */
  function Written(packets: seq<TimedPacket>): seq<TimedPacket>
  {
    if packets == [] then []
    else
      var n := |packets| - 1;
      Written(packets[..n]) + if packets[n].payload == [] then [] else [packets[n]]
  }

  /** The page of packet k carries the granule of the clock up to it. */
  function RtpPages(serial: U32, packets: seq<TimedPacket>): (pages: seq<Page>)
    ensures |pages| == |packets|
  {
    if packets == [] then []
    else
      var n := |packets| - 1;
      RtpPages(serial, packets[..n])
      + [Page(CONTINUATION, ClockGranule(Times(packets)), serial, (2 + n) % TWO32, packets[n].payload)]
  }

  /** Over a whole RTP recording: page k carries the k-th packet with a payload, the next sequence
      number, the granule of the clock up to it, and no header type. */
  lemma {:induction false} RtpPageAt(serial: U32, packets: seq<TimedPacket>, k: nat)
    requires k < |packets|
    ensures RtpPages(serial, packets)[k]
         == Page(0, ClockGranule(Times(packets[..k + 1])), serial, (2 + k) % 0x1_0000_0000, packets[k].payload)
    decreases |packets|
  {
    hide ClockGranule;
    var n := |packets| - 1;
    if k < n {
      RtpPageAt(serial, packets[..n], k);
      assert packets[..n][..k + 1] == packets[..k + 1];
    } else {
      assert packets[..k + 1] == packets;
    }
  }

  /** The packets written are those with a payload, in order and with their times. */
  lemma {:induction false} WrittenExactly(packets: seq<TimedPacket>, k: nat) returns (i: nat)
    requires k < |packets| && packets[k].payload != []
    ensures |Written(packets[..k])| == i < |Written(packets)| && Written(packets)[i] == packets[k]
    ensures forall j :: 0 <= j < |Written(packets)| ==> Written(packets)[j].payload != []
    decreases |packets|
  {
    i := |Written(packets[..k])|;
    NothingEmpty(packets);
    var n := |packets| - 1;
    if k < n {
      var _ := WrittenExactly(packets[..n], k);
      assert packets[..n][..k] == packets[..k];
    }
  }

  lemma {:induction false} NothingEmpty(packets: seq<TimedPacket>)
    ensures forall j :: 0 <= j < |Written(packets)| ==> Written(packets)[j].payload != []
    decreases |packets|
  {
    if packets != [] {
      NothingEmpty(packets[..|packets| - 1]);
    }
  }

  /** The wire timestamp the writer remembers. */
  function LastTimestamp(packets: seq<TimedPacket>): U32
  {
    if packets == [] then 1 else packets[|packets| - 1].time % TWO32
  }

  lemma ClockSnoc(packets: seq<TimedPacket>, p: TimedPacket)
    ensures ClockGranule(Times(packets + [p]))
         == ClockStep(ClockGranule(Times(packets)), LastTimestamp(packets), p.time % TWO32)
  {
    hide ClockStep;
    var clock, n := Times(packets + [p]), |packets|;
    assert clock[..n] == Times(packets) && clock[n] == p.time;
    assert n > 0 ==> clock[n - 1] == packets[n - 1].time;
  }

  lemma RtpStep(serial: U32, header: seq<Page>, packets: seq<TimedPacket>, p: TimedPacket)
    ensures var granule := ClockGranule(Times(packets + [p]));
      var page := Page(CONTINUATION, granule, serial, (2 + |packets|) % TWO32, p.payload);
      EncodeAll(header + RtpPages(serial, packets + [p]))
      == EncodeAll(header + RtpPages(serial, packets)) + Encode(page)
  {
    hide Encode, EncodeAll, ClockGranule;
    var all := packets + [p];
    var page := Page(CONTINUATION, ClockGranule(Times(all)), serial, (2 + |packets|) % TWO32, p.payload);
    assert all[..|packets|] == packets && all[|packets|] == p;
    SeqAssociative(header, RtpPages(serial, packets), [page]);
    EncodeAllSnoc(header + RtpPages(serial, packets), page);
  }

  lemma WrittenSnoc(packets: seq<TimedPacket>, n: nat)
    requires n < |packets|
    ensures Written(packets[..n + 1])
         == Written(packets[..n]) + if packets[n].payload == [] then [] else [packets[n]]
  {
    assert packets[..n + 1][..n] == packets[..n];
  }

  /** A whole RTP recording by a new writer: empty packets leave no trace, and every page carries
      the clock's granule, whose value ClockExact gives. */
  method RecordRtp(packets: seq<TimedPacket>, sampleRate: U32, channelCount: nat, serial: U32, reliable: bool)
    returns (file: File, granule: U64, ok: bool)
    ensures reliable ==> ok
    ensures ok ==> granule == ClockGranule(Times(Written(packets)))
    ensures var pages := HeaderPages(serial, 0, sampleRate, channelCount) + RtpPages(serial, Written(packets));
      ok ==> file.data == EncodeAll(pages)
  {
    hide Encode, EncodeAll, HeaderPages, IdHeader, CommentHeader, Overwrite, IsChecksumTable, ClockGranule, ClockStep,
         RtpPages, Written, Times;
    file := new File(reliable);
    var w := OggWriter.NewWithoutHeader(file, false, null, sampleRate, channelCount, serial);
    granule := 1;
    ok := w.WriteHeaders();
    if !ok {
      return;
    }
    ghost var header := HeaderPages(serial, 0, sampleRate, channelCount);
    ghost var live: seq<TimedPacket> := [];
    RtpNothing(serial, header);
    assert packets[..0] == [] && [] + file.data == file.data;
    for n := 0 to |packets|
      invariant w.Valid() && w.stream == file && w.copy == null && w.serial == serial
      invariant fresh(w) && fresh(file) && file.reliable == reliable && !file.closed
      invariant live == Written(packets[..n])
      invariant file.data == EncodeAll(header + RtpPages(serial, live))
      invariant w.pageIndex == (2 + |live|) % TWO32
      invariant w.previousGranulePosition == ClockGranule(Times(live))
      invariant w.previousTimestamp == LastTimestamp(live)
    {
      var p := packets[n];
      WrittenSnoc(packets, n);
      RtpStep(serial, header, live, p);
      ClockSnoc(live, p);
      assert live + [] == live;
      ok := w.WriteRTP(RtpPacket(p.time % TWO32, p.payload));
      if !ok {
        return;
      }
      if p.payload != [] {
        live := live + [p];
      }
    }
    assert packets[..|packets|] == packets;
    granule := w.previousGranulePosition;
  }

  lemma RtpNothing(serial: U32, header: seq<Page>)
    ensures Written([]) == [] && ClockGranule(Times([])) == 1
    ensures header + RtpPages(serial, []) == header
  {
    assert Times([]) == [];
  }
}
