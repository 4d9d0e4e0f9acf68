/** The layout of an Ogg page that carries one packet (section 6 of RFC 3533), and a parser for
    streams of pages. */
module OggPage {
  import opened Bytes
  import opened Weights
  import opened Crc

  const PAGE_HEADER_SIZE := 27
  /** The longest payload whose segment count fits in one byte: 254 full segments and a short one. */
  const MAX_PAGE_PAYLOAD := 254 * 255 + 254
  const CONTINUATION: Byte := 0x00
  const BEGINNING_OF_STREAM: Byte := 0x02
  const END_OF_STREAM: Byte := 0x04
  /** "OggS". */
  const SIGNATURE: seq<Byte> := [79, 103, 103, 83]

  datatype Page = Page(headerType: Byte, granule: U64, serial: U32, index: U32, payload: seq<Byte>)

  // ---------------------------------------------------------------------------------
  // Writing
  // ---------------------------------------------------------------------------------

  function Segments(size: nat): (n: nat)
  {
    size / 255 + 1
  }

  /** The segment table of a packet of `size` bytes. */
  function Lacing(size: nat): (table: seq<Byte>)
    ensures |table| == Segments(size)
  {
    seq(size / 255, _ => 255) + [size % 255]
  }

  /** The bytes of a page up to its checksum field. */
  function Front(p: Page): (s: seq<Byte>)
    ensures |s| == 22
  {
    SIGNATURE + [0, p.headerType] + LittleEndian(p.granule, 8)
    + LittleEndian(p.serial, 4) + LittleEndian(p.index, 4)
  }

  /** The bytes of a page after its checksum field. */
  function Back(p: Page): (s: seq<Byte>)
    ensures |s| == 1 + Segments(|p.payload|) + |p.payload|
  {
    [Segments(|p.payload|) % 256] + Lacing(|p.payload|) + p.payload
  }

  function PageWith(p: Page, crc: seq<Byte>): (s: seq<Byte>)
    requires |crc| == 4
    ensures |s| == PAGE_HEADER_SIZE + Segments(|p.payload|) + |p.payload|
  {
    Front(p) + crc + Back(p)
  }

  /** A checksum as the four bytes of the page header, least significant first. */
  function CrcField(w: Word): (s: seq<Byte>)
    ensures |s| == 4
  {
    [ByteOf(w[24..]), ByteOf(w[16..24]), ByteOf(w[8..16]), ByteOf(w[..8])]
  }

  /** The bytes of the page: the checksum covers the page with a zero checksum field. */
  function Encode(p: Page): (s: seq<Byte>)
    ensures |s| == PAGE_HEADER_SIZE + Segments(|p.payload|) + |p.payload|
  {
    PageWith(p, CrcField(Checksum(PageWith(p, Zeros(4)))))
  }

  function EncodeAll(pages: seq<Page>): seq<Byte>
  {
    if pages == [] then [] else Encode(pages[0]) + EncodeAll(pages[1..])
  }

  lemma {:induction false} EncodeAllAppend(a: seq<Page>, b: seq<Page>)
    ensures EncodeAll(a + b) == EncodeAll(a) + EncodeAll(b)
  {
    if a == [] {
      assert a + b == b;
    } else {
      var c := a + b;
      assert c[0] == a[0] && c[1..] == a[1..] + b;
      EncodeAllAppend(a[1..], b);
      SeqAssociative(Encode(a[0]), EncodeAll(a[1..]), EncodeAll(b));
    }
  }

  lemma EncodeAllSnoc(a: seq<Page>, p: Page)
    ensures EncodeAll(a + [p]) == EncodeAll(a) + Encode(p)
  {
    EncodeAllAppend(a, [p]);
    assert [p][1..] == [];
    assert EncodeAll([p]) == Encode(p);
  }

  lemma EncodePair(a: Page, b: Page)
    ensures EncodeAll([a, b]) == Encode(a) + Encode(b)
  {
    EncodeAllSnoc([a], b);
    assert [a] + [b] == [a, b];
    assert [a][1..] == [];
    assert EncodeAll([a]) == Encode(a);
  }

  // ---------------------------------------------------------------------------------
  // Parsing
  // ---------------------------------------------------------------------------------

  datatype ParseError =
    | HeaderLength(available: nat)
    | BadSignature(offset: nat)
    | SegmentTableLength(available: nat)
    | PayloadLength(available: nat)

  datatype Result<+T> = Ok(value: T) | Error(error: ParseError)

  /** A parsed page, with the verdict on its checksum. */
  datatype Parsed = Parsed(page: Page, crcOk: bool)

  function Sum(s: seq<Byte>): nat
  {
    if s == [] then 0 else s[0] + Sum(s[1..])
  }

  /** The page with its checksum field zeroed. */
  function Cleared(page: seq<Byte>): (s: seq<Byte>)
    requires |page| >= 26
    ensures |s| == |page|
  {
    page[..22] + Zeros(4) + page[26..]
  }

  predicate CrcOk(page: seq<Byte>)
    requires |page| >= 26
  {
    page[22..26] == CrcField(Checksum(Cleared(page)))
  }

  /** The number of bytes the page at the head of `data` takes, or why there is none. */
  function PageLength(data: seq<Byte>, offset: nat): (r: Result<nat>)
    ensures r.Ok? ==> PAGE_HEADER_SIZE <= r.value <= |data|
    ensures r.Ok? ==> PAGE_HEADER_SIZE + data[26] <= r.value
  {
    if |data| < PAGE_HEADER_SIZE then Error(HeaderLength(|data|))
    else if data[..4] != SIGNATURE then Error(BadSignature(offset))
    else if |data| < PAGE_HEADER_SIZE + data[26] then Error(SegmentTableLength(|data|))
    else
      var length := PAGE_HEADER_SIZE + data[26] + Sum(data[PAGE_HEADER_SIZE..PAGE_HEADER_SIZE + data[26]]);
      if |data| < length then Error(PayloadLength(|data|)) else Ok(length)
  }

  function FromLE64(s: seq<Byte>): U64
    requires |s| == 8
  {
    Pow256Values();
    LittleEndianBound(s);
    FromLittleEndian(s)
  }

  function FromLE32(s: seq<Byte>): U32
    requires |s| == 4
  {
    Pow256Values();
    LittleEndianBound(s);
    FromLittleEndian(s)
  }

  /** The fields of a page of exactly these bytes. */
  function Decode(page: seq<Byte>): Parsed
    requires |page| >= PAGE_HEADER_SIZE && |page| >= PAGE_HEADER_SIZE + page[26]
  {
    Parsed(
      Page(page[5], FromLE64(page[6..14]), FromLE32(page[14..18]), FromLE32(page[18..22]),
           page[PAGE_HEADER_SIZE + page[26]..]),
      CrcOk(page))
  }

  /** `pages` in front of what a parse finds; an error stays an error. */
  function Prepend(pages: seq<Parsed>, r: Result<seq<Parsed>>): Result<seq<Parsed>>
  {
    match r
    case Error(e) => Error(e)
    case Ok(rest) => Ok(pages + rest)
  }

  lemma PrependTwice(a: seq<Parsed>, b: seq<Parsed>, r: Result<seq<Parsed>>)
    ensures Prepend(a, Prepend(b, r)) == Prepend(a + b, r)
  {
    if r.Ok? {
      SeqAssociative(a, b, r.value);
    }
  }

  lemma PrependNothing(r: Result<seq<Parsed>>)
    ensures Prepend([], r) == r
  {
    if r.Ok? {
      assert [] + r.value == r.value;
    }
  }

  /** All the pages of `data`, which starts `offset` bytes into the stream. */
  function ParsePages(data: seq<Byte>, offset: nat): Result<seq<Parsed>>
    decreases |data|
  {
    if data == [] then Ok([])
    else
      match PageLength(data, offset)
      case Error(e) => Error(e)
      case Ok(length) => Prepend([Decode(data[..length])], ParsePages(data[length..], offset + length))
  }

  lemma ParseNothing(offset: nat)
    ensures ParsePages([], offset) == Ok([])
  {
  }

  lemma ParseStep(data: seq<Byte>, offset: nat)
    requires data != []
    ensures var l := PageLength(data, offset);
      ParsePages(data, offset) ==
        if l.Error? then Error(l.error)
        else Prepend([Decode(data[..l.value])], ParsePages(data[l.value..], offset + l.value))
  {
  }

  /** The parsing loop computes the same thing. */
  method ParseLoop(data: seq<Byte>) returns (r: Result<seq<Parsed>>)
    ensures r == ParsePages(data, 0)
  {
    hide ParsePages, PageLength, Decode;
    var pages: seq<Parsed> := [];
    var offset := 0;
    assert data[0..] == data;
    PrependNothing(ParsePages(data, 0));
    while offset < |data|
      invariant offset <= |data|
      invariant ParsePages(data, 0) == Prepend(pages, ParsePages(data[offset..], offset))
    {
      var rest := data[offset..];
      ParseStep(rest, offset);
      match PageLength(rest, offset) {
        case Error(e) =>
          return Error(e);
        case Ok(length) =>
          var page := Decode(rest[..length]);
          PrependTwice(pages, [page], ParsePages(rest[length..], offset + length));
          pages := pages + [page];
          offset := offset + length;
          assert rest[length..] == data[offset..];
      }
    }
    assert data[offset..] == [];
    ParseNothing(offset);
    assert pages + [] == pages;
    return Ok(pages);
  }

  // ---------------------------------------------------------------------------------
  // Round trip
  // ---------------------------------------------------------------------------------

  lemma {:induction false} LittleEndianBound(s: seq<Byte>)
    ensures FromLittleEndian(s) < Pow256(|s|)
  {
    if s != [] {
      LittleEndianBound(s[1..]);
    }
  }

  lemma {:induction false} SumFull(k: nat, tail: seq<Byte>)
    ensures Sum(seq(k, _ => 255) + tail) == 255 * k + Sum(tail)
  {
    if k == 0 {
      assert seq(k, _ => 255) + tail == tail;
    } else {
      var s: seq<Byte> := seq(k, _ => 255) + tail;
      assert s[1..] == seq(k - 1, _ => 255) + tail;
      SumFull(k - 1, tail);
    }
  }

  lemma SumLacing(size: nat)
    ensures Sum(Lacing(size)) == size
  {
    SumFull(size / 255, [size % 255]);
    assert [size % 255][1..] == [];
  }

  /** Packet sizes a segment table stands for: a value below 255 ends a packet; `open` bytes of
      the current packet came before. */
  function PacketSizes(table: seq<Byte>, open: nat): seq<nat>
  {
    if table == [] then []
    else if table[0] < 255 then [open + table[0]] + PacketSizes(table[1..], 0)
    else PacketSizes(table[1..], open + 255)
  }

  lemma {:induction false} PacketSizesFull(k: nat, last: Byte, open: nat)
    requires last < 255
    ensures PacketSizes(seq(k, _ => 255) + [last], open) == [open + 255 * k + last]
    decreases k
  {
    var s: seq<Byte> := seq(k, _ => 255) + [last];
    if k == 0 {
      assert s == [last] && s[1..] == [];
    } else {
      assert s[1..] == seq(k - 1, _ => 255) + [last];
      PacketSizesFull(k - 1, last, open + 255);
    }
  }

  /** A page holds exactly one packet, and the packet ends on that page. */
  lemma LacingIsOnePacket(size: nat)
    ensures PacketSizes(Lacing(size), 0) == [size]
  {
    PacketSizesFull(size / 255, size % 255, 0);
  }

  /** Where each field of a page lies. */
  lemma PageFields(p: Page, crc: seq<Byte>)
    requires |crc| == 4
    ensures var s := PageWith(p, crc); var n := Segments(|p.payload|);
      && s[..4] == SIGNATURE
      && s[5] == p.headerType
      && s[6..14] == LittleEndian(p.granule, 8)
      && s[14..18] == LittleEndian(p.serial, 4)
      && s[18..22] == LittleEndian(p.index, 4)
      && s[22..26] == crc
      && s[26] == n % 256
      && s[27..27 + n] == Lacing(|p.payload|)
      && s[27 + n..] == p.payload
  {
    hide Front, Back;
    FrontFields(p);
    BackFields(p);
    FrontInPage(Front(p), crc, Back(p));
    BackInPage(Front(p), crc, Back(p), Segments(|p.payload|));
  }

  lemma FrontInPage(f: seq<Byte>, crc: seq<Byte>, b: seq<Byte>)
    requires |f| == 22 && |crc| == 4
    ensures var s := f + crc + b;
      && s[..4] == f[..4] && s[5] == f[5] && s[6..14] == f[6..14]
      && s[14..18] == f[14..18] && s[18..22] == f[18..22] && s[22..26] == crc
  {
  }

  lemma BackInPage(f: seq<Byte>, crc: seq<Byte>, b: seq<Byte>, n: nat)
    requires |f| == 22 && |crc| == 4 && 1 + n <= |b|
    ensures var s := f + crc + b;
      s[26] == b[0] && s[27..27 + n] == b[1..1 + n] && s[27 + n..] == b[1 + n..]
  {
  }

  lemma BackFields(p: Page)
    ensures var b := Back(p); var n := Segments(|p.payload|);
      b[0] == n % 256 && b[1..1 + n] == Lacing(|p.payload|) && b[1 + n..] == p.payload
  {
  }

  lemma FrontFields(p: Page)
    ensures var f := Front(p);
      && f[..4] == SIGNATURE
      && f[5] == p.headerType
      && f[6..14] == LittleEndian(p.granule, 8)
      && f[14..18] == LittleEndian(p.serial, 4)
      && f[18..22] == LittleEndian(p.index, 4)
  {
  }

  lemma ClearedPage(p: Page, crc: seq<Byte>)
    requires |crc| == 4
    ensures Cleared(PageWith(p, crc)) == PageWith(p, Zeros(4))
  {
    var s := PageWith(p, crc);
    assert s[..22] == Front(p) && s[26..] == Back(p);
  }

  predicate Spells(s: seq<Byte>, text: string)
  {
    |s| == |text| && forall i :: 0 <= i < |s| ==> s[i] == text[i] as int
  }

  /** The stored checksum is the remainder over the page with a zero field, its least
      significant byte first. */
  lemma StoredChecksum(p: Page)
    ensures var s := Encode(p);
      BitsOf(s[25]) + BitsOf(s[24]) + BitsOf(s[23]) + BitsOf(s[22]) == Checksum(PageWith(p, Zeros(4)))
  {
    hide Checksum;
    var w := Checksum(PageWith(p, Zeros(4)));
    PageFields(p, CrcField(w));
    var s := Encode(p);
    assert s[22] == s[22..26][0] && s[23] == s[22..26][1] && s[24] == s[22..26][2] && s[25] == s[22..26][3];
    BitsOfByteOf(w[24..]);
    BitsOfByteOf(w[16..24]);
    BitsOfByteOf(w[8..16]);
    BitsOfByteOf(w[..8]);
    assert w == w[..8] + w[8..16] + w[16..24] + w[24..];
  }

  /** The bytes of a page, by offset (section 6 of RFC 3533): capture pattern, version 0, header
      type, granule position, serial number, sequence number, checksum, segment count, segment
      table, payload; integers have their least significant byte first. */
  lemma PageLayout(p: Page)
    ensures var s := Encode(p); var n := |p.payload| / 255 + 1;
      && |s| == 27 + n + |p.payload|
      && Spells(s[..4], "OggS") && s[4] == 0 && s[5] == p.headerType
      && p.granule == Value32(s[6..10]) + 0x1_0000_0000 * Value32(s[10..14])
      && p.serial == Value32(s[14..18])
      && p.index == Value32(s[18..22])
      && s[26] == n % 256
      && (forall i :: 27 <= i < 27 + n - 1 ==> s[i] == 255)
      && s[27 + n - 1] == |p.payload| % 255
      && s[27 + n..] == p.payload
  {
    hide Checksum, LittleEndian;
    var s, n := Encode(p), |p.payload| / 255 + 1;
    PageFields(p, CrcField(Checksum(PageWith(p, Zeros(4)))));
    assert s[4] == Front(p)[4];
    hide Encode, Front, Pow256;
    assert Spells(s[..4], "OggS") by {
      SpellsSignature(s[..4]);
    }
    LittleEndianWeights(p.granule);
    LittleEndianWeights(p.serial);
    LittleEndianWeights(p.index);
    assert s[6..10] == s[6..14][..4] && s[10..14] == s[6..14][4..];
    forall i | 27 <= i < 27 + n ensures s[i] == if i < 27 + n - 1 then 255 else |p.payload| % 255 {
      assert s[i] == s[27..27 + n][i - 27];
    }
  }

  /** A page is found exactly where the capture pattern is followed by all the bytes that its own
      segment table announces. */
  lemma PageFound(data: seq<Byte>, offset: nat)
    ensures var r := PageLength(data, offset);
      && (r.Ok? <==>
            && |data| >= 27 && Spells(data[..4], "OggS") && |data| - 27 >= data[26]
            && |data| - 27 - data[26] >= Sum(data[27..data[26] as int + 27]))
      && (r.Ok? ==> r.value - 27 - data[26] == Sum(data[27..data[26] as int + 27]))
      && (r == Error(BadSignature(offset)) <==> |data| >= 27 && !Spells(data[..4], "OggS"))
      && (|data| < 27 ==> r == Error(HeaderLength(|data|)))
  {
    if |data| >= 27 {
      assert Spells(data[..4], "OggS") <==> data[..4] == SIGNATURE by {
        SpellsSignature(data[..4]);
      }
    }
  }

  lemma SpellsSignature(s: seq<Byte>)
    ensures Spells(s, "OggS") <==> s == SIGNATURE
  {
    assert Spells(SIGNATURE, "OggS");
  }

  /** A page whose payload fits decodes to itself, and its checksum verifies. */
  lemma DecodeEncode(p: Page)
    requires |p.payload| <= MAX_PAGE_PAYLOAD
    ensures Encode(p)[26] == Segments(|p.payload|)
    ensures Decode(Encode(p)) == Parsed(p, true)
  {
    var crc := CrcField(Checksum(PageWith(p, Zeros(4))));
    PageFields(p, crc);
    ClearedPage(p, crc);
    Pow256Values();
    LittleEndianRoundTrip(p.granule, 8);
    LittleEndianRoundTrip(p.serial, 4);
    LittleEndianRoundTrip(p.index, 4);
  }

  lemma EncodeFields(p: Page)
    ensures var s := Encode(p); var n := Segments(|p.payload|);
      s[..4] == SIGNATURE && s[26] == n % 256 && s[27..27 + n] == Lacing(|p.payload|)
  {
    PageFields(p, CrcField(Checksum(PageWith(p, Zeros(4)))));
  }

  /** What the parser makes of a written page followed by anything: it takes the segment count
      modulo 256, and reads that many entries of the segment table. */
  lemma PageLengthOfEncode(p: Page, rest: seq<Byte>, offset: nat)
    ensures var n := Segments(|p.payload|) % 256;
      PageLength(Encode(p) + rest, offset) ==
        if |p.payload| <= MAX_PAGE_PAYLOAD then Ok(|Encode(p)|) else Ok(PAGE_HEADER_SIZE + n + 255 * n)
  {
    hide Encode;
    var s, full, n := Encode(p), Segments(|p.payload|), Segments(|p.payload|) % 256;
    EncodeFields(p);
    var data := s + rest;
    assert data[..4] == s[..4];
    assert data[26] == n;
    SliceOfPrefix(s, rest, 27, 27 + n);
    SliceOfSlice(s, 27, 27 + full, n);
    if |p.payload| <= MAX_PAGE_PAYLOAD {
      assert n == full;
      assert s[27..27 + full][..n] == Lacing(|p.payload|);
      SumLacing(|p.payload|);
    } else {
      assert n < full && 255 * n <= |p.payload|;
      assert Lacing(|p.payload|)[..n] == seq(n, _ => 255) + [];
      SumFull(n, []);
      assert Sum(data[27..27 + n]) == 255 * n;
    }
  }

  predicate Fits(pages: seq<Page>)
  {
    forall i :: 0 <= i < |pages| ==> |pages[i].payload| <= MAX_PAGE_PAYLOAD
  }

  function Expected(pages: seq<Page>): (r: seq<Parsed>)
    ensures |r| == |pages|
    ensures forall i :: 0 <= i < |r| ==> r[i] == Parsed(pages[i], true)
  {
    if pages == [] then [] else [Parsed(pages[0], true)] + Expected(pages[1..])
  }

  /** One written page in front of anything. */
  lemma ParseOnePage(p: Page, rest: seq<Byte>, offset: nat)
    requires |p.payload| <= MAX_PAGE_PAYLOAD
    ensures ParsePages(Encode(p) + rest, offset)
         == Prepend([Parsed(p, true)], ParsePages(rest, offset + |Encode(p)|))
  {
    hide ParsePages, PageLength, Decode, Encode;
    var data, length := Encode(p) + rest, |Encode(p)|;
    ParseStep(data, offset);
    PageLengthOfEncode(p, rest, offset);
    DecodeEncode(p);
    assert data[..length] == Encode(p) && data[length..] == rest;
  }

  /** Parsing undoes writing: pages that fit are read back, with valid checksums, and parsing
      goes on behind them. */
  lemma {:induction false} ParseAfterPages(pages: seq<Page>, rest: seq<Byte>, offset: nat)
    requires Fits(pages)
    ensures ParsePages(EncodeAll(pages) + rest, offset)
         == Prepend(Expected(pages), ParsePages(rest, offset + |EncodeAll(pages)|))
    decreases |pages|
  {
    hide ParsePages;
    if pages == [] {
      assert EncodeAll(pages) + rest == rest;
      PrependNothing(ParsePages(rest, offset));
    } else {
      var p := pages[0];
      SeqAssociative(Encode(p), EncodeAll(pages[1..]), rest);
      ParseOnePage(p, EncodeAll(pages[1..]) + rest, offset);
      ParseAfterPages(pages[1..], rest, offset + |Encode(p)|);
      PrependTwice([Parsed(p, true)], Expected(pages[1..]), ParsePages(rest, offset + |EncodeAll(pages)|));
    }
  }

  lemma DecodedPayload(page: seq<Byte>)
    requires |page| >= PAGE_HEADER_SIZE && |page| >= PAGE_HEADER_SIZE + page[26]
    ensures |Decode(page).page.payload| == |page| - PAGE_HEADER_SIZE - page[26]
  {
  }

  /** A page that does not fit is never read back: the first page found has another payload. */
  lemma OversizedPageLost(p: Page, rest: seq<Byte>, offset: nat)
    requires |p.payload| > MAX_PAGE_PAYLOAD
    ensures var r := ParsePages(Encode(p) + rest, offset);
      r.Ok? ==> |r.value| > 0 && |r.value[0].page.payload| != |p.payload|
  {
    hide Encode, PageLength, ParsePages, Decode;
    PageLengthOfEncode(p, rest, offset);
    EncodeFields(p);
    var n := Segments(|p.payload|) % 256;
    var data := Encode(p) + rest;
    ParseStep(data, offset);
    var page := data[..PAGE_HEADER_SIZE + 256 * n];
    assert page[26] == n;
    DecodedPayload(page);
    assert 255 * n != |p.payload|;
  }

  /** Behind pages that fit, an oversized page spoils the parse, whatever follows it and
      whatever is expected to follow it. */
  lemma OversizedLost(good: seq<Page>, bad: Page, rest: seq<Byte>, others: seq<Page>)
    requires Fits(good) && |bad.payload| > MAX_PAGE_PAYLOAD
    ensures ParsePages(EncodeAll(good) + (Encode(bad) + rest), 0) != Ok(Expected(good + [bad] + others))
  {
    hide ParsePages, Encode;
    var k, pages := |good|, good + [bad] + others;
    ParseAfterPages(good, Encode(bad) + rest, 0);
    OversizedPageLost(bad, rest, |EncodeAll(good)|);
    var r := ParsePages(Encode(bad) + rest, |EncodeAll(good)|);
    if r.Ok? {
      assert (Expected(good) + r.value)[k] == r.value[0];
      assert pages[k] == bad;
      assert Expected(pages)[k].page == bad;
    }
  }

  /** Pages that do not all fit never read back in front of anything, not even as the beginning
      of a longer stream. */
  lemma UnfitLost(pages: seq<Page>, rest: seq<Byte>, others: seq<Page>)
    requires !Fits(pages)
    ensures ParsePages(EncodeAll(pages) + rest, 0) != Ok(Expected(pages + others))
  {
    hide ParsePages, Expected, EncodeAll, Encode;
    var k := FirstOversized(pages);
    var good, bad, more := pages[..k], pages[k], pages[k + 1..];
    assert pages == good + [bad] + more;
    EncodeAllAppend(good + [bad], more);
    EncodeAllSnoc(good, bad);
    SeqAssociative(EncodeAll(good), Encode(bad), EncodeAll(more));
    SeqAssociative(EncodeAll(good), Encode(bad) + EncodeAll(more), rest);
    SeqAssociative(Encode(bad), EncodeAll(more), rest);
    OversizedLost(good, bad, EncodeAll(more) + rest, more + others);
    SeqAssociative(good + [bad], more, others);
  }

  lemma RoundTripFits(pages: seq<Page>)
    requires Fits(pages)
    ensures ParsePages(EncodeAll(pages), 0) == Ok(Expected(pages))
  {
    var all := EncodeAll(pages);
    hide ParsePages, EncodeAll, Expected;
    ParseNothing(|all|);
    ParseAfterPages(pages, [], 0);
    assert all + [] == all;
    assert Expected(pages) + [] == Expected(pages);
  }

  /** A stream cut off between pages reads back as a given stream exactly when nothing is
      missing and every page fits. */
  lemma PrefixReadsBack(pages: seq<Page>, all: seq<Page>)
    requires pages <= all
    ensures ParsePages(EncodeAll(pages), 0) == Ok(Expected(all)) <==> Fits(pages) && pages == all
  {
    hide ParsePages, EncodeAll, Expected;
    if Fits(pages) {
      RoundTripFits(pages);
      assert |Expected(pages)| == |pages| && |Expected(all)| == |all|;
    } else {
      assert EncodeAll(pages) + [] == EncodeAll(pages);
      assert pages + all[|pages|..] == all;
      UnfitLost(pages, [], all[|pages|..]);
    }
  }

  /** The page stream round trip holds exactly for streams whose pages all fit. */
  lemma PageStreamRoundTrip(pages: seq<Page>)
    ensures ParsePages(EncodeAll(pages), 0) == Ok(Expected(pages)) <==> Fits(pages)
  {
    hide ParsePages, EncodeAll, Expected, Fits;
    PrefixReadsBack(pages, pages);
  }

  function FirstOversized(pages: seq<Page>): (k: nat)
    requires !Fits(pages)
    ensures k < |pages| && |pages[k].payload| > MAX_PAGE_PAYLOAD && Fits(pages[..k])
  {
    if |pages[0].payload| > MAX_PAGE_PAYLOAD then 0
    else
      assert pages == [pages[0]] + pages[1..];
      var k := FirstOversized(pages[1..]);
      assert pages[..k + 1] == [pages[0]] + pages[1..][..k];
      k + 1
  }

  // ---------------------------------------------------------------------------------
  // Corruption
  // ---------------------------------------------------------------------------------

  lemma ByteOfInjective(a: Bits, b: Bits)
    requires |a| == |b| == 8 && ByteOf(a) == ByteOf(b)
    ensures a == b
  {
    BitsOfByteOf(a);
    BitsOfByteOf(b);
  }

  lemma EqualQuarters(v: Word, w: Word)
    requires v[..8] == w[..8] && v[8..16] == w[8..16] && v[16..24] == w[16..24] && v[24..] == w[24..]
    ensures v == w
  {
    assert v == v[..8] + v[8..16] + v[16..24] + v[24..];
    assert w == w[..8] + w[8..16] + w[16..24] + w[24..];
  }

  lemma CrcFieldInjective(v: Word, w: Word)
    requires CrcField(v) == CrcField(w)
    ensures v == w
  {
    var f, g := CrcField(v), CrcField(w);
    assert f[0] == g[0] && f[1] == g[1] && f[2] == g[2] && f[3] == g[3];
    ByteOfInjective(v[24..], w[24..]);
    ByteOfInjective(v[16..24], w[16..24]);
    ByteOfInjective(v[8..16], w[8..16]);
    ByteOfInjective(v[..8], w[..8]);
    EqualQuarters(v, w);
  }

  lemma ClearedDetermines(page: seq<Byte>, other: seq<Byte>)
    requires 26 <= |page| == |other|
    requires Cleared(page) == Cleared(other) && page[22..26] == other[22..26]
    ensures page == other
  {
    assert page == Cleared(page)[..22] + page[22..26] + Cleared(page)[26..];
    assert other == Cleared(other)[..22] + other[22..26] + Cleared(other)[26..];
  }

  /** Damage inside four consecutive bytes, outside the checksum field, is always noticed. */
  lemma CorruptionDetected(page: seq<Byte>, damaged: seq<Byte>, k: nat)
    requires 26 <= |page| == |damaged| && CrcOk(page)
    requires page != damaged && page[22..26] == damaged[22..26]
    requires forall i :: 0 <= i < |page| && !(k <= i < k + 4) ==> page[i] == damaged[i]
    ensures !CrcOk(damaged)
  {
    var x, y := Cleared(page), Cleared(damaged);
    if x == y {
      ClearedDetermines(page, damaged);
      assert false;
    }
    ErrorDetected(x, y, k);
    if CrcOk(damaged) {
      CrcFieldInjective(Checksum(x), Checksum(y));
      assert false;
    }
  }
}
