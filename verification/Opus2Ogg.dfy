/** The consumer of an audio channel: turns packets into an Ogg stream written to a pipe. */
module Opus2Ogg {
  import opened Bytes
  import Crc
  import opened Framing
  import opened OggPage
  import opened OggWriter
  import opened Opus

  /** Why the consumer returned. */
  datatype Cause = InputClosed | InputError(err: Err) | BadPacket | ContextDone | WriteError

  /** A crash is an index error on a packet too short for its own table-of-contents byte. */
  datatype End = Running | Ended(cause: Cause) | Crashed

  /** What has been written: the headers once `started`, then one page for each of `packets`. */
  datatype Sink = Sink(started: bool, packets: seq<seq<Byte>>, end: End) {
    predicate Valid() {
      AllReadable(packets) && (packets != [] ==> started)
    }
  }

  const FRESH_SINK := Sink(false, [], Running)

  /** One received item. Decoding rejects an empty packet; headers precede the first page. */
  function Consume(k: Sink, x: Item): (r: Sink)
    requires k.Valid() && k.end.Running?
    ensures r.Valid()
  {
    match x
    case Failure(e) => k.(end := Ended(InputError(e)))
    case Packet(p, _) =>
      if p == [] then k.(end := Ended(BadPacket))
      else if !Readable(p) then k.(started := true, end := Crashed)
      else Sink(true, k.packets + [p], Running)
  }

  /** Items received in turn, while the consumer runs. */
  function ConsumeAll(k: Sink, items: seq<Item>): (r: Sink)
    requires k.Valid()
    ensures r.Valid()
    decreases |items|
  {
    if !k.end.Running? || items == [] then k else ConsumeAll(Consume(k, items[0]), items[1..])
  }

  /** The items, and then the close of the channel. */
  function ChannelClosed(k: Sink): Sink
  {
    if k.end.Running? then k.(end := Ended(InputClosed)) else k
  }

  function SinkBytes(k: Sink, serial: U32, sampleRate: U32, channelCount: nat): seq<Byte>
    requires k.Valid()
  {
    if k.started then EncodeAll(OggStream(serial, sampleRate, channelCount, k.packets)) else []
  }

  lemma {:induction false} ConsumeAllAppend(k: Sink, a: seq<Item>, b: seq<Item>)
    requires k.Valid()
    ensures ConsumeAll(k, a + b) == ConsumeAll(ConsumeAll(k, a), b)
    decreases |a|
  {
    if a == [] {
      assert a + b == b;
    } else if k.end.Running? {
      assert (a + b)[0] == a[0] && (a + b)[1..] == a[1..] + b;
      ConsumeAllAppend(Consume(k, a[0]), a[1..], b);
    }
  }

  lemma ConsumeOne(k: Sink, x: Item)
    requires k.Valid() && k.end.Running?
    ensures ConsumeAll(k, [x]) == Consume(k, x)
  {
    assert [x][1..] == [];
  }

  /** Bytes written are never taken back. */
  lemma {:induction false} SinkGrows(k: Sink, items: seq<Item>, serial: U32, sampleRate: U32, channelCount: nat)
    requires k.Valid()
    ensures SinkBytes(k, serial, sampleRate, channelCount)
         <= SinkBytes(ConsumeAll(k, items), serial, sampleRate, channelCount)
    decreases |items|
  {
    hide SinkBytes;
    if k.end.Running? && items != [] {
      SinkGrowsOnce(k, items[0], serial, sampleRate, channelCount);
      SinkGrows(Consume(k, items[0]), items[1..], serial, sampleRate, channelCount);
    }
  }

  lemma SinkGrowsOnce(k: Sink, x: Item, serial: U32, sampleRate: U32, channelCount: nat)
    requires k.Valid() && k.end.Running?
    ensures SinkBytes(k, serial, sampleRate, channelCount)
         <= SinkBytes(Consume(k, x), serial, sampleRate, channelCount)
  {
    hide EncodeAll, OggStream;
    if x.Packet? && x.payload != [] && Readable(x.payload) {
      OggStreamSnoc(serial, sampleRate, channelCount, k.packets, x.payload);
    }
  }

  /** The header pages come first in whatever a started consumer has written. */
  lemma HeadersFirst(k: Sink, serial: U32, sampleRate: U32, channelCount: nat)
    requires k.Valid() && k.started
    ensures EncodeAll(HeaderPages(serial, 0, sampleRate, channelCount))
         <= SinkBytes(k, serial, sampleRate, channelCount)
    ensures k.packets == [] ==>
      SinkBytes(k, serial, sampleRate, channelCount) == EncodeAll(HeaderPages(serial, 0, sampleRate, channelCount))
  {
    hide EncodeAll, IdHeader, CommentHeader, AudioPages;
    EncodeAllAppend(HeaderPages(serial, 0, sampleRate, channelCount), AudioPages(serial, 1, 2, k.packets));
    OggStreamOfNothing(serial, sampleRate, channelCount);
  }

  predicate SameOutput(a: Sink, b: Sink)
  {
    a.started == b.started && a.packets == b.packets
  }

  /** What Close leaves in the Ogg file of a consumer that has written this. */
  function FileAfter(k: Sink, serial: U32, sampleRate: U32, channelCount: nat): seq<Byte>
    requires k.Valid()
  {
    if k.started then ClosedStream(serial, sampleRate, channelCount, k.packets) else []
  }

  /** What Close leaves in the Ogg file when the pipe fails under the header pages. The writer
      counts a header page only after it is written, so the page marked as the last one carries
      the sequence number before its own. */
  function FileAfterCut(second: bool, serial: U32, sampleRate: U32, channelCount: nat): seq<Byte>
  {
    if second then
      Encode(HeaderPages(serial, 0, sampleRate, channelCount)[0]) + Encode(EosPage(serial, 1, 0, CommentHeader()))
    else Encode(EosPage(serial, 1, TWO32 - 1, IdHeader(sampleRate, channelCount)))
  }

  /** The writer's own state is that of the consumer. */
  predicate Advanced(w: OggWriter, k: Sink)
    requires k.Valid()
    reads w
  {
    if k.started then
      && w.pageIndex == (2 + |k.packets|) % TWO32
      && w.previousGranulePosition == GranuleAfter(1, k.packets)
      && w.lastPayloadSize == |LastPayload(k.packets)|
    else w.pageIndex == 0 && w.previousGranulePosition == 1 && w.lastPayloadSize == 0
  }

  /** The writer has written exactly what the consumer stands for, to each of its outputs. */
  ghost predicate Holds(w: OggWriter, k: Sink)
    reads w, w.stream, w.copy, w.checksumTable
  {
    && w.Valid() && w.stream != null && k.Valid() && Advanced(w, k)
    && w.stream.data == SinkBytes(k, w.serial, w.sampleRate, w.channelCount)
    && (w.copy != null ==> w.copy.data == w.stream.data)
  }

  /** The file has all that the consumer stands for, and the pipe a part of it. */
  predicate FileHolds(w: OggWriter, k: Sink)
    reads w, w.stream, w.copy
  {
    && w.stream != null && w.copy != null && k.Valid() && Advanced(w, k)
    && w.copy.data == SinkBytes(k, w.serial, w.sampleRate, w.channelCount)
    && w.stream.data <= w.copy.data
  }

  /** The pipe has failed under one of the header pages, which the file has got. */
  predicate HeadersCut(w: OggWriter)
    reads w, w.stream, w.copy
  {
    && w.stream != null && w.copy != null && w.previousGranulePosition == 1 && w.stream.data <= w.copy.data
    && var pages := HeaderPages(w.serial, 0, w.sampleRate, w.channelCount);
    if w.pageIndex == 0 then w.lastPayloadSize == 19 && w.copy.data == Encode(pages[0])
    else w.pageIndex == 1 && w.lastPayloadSize == 21 && w.copy.data == EncodeAll(pages)
  }

  /** The outputs besides the pipe do not fail. */
  predicate FileSound(w: OggWriter)
    reads w, w.copy
  {
    w.copy != null && w.copy.Sound()
  }

  /** Writes one non-empty packet; a packet that Write cannot read crashes the program. */
  method Put(w: OggWriter, x: Item, ghost k: Sink) returns (end: End, ghost next: Sink)
    requires Holds(w, k) && k.started && k.end.Running? && x.Packet? && x.payload != []
    modifies w`previousGranulePosition, w`pageIndex, w`lastPayloadSize, w.stream, w.copy
    ensures w.stream.closed == old(w.stream.closed)
    ensures w.copy != null ==> w.copy.closed == old(w.copy.closed)
    ensures w.Valid() && next == Consume(k, x)
    ensures next.end.Running? || next.end.Crashed?
    ensures end.Crashed? <==> next.end.Crashed?
    ensures end.Running? ==>
      && Holds(w, next) && next.started && next.end.Running?
      && w.stream.data == SinkBytes(next, w.serial, w.sampleRate, w.channelCount)
    ensures w.stream.data <= SinkBytes(next, w.serial, w.sampleRate, w.channelCount)
    ensures old(w.Sound()) ==>
      end == next.end && w.stream.data == SinkBytes(next, w.serial, w.sampleRate, w.channelCount)
    ensures old(FileSound(w)) && !end.Crashed? ==> FileHolds(w, next)
  {
    hide EncodeAll, Encode, OggStream, GranuleAfter, Duration, Crc.IsChecksumTable, LastPayload;
    var p := x.payload;
    next := Consume(k, x);
    if |p| < 1 || (p[0] % 4 == 3 && |p| < 2) {
      return Crashed, next;
    }
    OggStreamSnoc(w.serial, w.sampleRate, w.channelCount, k.packets, p);
    LastPayloads(k.packets, p);
    var ok := w.Write(p);
    end := if ok then Running else Ended(WriteError);
  }

  /** How the consumer may leave its writer after `n` items. A write error or a context that is
      done can only cut the output short. On outputs that do not fail it is never cut within a
      page, and all of it is there unless the context was done. A file that does not fail has the
      whole stream of the items consumed, whatever becomes of the pipe behind the headers. */
  ghost predicate Outcome(w: OggWriter, input: seq<Item>, n: nat, end: End,
                          sound: bool, fileSound: bool, cancellable: bool)
    reads w, w.stream, w.copy, w.checksumTable
  {
    var full := ChannelClosed(ConsumeAll(FRESH_SINK, input));
    && w.Valid() && w.stream != null && n <= |input| && !end.Running?
    && w.stream.data <= SinkBytes(full, w.serial, w.sampleRate, w.channelCount)
    && (sound && !end.Crashed? ==> Holds(w, ConsumeAll(FRESH_SINK, input[..n])))
    && (fileSound && !end.Crashed? ==>
      || FileHolds(w, ConsumeAll(FRESH_SINK, input[..n]))
      || (end == Ended(WriteError) && n == 0 && HeadersCut(w)))
    && (sound && !cancellable ==>
      && end == full.end
      && w.stream.data == SinkBytes(full, w.serial, w.sampleRate, w.channelCount)
      && (!end.Crashed? ==> SameOutput(full, ConsumeAll(FRESH_SINK, input[..n]))))
  }

  /** The consumer's loop, behind the first packet. */
  method ServeRest(w: OggWriter, cancellable: bool, input: seq<Item>, ghost first: Sink)
    returns (end: End, ghost n: nat)
    requires input != [] && first == ConsumeAll(FRESH_SINK, input[..1]) && first.started && first.end.Running?
    requires Holds(w, first)
    modifies w`previousGranulePosition, w`pageIndex, w`lastPayloadSize, w.stream, w.copy
    ensures w.stream.closed == old(w.stream.closed) && (w.copy != null ==> w.copy.closed == old(w.copy.closed))
    ensures Outcome(w, input, n, end, old(w.Sound()), old(FileSound(w)), cancellable)
  {
    hide SinkBytes, OggStream, EncodeAll, GranuleAfter, Consume, Readable, Crc.IsChecksumTable, LastPayload;
    hide FileHolds, HeadersCut;
    HoldsBytes(w, first);
    hide Holds;
    ghost var k := first;
    var i := 1;
    n := 1;
    ClosingAddsNothing(ConsumeAll(FRESH_SINK, input), w.serial, w.sampleRate, w.channelCount);
    while true
      invariant 1 <= i == n <= |input|
      invariant Holds(w, k) && k.started && k.end.Running?
      invariant w.Valid() && w.stream.data == SinkBytes(k, w.serial, w.sampleRate, w.channelCount)
      invariant w.stream.closed == old(w.stream.closed)
      invariant w.copy != null ==> w.copy.closed == old(w.copy.closed)
      invariant k == ConsumeAll(FRESH_SINK, input[..n])
      decreases |input| - i
    {
      Continues(input, n);
      SinkGrows(k, input[n..], w.serial, w.sampleRate, w.channelCount);
      HoldsFile(w, k);
      var taken := TakesDone(cancellable);
      if taken {
        return Ended(ContextDone), n;
      }
      if i == |input| || input[i].Failure? || input[i].payload == [] {
        StopsHere(k, input[n..], w.serial, w.sampleRate, w.channelCount);
      }
      if i == |input| {
        return Ended(InputClosed), n;
      }
      var x := input[i];
      if x.Failure? {
        return Ended(InputError(x.err)), n;
      }
      if x.payload == [] {
        return Ended(BadPacket), n;
      }
      end, k := Put(w, x, k);
      i, n := i + 1, n + 1;
      Continues(input, n);
      SinkGrows(k, input[n..], w.serial, w.sampleRate, w.channelCount);
      if !end.Running? {
        return;
      }
    }
  }

  /** The consumer: it waits for a first packet, writes the headers in front of it, and goes on. */
  method Serve(w: OggWriter, cancellable: bool, input: seq<Item>) returns (end: End, ghost n: nat)
    requires Holds(w, FRESH_SINK)
    modifies w`previousGranulePosition, w`pageIndex, w`lastPayloadSize, w.stream, w.copy
    ensures w.stream.closed == old(w.stream.closed) && (w.copy != null ==> w.copy.closed == old(w.copy.closed))
    ensures Outcome(w, input, n, end, old(w.Sound()), old(FileSound(w)), cancellable)
  {
    hide SinkBytes, OggStream, HeaderPages, EncodeAll, Encode, GranuleAfter, Consume, Readable, LastPayload;
    hide Crc.IsChecksumTable, FileHolds;
    HoldsBytes(w, FRESH_SINK);
    HoldsFile(w, FRESH_SINK);
    StartHolds(w);
    hide Holds;
    n := 0;
    assert input[..0] == [];
    SinkGrows(FRESH_SINK, input, w.serial, w.sampleRate, w.channelCount);
    ClosingAddsNothing(ConsumeAll(FRESH_SINK, input), w.serial, w.sampleRate, w.channelCount);

    var taken := TakesDone(cancellable);
    if taken {
      return Ended(ContextDone), n;
    }
    if input == [] || input[0].Failure? || input[0].payload == [] {
      StopsHere(FRESH_SINK, input, w.serial, w.sampleRate, w.channelCount);
    }
    if input == [] {
      return Ended(InputClosed), n;
    }
    if input[0].Failure? {
      return Ended(InputError(input[0].err)), n;
    }
    if input[0].payload == [] {
      return Ended(BadPacket), n;
    }
    ghost var k := Sink(true, [], Running);
    FirstPacketStarts(input);
    SinkGrows(k, input, w.serial, w.sampleRate, w.channelCount);
    HeadersFirst(k, w.serial, w.sampleRate, w.channelCount);
    var ok := w.WriteHeaders();
    if !ok {
      return Ended(WriteError), n;
    }
    HeadersHeld(w, k);
    end, k := Put(w, input[0], k);
    SinkGrows(k, input[1..], w.serial, w.sampleRate, w.channelCount);
    n := 1;
    FirstConsumed(input);
    if !end.Running? {
      return;
    }
    end, n := ServeRest(w, cancellable, input, k);
  }

  lemma HoldsFile(w: OggWriter, k: Sink)
    requires Holds(w, k)
    ensures w.copy != null ==> FileHolds(w, k)
  {
  }

  lemma HoldsBytes(w: OggWriter, k: Sink)
    requires Holds(w, k)
    ensures w.Valid() && w.stream != null && w.stream.data == SinkBytes(k, w.serial, w.sampleRate, w.channelCount)
  {
  }

  lemma StartHolds(w: OggWriter)
    requires Holds(w, FRESH_SINK)
    ensures w.stream.data == [] && (w.copy != null ==> w.copy.data == [])
    ensures w.pageIndex == 0 && w.previousGranulePosition == 1
  {
  }

  /** What the writer's Close leaves of its file. */
  function Rewritten(w: OggWriter, data: seq<Byte>): seq<Byte>
    reads w
  {
    var size := w.lastPayloadSize;
    if size + PAGE_HEADER_SIZE + 1 > |data| then data
    else Closed(data, size, EosPage(w.serial, w.previousGranulePosition, Prev32(w.pageIndex), data[|data| - size..]))
  }

  /** On the way out the pipe is closed, and then the writer. */
  method Leave(w: OggWriter)
    requires w.Valid() && w.stream != null && w.multi && w.fd == w.copy
    modifies w`stream, w`copy, w`fd, w`lastPayloadSize, w.stream, w.copy
    ensures old(w.stream).closed && old(w.stream).data == old(w.stream.data)
    ensures old(w.copy) != null ==> old(w.copy).closed == old(w.copy.closed)
    ensures old(FileSound(w)) ==> old(w.copy).data == old(Rewritten(w, w.copy.data))
  {
    hide Encode, Closed, Crc.IsChecksumTable;
    var _ := w.stream.Close();
    var _ := w.Close();
  }

  /** What becomes of a file that does not fail. */
  lemma FileEnds(w: OggWriter, k: Sink)
    requires w.copy != null
    ensures FileHolds(w, k) ==>
      Rewritten(w, w.copy.data) == FileAfter(k, w.serial, w.sampleRate, w.channelCount)
    ensures HeadersCut(w) ==>
      && w.stream.data <= EncodeAll(HeaderPages(w.serial, 0, w.sampleRate, w.channelCount))
      && Rewritten(w, w.copy.data) == FileAfterCut(w.pageIndex == 1, w.serial, w.sampleRate, w.channelCount)
  {
    hide SinkBytes, HeaderPages, GranuleAfter, LastPayload, Closed, EncodeAll, Encode, FileAfter, FileAfterCut;
    if FileHolds(w, k) {
      WhatIsClosed(k, w.serial, w.sampleRate, w.channelCount);
    }
    WhatIsCut(w.serial, w.sampleRate, w.channelCount);
    HeadersPrefix(w.serial, w.sampleRate, w.channelCount);
  }

  /** The goroutine on a channel that is closed after `input`, with its outputs: the pipe, and the
      Ogg file in front of it if one is kept. When the context is done the pipe is closed from
      outside, perhaps in the middle of a write, so in a cancellable run the pipe may fail at any
      byte. On the way out the pipe is closed first, so the writer's Close reaches the file only.
      A file that does not fail ends as the closed stream of all packets consumed, of which the
      pipe has got a prefix, unless the pipe failed under the headers; it is left open. */
  method Run(cancellable: bool, pipeReliable: bool, fileReliable: bool, fileOutput: bool, input: seq<Item>,
             sampleRate: U32, channelCount: nat, serial: U32)
    returns (pipe: File, file: File?, end: End, ghost n: nat)
    ensures (file != null <==> fileOutput) && n <= |input|
    ensures var k := ChannelClosed(ConsumeAll(FRESH_SINK, input));
      && pipe.data <= SinkBytes(k, serial, sampleRate, channelCount)
      && (!cancellable && pipeReliable && (fileOutput ==> fileReliable) ==>
        && end == k.end
        && pipe.data == SinkBytes(k, serial, sampleRate, channelCount)
        && (file != null && !end.Crashed? ==> file.data == FileAfter(k, serial, sampleRate, channelCount)))
    ensures fileReliable && file != null && !end.Crashed? ==>
      var k := ConsumeAll(FRESH_SINK, input[..n]);
      || (&& pipe.data <= SinkBytes(k, serial, sampleRate, channelCount)
          && file.data == FileAfter(k, serial, sampleRate, channelCount))
      || (&& end == Ended(WriteError) && n == 0
          && pipe.data <= EncodeAll(HeaderPages(serial, 0, sampleRate, channelCount))
          && exists second :: file.data == FileAfterCut(second, serial, sampleRate, channelCount))
    ensures !end.Crashed? ==> pipe.closed && (file != null ==> !file.closed)
  {
    hide SinkBytes, OggStream, HeaderPages, ConsumeAll, LastPayload, EncodeAll, FileAfter, FileAfterCut;
    hide GranuleAfter, Rewritten, HeadersCut, FileHolds, SameOutput, Crc.IsChecksumTable;
    pipe := new File(pipeReliable && !cancellable);
    file := null;
    if fileOutput {
      file := new File(fileReliable);
    }
    var w := OggWriter.NewWithoutHeader(pipe, true, file, sampleRate, channelCount, serial);
    w.fd := file;
    NothingYet(serial, sampleRate, channelCount);
    end, n := Serve(w, cancellable, input);
    if end.Crashed? {
      return;
    }
    if file != null {
      ghost var k := ConsumeAll(FRESH_SINK, input[..n]);
      FileEnds(w, k);
      FileHoldsPart(w, k);
      if !cancellable && pipeReliable && fileReliable {
        HoldsFile(w, k);
        SameFile(ChannelClosed(ConsumeAll(FRESH_SINK, input)), k, serial, sampleRate, channelCount);
      }
    }
    Leave(w);
  }

  lemma SameFile(a: Sink, b: Sink, serial: U32, sampleRate: U32, channelCount: nat)
    requires a.Valid() && b.Valid() && SameOutput(a, b)
    ensures FileAfter(a, serial, sampleRate, channelCount) == FileAfter(b, serial, sampleRate, channelCount)
  {
  }

  lemma FileHoldsPart(w: OggWriter, k: Sink)
    ensures FileHolds(w, k) ==>
      k.Valid() && w.stream != null && w.stream.data <= SinkBytes(k, w.serial, w.sampleRate, w.channelCount)
  {
  }

  lemma HeadersPrefix(serial: U32, sampleRate: U32, channelCount: nat)
    ensures var pages := HeaderPages(serial, 0, sampleRate, channelCount); Encode(pages[0]) <= EncodeAll(pages)
  {
    hide Encode, EncodeAll, IdHeader, CommentHeader;
    var pages := HeaderPages(serial, 0, sampleRate, channelCount);
    EncodePair(pages[0], pages[1]);
    assert [pages[0], pages[1]] == pages;
  }

  /** The rewrite under cut headers. */
  lemma WhatIsCut(serial: U32, sampleRate: U32, channelCount: nat)
    ensures var pages := HeaderPages(serial, 0, sampleRate, channelCount);
      var one, two := Encode(pages[0]), EncodeAll(pages);
      && |one| >= 47 && |two| >= 49
      && Closed(one, 19, EosPage(serial, 1, Prev32(0), one[|one| - 19..]))
         == FileAfterCut(false, serial, sampleRate, channelCount)
      && Closed(two, 21, EosPage(serial, 1, Prev32(1), two[|two| - 21..]))
         == FileAfterCut(true, serial, sampleRate, channelCount)
  {
    hide Encode, IdHeader, CommentHeader;
    var pages := HeaderPages(serial, 0, sampleRate, channelCount);
    EncodePair(pages[0], pages[1]);
    assert [pages[0], pages[1]] == pages;
    ClosedShape([], pages[0], EosPage(serial, 1, Prev32(0), pages[0].payload));
    ClosedShape(Encode(pages[0]), pages[1], EosPage(serial, 1, Prev32(1), pages[1].payload));
    assert [] + Encode(pages[0]) == Encode(pages[0]);
    assert [] + Encode(pages[0])[..0] == [];
    assert Encode(pages[0]) + Encode(pages[1])[..0] == Encode(pages[0]);
  }

  /** The rewrite of what a consumer has written; without headers there is too little for it. */
  lemma WhatIsClosed(k: Sink, serial: U32, sampleRate: U32, channelCount: nat)
    requires k.Valid()
    ensures var data := SinkBytes(k, serial, sampleRate, channelCount); var size := |LastPayload(k.packets)|;
      if k.started then
        && size + PAGE_HEADER_SIZE + 1 <= |data|
        && FileAfter(k, serial, sampleRate, channelCount)
           == Closed(data, size, EosPage(serial, GranuleAfter(1, k.packets), Prev32((2 + |k.packets|) % TWO32),
                                         data[|data| - size..]))
      else data == [] && FileAfter(k, serial, sampleRate, channelCount) == []
  {
    hide OggStream, EncodeAll, GranuleAfter, LastPayload, Closed, ClosedStream;
    if k.started {
      ClosedStreamIs(serial, sampleRate, channelCount, k.packets);
    }
  }

  lemma FirstConsumed(input: seq<Item>)
    requires input != [] && input[0].Packet? && input[0].payload != []
    ensures ConsumeAll(FRESH_SINK, input[..1]) == Consume(Sink(true, [], Running), input[0])
  {
    assert input[..1] == [input[0]];
    ConsumeOne(FRESH_SINK, input[0]);
  }

  /** Consuming goes on from where it is. */
  lemma Continues(input: seq<Item>, n: nat)
    requires n <= |input|
    ensures ConsumeAll(FRESH_SINK, input) == ConsumeAll(ConsumeAll(FRESH_SINK, input[..n]), input[n..])
    ensures n > 0 && ConsumeAll(FRESH_SINK, input[..n - 1]).end.Running? ==>
      ConsumeAll(FRESH_SINK, input[..n]) == Consume(ConsumeAll(FRESH_SINK, input[..n - 1]), input[n - 1])
  {
    hide ConsumeAll, Consume;
    assert input == input[..n] + input[n..];
    ConsumeAllAppend(FRESH_SINK, input[..n], input[n..]);
    if n > 0 && ConsumeAll(FRESH_SINK, input[..n - 1]).end.Running? {
      assert input[..n] == input[..n - 1] + [input[n - 1]];
      ConsumeAllAppend(FRESH_SINK, input[..n - 1], [input[n - 1]]);
      ConsumeOne(ConsumeAll(FRESH_SINK, input[..n - 1]), input[n - 1]);
    }
  }

  /** After the headers. */
  lemma HeadersHeld(w: OggWriter, k: Sink)
    requires w.Valid() && w.stream != null && k == Sink(true, [], Running)
    requires w.stream.data == EncodeAll(HeaderPages(w.serial, 0, w.sampleRate, w.channelCount))
    requires w.copy != null ==> w.copy.data == w.stream.data
    requires w.pageIndex == 2 && w.previousGranulePosition == 1 && w.lastPayloadSize == 21
    ensures Holds(w, k)
  {
    HeadersFirst(k, w.serial, w.sampleRate, w.channelCount);
    NothingYet(w.serial, w.sampleRate, w.channelCount);
    LastPayloads([], []);
    hide SinkBytes, EncodeAll, GranuleAfter, LastPayload, Crc.IsChecksumTable;
  }

  /** The headers are written as soon as there is a first packet to follow them. */
  lemma FirstPacketStarts(input: seq<Item>)
    requires input != [] && input[0].Packet? && input[0].payload != []
    ensures ConsumeAll(FRESH_SINK, input) == ConsumeAll(Sink(true, [], Running), input)
  {
    assert Consume(FRESH_SINK, input[0]) == Consume(Sink(true, [], Running), input[0]);
  }

  /** Where the consumer stops before writing: at the close, at an error, at an empty packet. */
  lemma StopsHere(k: Sink, rest: seq<Item>, serial: U32, sampleRate: U32, channelCount: nat)
    requires k.Valid() && k.end.Running?
    requires rest != [] ==> rest[0].Failure? || rest[0].payload == []
    ensures var r := ChannelClosed(ConsumeAll(k, rest));
      && r.end == Ended(if rest == [] then InputClosed
                        else if rest[0].Failure? then InputError(rest[0].err) else BadPacket)
      && SinkBytes(r, serial, sampleRate, channelCount) == SinkBytes(k, serial, sampleRate, channelCount)
      && r.packets == k.packets && r.started == k.started
  {
    hide OggStream;
    if rest != [] {
      assert ConsumeAll(k, rest) == Consume(k, rest[0]);
    }
  }

  lemma NothingYet(serial: U32, sampleRate: U32, channelCount: nat)
    ensures SinkBytes(FRESH_SINK, serial, sampleRate, channelCount) == []
    ensures GranuleAfter(1, []) == 1
  {
  }

  lemma ClosingAddsNothing(k: Sink, serial: U32, sampleRate: U32, channelCount: nat)
    requires k.Valid()
    ensures SinkBytes(ChannelClosed(k), serial, sampleRate, channelCount)
         == SinkBytes(k, serial, sampleRate, channelCount)
  {
  }
}
