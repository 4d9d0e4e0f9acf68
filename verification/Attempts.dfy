/** Several attempts at the speech service that share one audio channel. After a retry the
    goroutine of an earlier attempt may still be receiving; every interleaving is allowed. */
module Attempts {
  import opened Bytes
  import opened Framing
  import opened OggPage
  import opened OggWriter
  import opened Opus
  import opened Opus2Ogg

  // ---------------------------------------------------------------------------------
  // The state machine
  // ---------------------------------------------------------------------------------

  /** The goroutine that turns packets into pages: it receives, or is blocked writing the last
      packet it has received to its pipe, or has returned. */
  datatype Consumer = Receiving | Writing | Returned

  /** The other end of the pipe: Start waits for the first audio data, then opens a connection
      to the service, which is accepted or refused; or it fails without having opened one. */
  datatype Service = AwaitingAudio | HasAudio | Accepted | Refused | NoAudio

  /** The size of the buffers that the pipe is read with. */
  const FRAME_SIZE := 10240

  /** The attempt's own writer and its pipe: the writes that have still to be read, the first of
      them perhaps in part, and the bytes read so far. */
  datatype Output = Output(
    serial: U32, sampleRate: U32, channelCount: nat, granule: U64, index: U32,
    unread: seq<seq<Byte>>, data: seq<Byte>)
  {
    function Header(k: nat): Page
      requires k < 2
    {
      HeaderPages(serial, 0, sampleRate, channelCount)[k]
    }
  }

  /** `got` are the positions in the channel's history this attempt has received, `pages` those
      whose audio page has been read from its pipe to the end. */
  datatype Attempt = Attempt(
    consumer: Consumer, service: Service, cancelled: bool, got: seq<nat>, pages: seq<nat>, out: Output)

  /** The request handler: between attempts, inside Handle of an attempt, reading the results of
      one, waiting to retry after one, or finished. */
  datatype Main = Between | InHandle(a: nat) | Results(a: nat) | RetryWait(a: nat) | Finished

  /** `received` is the history of the shared channel; `drained` the positions the retry wait has
      received and dropped. */
  datatype State = State(
    received: seq<Item>,
    closed: bool,
    attempts: seq<Attempt>,
    drained: seq<nat>,
    main: Main,
    crashed: bool)

  const START := State([], false, [], [], Between, false)

  datatype Action =
    | StartAttempt(serial: U32, sampleRate: U32, channelCount: nat)
    | Receive(a: nat, x: Item)
    | SeeClosed(a: nat)
    | ReadPipe(a: nat, n: nat)  // Start, and then its forwarding loop, reads n bytes of one write
    | AudioFails(a: nat)      // the pipe is closed before any audio
    | Connect(a: nat, accepted: bool)
    | PipeCloses(a: nat)      // the write fails: the reader is gone or the context is done
    | ContextDone(a: nat)
    | Crash(a: nat)           // a packet too short for its own first byte
    | HandleReturns
    | Drain(x: Item)
    | Retry
    | Finish
    | CloseChannel

  function Opened(t: Attempt): nat
  {
    if t.service.Accepted? || t.service.Refused? then 1 else 0
  }

  predicate Enabled(s: State, act: Action)
  {
    && !s.crashed
    && match act
      case StartAttempt(_, _, _) => s.main.Between?
      case Receive(a, _) => a < |s.attempts| && s.attempts[a].consumer.Receiving? && !s.closed
      case SeeClosed(a) => a < |s.attempts| && s.attempts[a].consumer.Receiving? && s.closed
      case ReadPipe(a, n) =>
        a < |s.attempts| && (s.attempts[a].service.AwaitingAudio? || s.attempts[a].service.Accepted?)
        && s.attempts[a].consumer.Writing? && s.attempts[a].got != [] && CanRead(s.attempts[a].out, n)
      case AudioFails(a) =>
        a < |s.attempts| && s.attempts[a].service.AwaitingAudio?
        && (s.attempts[a].consumer.Returned? || s.attempts[a].cancelled || s.main.Finished?)
      case Connect(a, _) => a < |s.attempts| && s.attempts[a].service.HasAudio?
      case PipeCloses(a) => a < |s.attempts| && s.attempts[a].consumer.Writing?
      case ContextDone(a) =>
        a < |s.attempts| && s.attempts[a].consumer.Receiving?
        && (s.attempts[a].cancelled || s.main.Finished?)
      case Crash(a) =>
        a < |s.attempts| && s.attempts[a].consumer.Writing? && s.attempts[a].out.unread == []
      case HandleReturns =>
        s.main.InHandle? && s.main.a < |s.attempts|
        && (s.attempts[s.main.a].service.Accepted? || s.attempts[s.main.a].service.Refused?)
      case Drain(_) => s.main.RetryWait? && !s.closed
      case Retry => s.main.RetryWait? || s.main.Results?
      case Finish => true
      case CloseChannel => true
  }

  function Last(t: Attempt): nat
    requires t.got != []
  {
    t.got[|t.got| - 1]
  }

  function PayloadAt(received: seq<Item>, p: nat): seq<Byte>
  {
    if p < |received| && received[p].Packet? then received[p].payload else []
  }

  /** An audio packet: no error, and not empty. */
  predicate IsAudio(x: Item)
  {
    x.Packet? && x.payload != []
  }

  /** Writing one packet: the header pages first, if there are none yet, and then its page. */
  function Put(w: Output, first: bool, payload: seq<Byte>): Output
  {
    var v := if first then w.(index := 2, unread := w.unread + [Encode(w.Header(0)), Encode(w.Header(1))]) else w;
    if !Readable(payload) then v
    else
      var page := AudioPage(v.serial, v.granule, v.index, payload);
      v.(granule := page.granule, index := Next32(v.index), unread := v.unread + [Encode(page)])
  }

  /** A read returns a part of one write, at most a buffer full. */
  predicate CanRead(w: Output, n: nat)
  {
    w.unread != [] && 0 < n <= |w.unread[0]| && n <= FRAME_SIZE
  }

  function Read(w: Output, n: nat): Output
    requires CanRead(w, n)
  {
    var head, rest := w.unread[0], w.unread[1..];
    w.(unread := if n == |head| then rest else [head[n..]] + rest, data := w.data + head[..n])
  }

  /** After a read; the consumer receives again once its writes have been read and have not
      crashed the program. */
  function AfterRead(t: Attempt, received: seq<Item>, n: nat): Attempt
    requires CanRead(t.out, n) && t.got != []
  {
    var out := Read(t.out, n);
    var u := t.(service := if t.service.AwaitingAudio? then HasAudio else t.service, out := out);
    if out.unread == [] && Readable(PayloadAt(received, Last(t))) then
      u.(consumer := Receiving, pages := t.pages + [Last(t)])
    else u
  }

  /** After a receipt: an error and an empty packet end the consumer, anything else is written. */
  function AfterReceive(t: Attempt, position: nat, x: Item): Attempt
  {
    var u := t.(got := t.got + [position]);
    if IsAudio(x) then u.(consumer := Writing, out := Put(t.out, t.got == [], x.payload))
    else u.(consumer := Returned)
  }

  /** The pipe is closed under a write. */
  function Abandoned(t: Attempt): Attempt
  {
    t.(consumer := Returned, out := t.out.(unread := []))
  }

  function With(s: State, a: nat, t: Attempt): State
    requires a < |s.attempts|
  {
    s.(attempts := s.attempts[a := t])
  }

  function Next(s: State, act: Action): State
    requires Enabled(s, act)
  {
    match act
    case StartAttempt(serial, sampleRate, channelCount) =>
      var out := Output(serial, sampleRate, channelCount, 1, 0, [], []);
      s.(attempts := s.attempts + [Attempt(Receiving, AwaitingAudio, false, [], [], out)],
         main := InHandle(|s.attempts|))
    case Receive(a, x) =>
      var t := s.attempts[a];
      With(s, a, AfterReceive(t, |s.received|, x)).(received := s.received + [x])
    case SeeClosed(a) => With(s, a, s.attempts[a].(consumer := Returned))
    case ReadPipe(a, n) => With(s, a, AfterRead(s.attempts[a], s.received, n))
    case AudioFails(a) => With(s, a, s.attempts[a].(service := NoAudio))
    case Connect(a, accepted) => With(s, a, s.attempts[a].(service := if accepted then Accepted else Refused))
    case PipeCloses(a) => With(s, a, Abandoned(s.attempts[a]))
    case ContextDone(a) => With(s, a, s.attempts[a].(consumer := Returned))
    case Crash(a) => s.(crashed := true)
    case HandleReturns =>
      s.(main := if s.attempts[s.main.a].service.Accepted? then Results(s.main.a) else RetryWait(s.main.a))
    case Drain(x) => s.(drained := s.drained + [|s.received|], received := s.received + [x])
    case Retry =>
      var a := s.main.a;
      if a < |s.attempts| then With(s, a, s.attempts[a].(cancelled := true)).(main := Between)
      else s.(main := Between)
    case Finish => s.(main := Finished)
    case CloseChannel => s.(closed := true)
  }

  predicate IsRun(s0: State, actions: seq<Action>, s: State)
    decreases |actions|
  {
    if actions == [] then s == s0
    else Enabled(s0, actions[0]) && IsRun(Next(s0, actions[0]), actions[1..], s)
  }

  ghost predicate Reachable(s: State)
  {
    exists actions :: IsRun(START, actions, s)
  }

  // ---------------------------------------------------------------------------------
  // Who has received what
  // ---------------------------------------------------------------------------------

  /** The positions 0 to n - 1, each once. */
  function Positions(n: nat): (m: multiset<nat>)
    ensures |m| == n
  {
    if n == 0 then multiset{} else Positions(n - 1) + multiset{n - 1}
  }

  function Received(attempts: seq<Attempt>): multiset<nat>
  {
    if attempts == [] then multiset{}
    else Received(attempts[..|attempts| - 1]) + multiset(attempts[|attempts| - 1].got)
  }

  predicate Increasing(s: seq<nat>)
  {
    forall i, j :: 0 <= i < j < |s| ==> s[i] < s[j]
  }

  predicate Bounded(positions: seq<nat>, n: nat)
  {
    forall i :: 0 <= i < |positions| ==> positions[i] < n
  }

  predicate AudioAt(received: seq<Item>, p: nat)
  {
    p < |received| && IsAudio(received[p])
  }

  /** Packets whose pages can be written. */
  predicate AllAudio(received: seq<Item>, positions: seq<nat>)
  {
    forall i :: 0 <= i < |positions| ==>
      AudioAt(received, positions[i]) && Readable(received[positions[i]].payload)
  }

  predicate PositionsKeep(t: Attempt, received: seq<Item>)
  {
    && Increasing(t.got) && Bounded(t.got, |received|) && AllAudio(received, t.pages)
    // Pages follow the packets received; at most the last packet has no page.
    && t.pages <= t.got && |t.got| <= |t.pages| + 1
    && (t.consumer.Receiving? ==> t.pages == t.got)
    && (t.consumer.Writing? ==> t.got != [] && t.got == t.pages + [Last(t)] && AudioAt(received, Last(t)))
    && (|t.pages| > 0 ==> t.service.Accepted?)
    && (t.service.HasAudio? || t.service.Accepted? || t.service.Refused? ==>
          t.got != [] && AudioAt(received, t.got[0]))
  }

  function PayloadsAt(received: seq<Item>, positions: seq<nat>): (payloads: seq<seq<Byte>>)
    ensures |payloads| == |positions|
  {
    seq(|positions|, i requires 0 <= i < |positions| => PayloadAt(received, positions[i]))
  }

  /** The items an attempt has received. */
  function ItemsAt(received: seq<Item>, positions: seq<nat>): (items: seq<Item>)
    ensures |items| == |positions|
  {
    seq(|positions|, i requires 0 <= i < |positions| =>
      if positions[i] < |received| then received[positions[i]] else Failure(Eof))
  }

  /** What a consumer alone makes of the items an attempt has received. */
  function SinkOf(received: seq<Item>, got: seq<nat>): (k: Sink)
    ensures k.Valid()
  {
    ConsumeAll(FRESH_SINK, ItemsAt(received, got))
  }

  function StreamOf(w: Output, k: Sink): seq<Byte>
    requires k.Valid()
  {
    SinkBytes(k, w.serial, w.sampleRate, w.channelCount)
  }

  /** The writer is where the consumer is. */
  predicate InStep(w: Output, k: Sink)
    requires k.Valid()
  {
    w.granule == GranuleAfter(1, k.packets) && (k.started ==> w.index == (2 + |k.packets|) % TWO32)
  }

  /** Bytes read and writes still to be read are together the stream of the items received; the
      pages counted as read have been read. */
  predicate PipeKeeps(t: Attempt, k: Sink)
    requires k.Valid()
  {
    var w := t.out;
    && InStep(w, k)
    && (if t.consumer.Returned? then w.unread == [] && w.data <= StreamOf(w, k)
        else w.data + Concat(w.unread) == StreamOf(w, k))
    && (t.consumer.Receiving? ==> w.unread == [] && k.end.Running? && (k.started <==> t.got != []))
    && (t.consumer.Writing? ==> k.started && if k.end.Running? then w.unread != [] else k.end.Crashed?)
    && (t.consumer.Writing? && t.service.AwaitingAudio? ==> |w.unread| >= 2)
  }

  predicate PagesRead(w: Output, packets: seq<seq<Byte>>)
  {
    AllReadable(packets)
    && (packets != [] ==> EncodeAll(OggStream(w.serial, w.sampleRate, w.channelCount, packets)) <= w.data)
  }

  predicate StreamKeeps(t: Attempt, received: seq<Item>)
  {
    PipeKeeps(t, SinkOf(received, t.got)) && PagesRead(t.out, PayloadsAt(received, t.pages))
  }

  predicate AttemptKeeps(t: Attempt, received: seq<Item>)
  {
    PositionsKeep(t, received) && StreamKeeps(t, received)
  }

  predicate Invariant(s: State)
  {
    && (forall a :: 0 <= a < |s.attempts| ==> AttemptKeeps(s.attempts[a], s.received))
    && Received(s.attempts) + multiset(s.drained) == Positions(|s.received|)
  }

  lemma {:induction false} ReceivedSame(a: seq<Attempt>, b: seq<Attempt>)
    requires |a| == |b| && forall i :: 0 <= i < |a| ==> a[i].got == b[i].got
    ensures Received(a) == Received(b)
  {
    if a != [] {
      ReceivedSame(a[..|a| - 1], b[..|b| - 1]);
    }
  }

  lemma {:induction false} ReceivedOneMore(a: seq<Attempt>, i: nat, t: Attempt, p: nat)
    requires i < |a| && t.got == a[i].got + [p]
    ensures Received(a[i := t]) == Received(a) + multiset{p}
  {
    var b, n := a[i := t], |a| - 1;
    if i < n {
      assert b[..n] == a[..n][i := t] && b[n] == a[n];
      ReceivedOneMore(a[..n], i, t, p);
      SwapLast(Received(a[..n]), multiset(a[n].got), multiset{p});
    } else {
      assert b[..n] == a[..n] && b[n] == t;
      assert multiset(t.got) == multiset(a[i].got) + multiset{p};
      SwapLast(Received(a[..n]), multiset(a[n].got), multiset{p});
    }
  }

  /** The next position goes either to an attempt or to the drain. */
  lemma NextPosition(r: multiset<nat>, drained: seq<nat>, n: nat)
    requires r + multiset(drained) == Positions(n)
    ensures (r + multiset{n}) + multiset(drained) == Positions(n + 1)
    ensures r + multiset(drained + [n]) == Positions(n + 1)
  {
    SwapLast(r, multiset(drained), multiset{n});
    assert multiset(drained + [n]) == multiset(drained) + multiset{n};
  }

  lemma SwapLast(a: multiset<nat>, b: multiset<nat>, c: multiset<nat>)
    ensures a + b + c == a + c + b && a + (b + c) == a + b + c
  {
  }

  lemma SameItems(received: seq<Item>, x: Item, positions: seq<nat>)
    requires Bounded(positions, |received|)
    ensures PayloadsAt(received + [x], positions) == PayloadsAt(received, positions)
    ensures ItemsAt(received + [x], positions) == ItemsAt(received, positions)
    ensures Bounded(positions, |received + [x]|)
  {
    assert forall i :: 0 <= i < |positions| ==> (received + [x])[positions[i]] == received[positions[i]];
  }

  lemma MoreAudio(received: seq<Item>, x: Item, positions: seq<nat>)
    requires AllAudio(received, positions)
    ensures AllAudio(received + [x], positions) && Bounded(positions, |received|)
  {
    assert forall i :: 0 <= i < |positions| ==> (received + [x])[positions[i]] == received[positions[i]];
  }

  lemma MorePositions(t: Attempt, received: seq<Item>, x: Item)
    requires PositionsKeep(t, received)
    ensures PositionsKeep(t, received + [x])
    ensures PayloadsAt(received + [x], t.pages) == PayloadsAt(received, t.pages)
    ensures ItemsAt(received + [x], t.got) == ItemsAt(received, t.got)
  {
    MoreAudio(received, x, t.pages);
    SameItems(received, x, t.got);
    SameItems(received, x, t.pages);
    hide Increasing, Bounded, AllAudio, PayloadsAt, ItemsAt, IsAudio;
  }

  lemma MoreHistory(t: Attempt, received: seq<Item>, x: Item)
    requires AttemptKeeps(t, received)
    ensures AttemptKeeps(t, received + [x])
  {
    hide PositionsKeep, PipeKeeps, PagesRead, PayloadsAt, ItemsAt;
    MorePositions(t, received, x);
  }

  lemma OnePositionMore(got: seq<nat>, n: nat)
    requires Increasing(got) && Bounded(got, n)
    ensures Increasing(got + [n]) && Bounded(got + [n], n + 1)
  {
  }

  lemma PositionsReceive(t: Attempt, received: seq<Item>, x: Item)
    requires PositionsKeep(t, received) && t.consumer.Receiving?
    ensures PositionsKeep(AfterReceive(t, |received|, x), received + [x])
  {
    hide Increasing, Bounded, AllAudio, IsAudio, Put;
    MorePositions(t, received, x);
    OnePositionMore(t.got, |received|);
    var u := t.got + [|received|];
    assert u[|u| - 1] == |received| && (received + [x])[|received|] == x;
    assert t.got != [] ==> u[0] == t.got[0];
  }

  lemma ItemsSnoc(received: seq<Item>, got: seq<nat>, x: Item)
    requires Bounded(got, |received|)
    ensures ItemsAt(received + [x], got + [|received|]) == ItemsAt(received, got) + [x]
  {
    SameItems(received, x, got);
  }

  /** One more item for a running consumer. */
  lemma SinkSnoc(received: seq<Item>, got: seq<nat>, x: Item)
    requires Bounded(got, |received|) && SinkOf(received, got).end.Running?
    ensures SinkOf(received + [x], got + [|received|]) == Consume(SinkOf(received, got), x)
  {
    hide ItemsAt, ConsumeAll, Consume;
    ItemsSnoc(received, got, x);
    ConsumeAllAppend(FRESH_SINK, ItemsAt(received, got), [x]);
    ConsumeOne(SinkOf(received, got), x);
  }

  lemma ConcatTwo(a: seq<Byte>, b: seq<Byte>)
    ensures Concat([]) == [] && Concat([a, b]) == a + b
  {
    ConcatSnoc([a], b);
    ConcatSnoc([], a);
    assert [] + [a] == [a] && [a] + [b] == [a, b] && [] + a == a;
  }

  lemma HeadersStream(w: Output, k: Sink)
    requires k.Valid() && k.packets == []
    ensures StreamOf(w, k) == if k.started then Encode(w.Header(0)) + Encode(w.Header(1)) else []
  {
    hide Encode, EncodeAll, OggStream, IdHeader, CommentHeader;
    OggStreamOfNothing(w.serial, w.sampleRate, w.channelCount);
    EncodePair(w.Header(0), w.Header(1));
    assert [w.Header(0), w.Header(1)] == HeaderPages(w.serial, 0, w.sampleRate, w.channelCount);
  }

  /** The page of one more packet. */
  lemma PageStream(w: Output, k: Sink, p: seq<Byte>)
    requires k.Valid() && k.end.Running? && k.started && InStep(w, k) && Readable(p)
    ensures var n := Consume(k, Packet(p, false)); var page := AudioPage(w.serial, w.granule, w.index, p);
      && n == Sink(true, k.packets + [p], Running)
      && StreamOf(w, n) == StreamOf(w, k) + Encode(page)
      && page.granule == GranuleAfter(1, n.packets) && Next32(page.index) == (2 + |n.packets|) % TWO32
  {
    hide Encode, EncodeAll, OggStream, GranuleAfter, Duration;
    OggStreamSnoc(w.serial, w.sampleRate, w.channelCount, k.packets, p);
  }

  /** With the headers, if there are none yet. */
  function Started(w: Output, first: bool): Output
  {
    if first then w.(index := 2, unread := [Encode(w.Header(0)), Encode(w.Header(1))]) else w
  }

  lemma PutIs(w: Output, first: bool, p: seq<Byte>)
    requires w.unread == []
    ensures var v := Started(w, first);
      Put(w, first, p) == if !Readable(p) then v
        else var page := AudioPage(v.serial, v.granule, v.index, p);
          v.(granule := page.granule, index := Next32(v.index), unread := v.unread + [Encode(page)])
  {
    hide Encode, Readable, HeaderPages;
    assert [] + [Encode(w.Header(0)), Encode(w.Header(1))] == [Encode(w.Header(0)), Encode(w.Header(1))];
  }

  /** What Put hands to the pipe is what the consumer's stream grows by. */
  lemma PutGrows(w: Output, k: Sink, p: seq<Byte>)
    requires k.Valid() && k.end.Running? && InStep(w, k) && w.unread == [] && p != []
    requires !k.started ==> k.packets == []
    ensures var v := Put(w, !k.started, p); var n := Consume(k, Packet(p, false));
      && InStep(v, n) && v.data == w.data
      && v.serial == w.serial && v.sampleRate == w.sampleRate && v.channelCount == w.channelCount
      && StreamOf(w, n) == StreamOf(w, k) + Concat(v.unread)
      && n.started && (if Readable(p) then n.end.Running? && v.unread != [] else n.end.Crashed?)
      && (!k.started ==> |v.unread| >= 2)
  {
    var j, v := k.(started := true), Started(w, !k.started);
    PutIs(w, !k.started, p);
    StartedKeeps(w, k);
    ConsumesOne(k, p);
    if Readable(p) {
      PageGrows(v, j, p);
    }
    hide Encode, HeaderPages, GranuleAfter, StreamOf, Started, Readable, AudioPage, Consume, Put;
    var n := Consume(k, Packet(p, false));
    if Readable(p) {
      SeqAssociative(StreamOf(w, k), Concat(v.unread), Encode(AudioPage(v.serial, v.granule, v.index, p)));
      SameWriter(w, v, n);
    } else {
      SameStreamOf(w, j, n);
    }
  }

  lemma ConsumesOne(k: Sink, p: seq<Byte>)
    requires k.Valid() && k.end.Running? && p != []
    ensures Consume(k, Packet(p, false)) ==
      if Readable(p) then Sink(true, k.packets + [p], Running) else k.(started := true, end := Crashed)
  {
  }

  lemma PageGrows(v: Output, j: Sink, p: seq<Byte>)
    requires j.Valid() && j.end.Running? && j.started && InStep(v, j) && Readable(p)
    ensures var page := AudioPage(v.serial, v.granule, v.index, p); var n := Sink(true, j.packets + [p], Running);
      && n.Valid() && StreamOf(v, n) == StreamOf(v, j) + Encode(page)
      && Concat(v.unread + [Encode(page)]) == Concat(v.unread) + Encode(page)
      && page.granule == GranuleAfter(1, n.packets) && Next32(v.index) == (2 + |n.packets|) % TWO32
  {
    PageStream(v, j, p);
    hide Encode, GranuleAfter, StreamOf;
    ConcatSnoc(v.unread, Encode(AudioPage(v.serial, v.granule, v.index, p)));
  }

  lemma SameWriter(w: Output, v: Output, k: Sink)
    requires k.Valid() && v.serial == w.serial && v.sampleRate == w.sampleRate && v.channelCount == w.channelCount
    ensures StreamOf(v, k) == StreamOf(w, k)
  {
  }

  lemma StartedKeeps(w: Output, k: Sink)
    requires k.Valid() && InStep(w, k) && w.unread == [] && (!k.started ==> k.packets == [])
    ensures var j, v := k.(started := true), Started(w, !k.started);
      && j.Valid() && InStep(v, j) && v.data == w.data && (!k.started ==> |v.unread| == 2)
      && v.serial == w.serial && v.sampleRate == w.sampleRate && v.channelCount == w.channelCount
      && StreamOf(w, j) == StreamOf(w, k) + Concat(v.unread) == StreamOf(v, j)
  {
    hide Encode, HeaderPages, GranuleAfter, SinkBytes;
    var j, v := k.(started := true), Started(w, !k.started);
    ConcatTwo(Encode(w.Header(0)), Encode(w.Header(1)));
    if !k.started {
      HeadersStream(w, k);
      HeadersStream(w, j);
      assert [] + Concat(v.unread) == Concat(v.unread);
    } else {
      assert j == k;
      assert StreamOf(w, k) + [] == StreamOf(w, k);
    }
  }

  /** Silent or not makes no difference to the consumer. */
  lemma ConsumeMark(k: Sink, p: seq<Byte>, silent: bool)
    requires k.Valid() && k.end.Running?
    ensures Consume(k, Packet(p, silent)) == Consume(k, Packet(p, false))
  {
  }

  lemma ConsumeOther(k: Sink, x: Item)
    requires k.Valid() && k.end.Running? && !IsAudio(x)
    ensures var n := Consume(k, x); n.started == k.started && n.packets == k.packets
  {
  }

  lemma PipeReceives(t: Attempt, k: Sink, position: nat, x: Item)
    requires k.Valid() && t.consumer.Receiving? && PipeKeeps(t, k) && (!k.started ==> k.packets == [])
    requires t.service.AwaitingAudio? ==> t.got == []
    ensures k.end.Running? && PipeKeeps(AfterReceive(t, position, x), Consume(k, x))
    ensures AfterReceive(t, position, x).out.data == t.out.data
  {
    hide SinkBytes, GranuleAfter, Consume, Put;
    if IsAudio(x) {
      PutGrows(t.out, k, x.payload);
      ConsumeMark(k, x.payload, x.silent);
      assert t.out.data + Concat([]) == t.out.data;
    } else {
      ConsumeOther(k, x);
      SameStreamOf(t.out, k, Consume(k, x));
      assert t.out.data + Concat([]) == t.out.data;
    }
  }

  lemma SameStreamOf(w: Output, a: Sink, b: Sink)
    requires a.Valid() && b.Valid() && a.started == b.started && a.packets == b.packets
    ensures StreamOf(w, a) == StreamOf(w, b)
  {
  }

  lemma SinkStarts(k: Sink)
    requires k.Valid()
    ensures !k.started ==> k.packets == []
  {
  }

  lemma AttemptReceives(t: Attempt, received: seq<Item>, x: Item)
    requires AttemptKeeps(t, received) && t.consumer.Receiving?
    ensures AttemptKeeps(AfterReceive(t, |received|, x), received + [x])
  {
    var k := SinkOf(received, t.got);
    PositionsReceive(t, received, x);
    MorePositions(t, received, x);
    assert Bounded(t.got, |received|);
    assert t.service.AwaitingAudio? ==> t.got == [];
    SinkStarts(k);
    hide PositionsKeep, PipeKeeps, AfterReceive, SinkOf, PayloadsAt, ItemsAt, IsAudio, Consume;
    PipeReceives(t, k, |received|, x);
    SinkSnoc(received, t.got, x);
    PagesAlone(t, received, x);
  }

  lemma PagesAlone(t: Attempt, received: seq<Item>, x: Item)
    requires PagesRead(t.out, PayloadsAt(received, t.pages))
    requires PayloadsAt(received + [x], t.pages) == PayloadsAt(received, t.pages)
    ensures var u := AfterReceive(t, |received|, x);
      PagesRead(u.out, PayloadsAt(received + [x], u.pages)) && u.got == t.got + [|received|]
  {
    hide PayloadsAt, AllReadable, EncodeAll, OggStream, Encode, Readable, AudioPage;
  }

  /** Reading moves bytes from the writes to the data. */
  lemma ReadMoves(w: Output, n: nat)
    requires CanRead(w, n)
    ensures var v := Read(w, n);
      && v.data + Concat(v.unread) == w.data + Concat(w.unread) && w.data <= v.data
      && |v.unread| >= |w.unread| - 1
      && v == w.(data := v.data, unread := v.unread)
  {
    var head, rest := w.unread[0], w.unread[1..];
    assert head == head[..n] + head[n..];
    SeqAssociative(head[..n], head[n..], Concat(rest));
    SeqAssociative(w.data, head[..n], Concat(Read(w, n).unread));
    assert n < |head| ==> ([head[n..]] + rest)[1..] == rest;
  }

  lemma PipeReads(t: Attempt, k: Sink, received: seq<Item>, n: nat)
    requires k.Valid() && t.consumer.Writing? && t.got != [] && PipeKeeps(t, k) && CanRead(t.out, n)
    requires k.end.Running? <==> Readable(PayloadAt(received, Last(t)))
    ensures PipeKeeps(AfterRead(t, received, n), k)
    ensures AfterRead(t, received, n).consumer.Receiving? ==>
      !t.service.AwaitingAudio? && AfterRead(t, received, n).out.data == StreamOf(t.out, k)
  {
    hide SinkBytes, GranuleAfter, Readable, Read;
    ReadMoves(t.out, n);
    var v := Read(t.out, n);
    assert v.unread == [] ==> v.data + Concat(v.unread) == v.data;
  }

  /** The consumer of readable packets. */
  lemma {:induction false} ConsumesReadable(items: seq<Item>, packets: seq<seq<Byte>>)
    requires |items| == |packets| && AllReadable(packets)
    requires forall i :: 0 <= i < |items| ==> items[i].Packet? && items[i].payload == packets[i]
    ensures ConsumeAll(FRESH_SINK, items) == Sink(packets != [], packets, Running)
  {
    if items != [] {
      var n := |items| - 1;
      assert AllReadable(packets[..n]);
      ConsumesReadable(items[..n], packets[..n]);
      assert items == items[..n] + [items[n]] && packets == packets[..n] + [packets[n]];
      ConsumeAllAppend(FRESH_SINK, items[..n], [items[n]]);
      ConsumeOne(ConsumeAll(FRESH_SINK, items[..n]), items[n]);
    }
  }

  /** A consumer of packets that can all be written. */
  lemma ConsumesAudio(received: seq<Item>, positions: seq<nat>)
    requires AllAudio(received, positions)
    ensures AllReadable(PayloadsAt(received, positions))
    ensures SinkOf(received, positions) == Sink(positions != [], PayloadsAt(received, positions), Running)
  {
    hide Readable;
    ConsumesReadable(ItemsAt(received, positions), PayloadsAt(received, positions));
  }

  /** While it is writing, its last packet decides whether it still runs. */
  lemma LastDecides(t: Attempt, received: seq<Item>)
    requires PositionsKeep(t, received) && t.consumer.Writing?
    ensures SinkOf(received, t.got).end.Running? <==> Readable(PayloadAt(received, Last(t)))
  {
    var n := |t.got| - 1;
    var items, before := ItemsAt(received, t.got), ItemsAt(received, t.pages);
    assert items == before + [items[n]];
    ConsumesAudio(received, t.pages);
    ConsumeAllAppend(FRESH_SINK, before, [items[n]]);
    ConsumeOne(ConsumeAll(FRESH_SINK, before), items[n]);
  }

  lemma OneMoreAudio(received: seq<Item>, positions: seq<nat>, p: nat)
    requires AllAudio(received, positions) && AudioAt(received, p) && Readable(PayloadAt(received, p))
    ensures AllAudio(received, positions + [p])
  {
    hide Readable;
  }

  lemma PositionsRead(t: Attempt, received: seq<Item>, n: nat)
    requires PositionsKeep(t, received) && t.consumer.Writing? && CanRead(t.out, n)
    requires t.service.AwaitingAudio? || t.service.Accepted?
    requires AfterRead(t, received, n).consumer.Receiving? ==> t.service.Accepted?
    ensures PositionsKeep(AfterRead(t, received, n), received)
  {
    if Readable(PayloadAt(received, Last(t))) {
      OneMoreAudio(received, t.pages, Last(t));
    }
    hide Readable, Read, CanRead, Increasing, Bounded, AllAudio, AudioAt, PayloadAt;
    assert t.service.AwaitingAudio? ==> t.pages == [] && |t.got| == 1;
  }

  lemma PagesReadOn(w: Output, v: Output, packets: seq<seq<Byte>>)
    requires PagesRead(w, packets) && w.data <= v.data
    requires v.serial == w.serial && v.sampleRate == w.sampleRate && v.channelCount == w.channelCount
    ensures PagesRead(v, packets)
  {
    hide EncodeAll, OggStream, AllReadable;
  }

  lemma ReadTail(t: Attempt, received: seq<Item>, n: nat)
    requires CanRead(t.out, n) && t.got != [] && t.consumer.Writing?
    ensures var u := AfterRead(t, received, n);
      && u.got == t.got && u.out == Read(t.out, n)
      && if u.consumer == t.consumer then u.pages == t.pages
         else u.consumer.Receiving? && u.pages == t.pages + [Last(t)]
  {
    hide Readable, Read, CanRead;
  }

  lemma AttemptReads(t: Attempt, received: seq<Item>, n: nat)
    requires AttemptKeeps(t, received) && t.consumer.Writing? && CanRead(t.out, n)
    requires t.service.AwaitingAudio? || t.service.Accepted?
    ensures t.got != [] && AttemptKeeps(AfterRead(t, received, n), received)
  {
    assert t.got != [];
    var u, k := AfterRead(t, received, n), SinkOf(received, t.got);
    LastDecides(t, received);
    ReadTail(t, received, n);
    ReadMoves(t.out, n);
    hide AfterRead, Read, CanRead, PipeKeeps, Readable, SinkOf, PayloadsAt;
    PipeReads(t, k, received, n);
    PositionsRead(t, received, n);
    if u.consumer.Receiving? {
      hide PositionsKeep;
      AllPagesRead(u, received);
    } else {
      PagesReadOn(t.out, u.out, PayloadsAt(received, t.pages));
    }
  }

  lemma AllPagesRead(u: Attempt, received: seq<Item>)
    requires PositionsKeep(u, received) && u.consumer.Receiving?
    requires u.out.data == StreamOf(u.out, SinkOf(received, u.got))
    ensures PagesRead(u.out, PayloadsAt(received, u.pages))
  {
    ConsumesAudio(received, u.pages);
    hide PositionsKeep, SinkOf, PayloadsAt, AllReadable, EncodeAll, OggStream;
  }

  lemma NewAttemptKeeps(received: seq<Item>, out: Output)
    requires out.data == [] && out.unread == [] && out.granule == 1
    ensures AttemptKeeps(Attempt(Receiving, AwaitingAudio, false, [], [], out), received)
  {
    assert ItemsAt(received, []) == [];
  }

  /** The goroutine returns while it is not writing. */
  lemma AttemptReturns(t: Attempt, received: seq<Item>)
    requires AttemptKeeps(t, received) && t.consumer.Receiving?
    ensures AttemptKeeps(t.(consumer := Returned), received)
  {
    hide Increasing, Bounded, AllAudio, AudioAt, SinkOf, PagesRead, StreamOf, InStep;
    assert t.out.data + Concat([]) == t.out.data;
  }

  /** The pipe is closed under a write. */
  lemma AttemptAbandons(t: Attempt, received: seq<Item>)
    requires AttemptKeeps(t, received) && t.consumer.Writing?
    ensures AttemptKeeps(Abandoned(t), received)
  {
    hide Increasing, Bounded, AllAudio, AudioAt, SinkOf, StreamOf, GranuleAfter, PayloadsAt;
    PagesReadOn(t.out, Abandoned(t).out, PayloadsAt(received, t.pages));
    SameWriter(t.out, Abandoned(t).out, SinkOf(received, t.got));
    hide PagesRead;
    assert t.out.data <= t.out.data + Concat(t.out.unread);
  }

  /** The request is cancelled, the audio never comes, the connection is accepted or refused. */
  lemma AttemptOutside(t: Attempt, received: seq<Item>, service: Service, cancelled: bool)
    requires AttemptKeeps(t, received)
    requires service == t.service || (t.service.AwaitingAudio? && service.NoAudio?)
             || (t.service.HasAudio? && (service.Accepted? || service.Refused?))
    ensures AttemptKeeps(t.(service := service, cancelled := cancelled), received)
  {
    hide Increasing, Bounded, AllAudio, AudioAt, SinkOf, PagesRead, StreamOf, InStep;
  }

  /** An action that changes one attempt, and not what it has received. */
  lemma OneChanged(s: State, a: nat, t: Attempt, main: Main)
    requires Invariant(s) && a < |s.attempts|
    requires AttemptKeeps(t, s.received) && t.got == s.attempts[a].got
    ensures Invariant(With(s, a, t).(main := main))
  {
    hide AttemptKeeps;
    ReceivedSame(s.attempts, s.attempts[a := t]);
  }

  lemma StartKeeps(s: State, act: Action)
    requires Invariant(s) && Enabled(s, act) && act.StartAttempt?
    ensures Invariant(Next(s, act))
  {
    hide AttemptKeeps;
    var t := Next(s, act);
    assert t.attempts[..|s.attempts|] == s.attempts;
    NewAttemptKeeps(s.received, t.attempts[|s.attempts|].out);
  }

  /** What a receive changes. */
  lemma NextReceive(s: State, a: nat, x: Item)
    requires Enabled(s, Receive(a, x))
    ensures a < |s.attempts| && s.attempts[a].consumer.Receiving?
    ensures AfterReceive(s.attempts[a], |s.received|, x).got == s.attempts[a].got + [|s.received|]
    ensures Next(s, Receive(a, x))
         == s.(attempts := s.attempts[a := AfterReceive(s.attempts[a], |s.received|, x)], received := s.received + [x])
  {
  }

  lemma ReceiveKeeps(s: State, a: nat, x: Item)
    requires Invariant(s) && Enabled(s, Receive(a, x))
    ensures Invariant(Next(s, Receive(a, x)))
  {
    hide AttemptKeeps, Next, Enabled, AfterReceive, Received, Positions;
    NextReceive(s, a, x);
    var t := Next(s, Receive(a, x));
    forall i | 0 <= i < |s.attempts| ensures AttemptKeeps(t.attempts[i], t.received) {
      MoreHistory(s.attempts[i], s.received, x);
      if i == a {
        AttemptReceives(s.attempts[a], s.received, x);
      }
    }
    ReceivedOneMore(s.attempts, a, t.attempts[a], |s.received|);
    NextPosition(Received(s.attempts), s.drained, |s.received|);
  }

  lemma DrainKeeps(s: State, x: Item)
    requires Invariant(s) && Enabled(s, Drain(x))
    ensures Invariant(Next(s, Drain(x)))
  {
    hide AttemptKeeps, Received, AfterReceive, AfterRead, Read, CanRead;
    forall i | 0 <= i < |s.attempts| ensures AttemptKeeps(s.attempts[i], s.received + [x]) {
      MoreHistory(s.attempts[i], s.received, x);
    }
    NextPosition(Received(s.attempts), s.drained, |s.received|);
  }

  lemma NextKeeps(s: State, act: Action)
    requires Invariant(s) && Enabled(s, act)
    ensures Invariant(Next(s, act))
  {
    match act
    case StartAttempt(_, _, _) => StartKeeps(s, act);
    case Receive(a, x) => ReceiveKeeps(s, a, x);
    case Drain(x) => DrainKeeps(s, x);
    case _ => ChangeKeeps(s, act);
  }

  /** What an action of one attempt changes. */
  lemma NextOwn(s: State, act: Action)
    requires Enabled(s, act) && (act.SeeClosed? || act.ContextDone? || act.PipeCloses? || act.ReadPipe?)
    ensures act.a < |s.attempts|
    ensures var t := s.attempts[act.a];
      && (if act.PipeCloses? || act.ReadPipe? then t.consumer.Writing? else t.consumer.Receiving?)
      && (act.ReadPipe? ==>
           t.got != [] && CanRead(t.out, act.n) && (t.service.AwaitingAudio? || t.service.Accepted?))
      && Next(s, act) == With(s, act.a,
           if act.ReadPipe? then AfterRead(t, s.received, act.n)
           else if act.PipeCloses? then Abandoned(t)
           else t.(consumer := Returned))
  {
    hide AfterRead, CanRead;
  }

  /** Actions of one attempt. */
  lemma OwnKeeps(s: State, act: Action)
    requires Invariant(s) && Enabled(s, act)
    requires act.SeeClosed? || act.ContextDone? || act.PipeCloses? || act.ReadPipe?
    ensures Invariant(Next(s, act))
  {
    InvariantAttempts(s);
    NextOwn(s, act);
    hide AttemptKeeps, Invariant, Next, Enabled, AfterRead, CanRead;
    var t, u := s.attempts[act.a], Next(s, act);
    if act.ReadPipe? {
      AttemptReads(t, s.received, act.n);
      ReadTail(t, s.received, act.n);
    } else if act.PipeCloses? {
      AttemptAbandons(t, s.received);
    } else {
      AttemptReturns(t, s.received);
    }
    OneChanged(s, act.a, u.attempts[act.a], s.main);
  }

  /** Actions of the service and of the request handler on one attempt. */
  lemma OutsideKeeps(s: State, act: Action)
    requires Invariant(s) && Enabled(s, act) && (act.AudioFails? || act.Connect? || act.Retry?)
    ensures Invariant(Next(s, act))
  {
    InvariantAttempts(s);
    hide AttemptKeeps, Invariant, AfterRead, CanRead;
    var t := Next(s, act);
    var a := if act.Retry? then s.main.a else act.a;
    if a < |s.attempts| {
      AttemptOutside(s.attempts[a], s.received, t.attempts[a].service, t.attempts[a].cancelled);
      OneChanged(s, a, t.attempts[a], t.main);
    } else {
      SameAttempts(s, t);
    }
  }

  lemma ChangeKeeps(s: State, act: Action)
    requires Invariant(s) && Enabled(s, act)
    requires !act.StartAttempt? && !act.Receive? && !act.Drain?
    ensures Invariant(Next(s, act))
  {
    if act.ReadPipe? || act.SeeClosed? || act.ContextDone? || act.PipeCloses? {
      OwnKeeps(s, act);
    } else if act.AudioFails? || act.Connect? || act.Retry? {
      OutsideKeeps(s, act);
    } else {
      hide Invariant;
      SameAttempts(s, Next(s, act));
    }
  }

  lemma InvariantAttempts(s: State)
    requires Invariant(s)
    ensures forall a :: 0 <= a < |s.attempts| ==> AttemptKeeps(s.attempts[a], s.received)
  {
  }

  lemma SameAttempts(s: State, t: State)
    requires Invariant(s) && t.attempts == s.attempts && t.received == s.received && t.drained == s.drained
    ensures Invariant(t)
  {
  }

  lemma {:induction false} RunKeeps(s0: State, actions: seq<Action>, s: State)
    requires Invariant(s0) && IsRun(s0, actions, s)
    ensures Invariant(s)
    decreases |actions|
  {
    hide Invariant, Next, Enabled;
    if actions != [] {
      NextKeeps(s0, actions[0]);
      RunKeeps(Next(s0, actions[0]), actions[1..], s);
    }
  }

  lemma ReachableKeeps(s: State)
    requires Reachable(s)
    ensures Invariant(s)
  {
    var actions :| IsRun(START, actions, s);
    RunKeeps(START, actions, s);
  }

  // ---------------------------------------------------------------------------------
  // Conservation
  // ---------------------------------------------------------------------------------

  lemma {:induction false} PositionsOnce(n: nat, p: nat)
    ensures Positions(n)[p] == if p < n then 1 else 0
  {
    if n > 0 {
      PositionsOnce(n - 1, p);
    }
  }

  lemma {:induction false} ReceivedAtLeast(attempts: seq<Attempt>, a: nat)
    requires a < |attempts|
    ensures multiset(attempts[a].got) <= Received(attempts)
  {
    if a < |attempts| - 1 {
      ReceivedAtLeast(attempts[..|attempts| - 1], a);
    }
  }

  lemma {:induction false} ReceivedTwo(attempts: seq<Attempt>, a: nat, b: nat)
    requires a < b < |attempts|
    ensures multiset(attempts[a].got) + multiset(attempts[b].got) <= Received(attempts)
  {
    var n := |attempts| - 1;
    assert attempts[..n][a] == attempts[a];
    if b < n {
      ReceivedTwo(attempts[..n], a, b);
      assert attempts[..n][b] == attempts[b];
      assert Received(attempts[..n]) <= Received(attempts);
    } else {
      ReceivedAtLeast(attempts[..n], a);
    }
  }

  /** Every packet ever received from the shared channel was received exactly once, by one
      attempt or by the drain of a retry wait, and nothing else was received. */
  lemma ReceivedExactlyOnce(s: State, p: nat)
    requires Reachable(s)
    ensures (Received(s.attempts) + multiset(s.drained))[p] == if p < |s.received| then 1 else 0
  {
    ReachableKeeps(s);
    PositionsOnce(|s.received|, p);
  }

  /** Attempts use disjoint positions, and none that was drained, even while an earlier attempt
      is still receiving. */
  lemma AttemptsDisjoint(s: State, a: nat, b: nat, p: nat)
    requires Reachable(s) && a < b < |s.attempts|
    ensures !(p in s.attempts[a].got && p in s.attempts[b].got)
    ensures !(p in s.attempts[a].got && p in s.drained) && !(p in s.attempts[b].got && p in s.drained)
  {
    ReceivedExactlyOnce(s, p);
    ReceivedTwo(s.attempts, a, b);
    var x, y, d := multiset(s.attempts[a].got), multiset(s.attempts[b].got), multiset(s.drained);
    assert (x + y)[p] <= Received(s.attempts)[p];
    assert p in s.attempts[a].got ==> x[p] > 0;
    assert p in s.attempts[b].got ==> y[p] > 0;
    assert p in s.drained ==> d[p] > 0;
  }

  /** The audio pages of an attempt are those of an in-order subsequence of the channel: packets
      it has received, without gaps among them, except possibly the last one. */
  lemma PagesInOrder(s: State, a: nat)
    requires Reachable(s) && a < |s.attempts|
    ensures var t := s.attempts[a];
      Increasing(t.pages) && t.pages <= t.got && |t.got| <= |t.pages| + 1
    ensures forall i :: 0 <= i < |s.attempts[a].pages| ==>
      AudioAt(s.received, s.attempts[a].pages[i])
  {
    ReachableKeeps(s);
    var t := s.attempts[a];
    assert AttemptKeeps(t, s.received);
    hide StreamKeeps, Readable, IsAudio, Bounded;
    assert forall i :: 0 <= i < |t.pages| ==> t.pages[i] == t.got[i];
  }

  lemma ReadSoFar(t: Attempt, received: seq<Item>)
    requires AttemptKeeps(t, received)
    ensures var w := t.out; var k := SinkOf(received, t.got); var packets := PayloadsAt(received, t.pages);
      && AllReadable(packets)
      && w.data <= StreamOf(w, k)
      && (!t.consumer.Returned? ==> w.data + Concat(w.unread) == StreamOf(w, k))
      && (t.consumer.Receiving? ==> w.data == StreamOf(w, k) && k.packets == packets)
      && (packets != [] ==> EncodeAll(OggStream(w.serial, w.sampleRate, w.channelCount, packets)) <= w.data)
  {
    ConsumesAudio(received, t.pages);
    assert t.consumer.Receiving? ==> t.pages == t.got;
    hide PositionsKeep, SinkOf, PayloadsAt, StreamOf, EncodeAll, OggStream, AllReadable;
    assert t.out.data <= t.out.data + Concat(t.out.unread);
    assert t.out.data + Concat([]) == t.out.data;
  }

  /** Each attempt's pipe is a stream of its own, whatever other attempts do, down to the byte.
      What has been read from it, in reads that may end anywhere, is a prefix of what the consumer
      alone writes for the packets this attempt has received: two header pages and one page a
      packet, with the granule starting again at 1. Together with the writes still to be read it
      is all of that until the consumer returns, and all of it has been read whenever the consumer
      receives. The pages counted as read have been read to the end. */
  lemma OwnStream(s: State, a: nat)
    requires Reachable(s) && a < |s.attempts|
    ensures var t := s.attempts[a]; var w := t.out;
      var k := SinkOf(s.received, t.got); var packets := PayloadsAt(s.received, t.pages);
      && AllReadable(packets)
      && w.data <= StreamOf(w, k)
      && (!t.consumer.Returned? ==> w.data + Concat(w.unread) == StreamOf(w, k))
      && (t.consumer.Receiving? ==> w.data == StreamOf(w, k) && k.packets == packets)
      && (packets != [] ==> EncodeAll(OggStream(w.serial, w.sampleRate, w.channelCount, packets)) <= w.data)
  {
    hide AttemptKeeps, SinkOf, PayloadsAt, StreamOf, EncodeAll, OggStream, AllReadable;
    ReachableKeeps(s);
    ReadSoFar(s.attempts[a], s.received);
  }

  // ---------------------------------------------------------------------------------
  // No connection without audio
  // ---------------------------------------------------------------------------------

  /** The connections opened to the service. */
  function Connections(attempts: seq<Attempt>): nat
  {
    if attempts == [] then 0
    else Connections(attempts[..|attempts| - 1]) + Opened(attempts[|attempts| - 1])
  }

  lemma OpenedHasAudio(t: Attempt, received: seq<Item>)
    requires AttemptKeeps(t, received)
    ensures Opened(t) <= |t.got|
    ensures Opened(t) == 1 ==> t.got != [] && AudioAt(received, t.got[0])
  {
    hide StreamKeeps, Readable;
  }

  lemma {:induction false} ConnectionsBounded(attempts: seq<Attempt>, received: seq<Item>)
    requires forall a :: 0 <= a < |attempts| ==> AttemptKeeps(attempts[a], received)
    ensures Connections(attempts) <= |Received(attempts)|
  {
    hide AttemptKeeps, Opened;
    if attempts != [] {
      var n := |attempts| - 1;
      ConnectionsBounded(attempts[..n], received);
      OpenedHasAudio(attempts[n], received);
      assert |multiset(attempts[n].got)| == |attempts[n].got|;
    }
  }

  /** An attempt opens a connection only after it has itself received an audio packet; so an
      attempt that finds the channel closed opens none, and there are never more connections
      than packets received. */
  lemma NoConnectionWithoutAudio(s: State)
    requires Reachable(s)
    ensures forall a :: 0 <= a < |s.attempts| && Opened(s.attempts[a]) == 1 ==>
      s.attempts[a].got != [] && AudioAt(s.received, s.attempts[a].got[0])
    ensures Connections(s.attempts) <= |s.received|
  {
    hide AttemptKeeps, Opened, Connections;
    ReachableKeeps(s);
    ConnectionsBounded(s.attempts, s.received);
    forall a | 0 <= a < |s.attempts| && Opened(s.attempts[a]) == 1
      ensures s.attempts[a].got != [] && AudioAt(s.received, s.attempts[a].got[0])
    {
      OpenedHasAudio(s.attempts[a], s.received);
    }
    assert |Received(s.attempts)| <= |Received(s.attempts) + multiset(s.drained)|;
  }
}
