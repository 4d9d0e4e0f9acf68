/** The packet pipeline: goroutines joined by unbuffered channels, from the request body to the
    Ogg stream. A state machine whose actions interleave in any order. */
module Pipeline {
  import opened Bytes
  import opened Framing
  import opened Deframer
  import opened Opus
  import opened Opus2Ogg

  // ---------------------------------------------------------------------------------
  // Stages
  // ---------------------------------------------------------------------------------

  datatype Kind = Reader | Header | Silent

  /** One goroutine. `pending` are the items it has still to send before it receives again; a
      stage that is not `live` receives no more, and its channel is closed once nothing is
      pending. `aborted`: it returned because the context was done. */
  datatype Stage = Stage(kind: Kind, residual: seq<Byte>, pending: seq<Item>, live: bool, aborted: bool) {
    predicate Receptive() {
      live && pending == []
    }

    predicate Closed() {
      !live && pending == []
    }
  }

  /** The options of the configuration, in the order they are applied. */
  function Options(audioStreamingHeader: bool, disableSilentPacket: bool): (kinds: seq<Kind>)
  {
    (if audioStreamingHeader then [Header] else [])
    + (if !disableSilentPacket then [Silent] else [])
  }

  function StartStage(kind: Kind): Stage
  {
    Stage(kind, [], [], true, false)
  }

  /** One read of the request body: what it returned, and its error. */
  datatype ReadResult = ReadResult(data: seq<Byte>, err: Option<Err>)

  /** What the reader emits for one read. Bytes that come with an error are dropped. */
  function Emitted(r: ReadResult): seq<Item>
  {
    if r.err.Some? then [Failure(r.err.value)]
    else if r.data == [] then []
    else [Packet(r.data, false)]
  }

  /** What the reader is to emit for all the reads of a body; it stops at the first error. */
  function ReaderOut(feed: seq<ReadResult>): seq<Item>
  {
    if feed == [] then []
    else if feed[0].err.Some? then Emitted(feed[0])
    else Emitted(feed[0]) + ReaderOut(feed[1..])
  }

  predicate NoReadError(feed: seq<ReadResult>)
  {
    forall i :: 0 <= i < |feed| ==> feed[i].err.None?
  }

  /** A stage, ready to receive, receives `x`. */
  function Receive(st: Stage, x: Item): Stage
    requires st.kind != Reader
  {
    if st.kind == Header then
      var f := Feed(st.residual, x);
      st.(residual := f.residual, pending := f.out, live := !f.stopped)
    else st.(pending := [x])
  }

  // ---------------------------------------------------------------------------------
  // The network
  // ---------------------------------------------------------------------------------

  /** `passed[i]` are the items that have gone out of stage i so far, into stage i + 1 or into
      the sink; `feed` are the reads of the body. */
  datatype State = State(
    stages: seq<Stage>,
    passed: seq<seq<Item>>,
    feed: seq<ReadResult>,
    cancelled: bool,
    sink: Sink)
  {
    predicate Shaped() {
      |stages| == |passed| > 0 && sink.Valid()
      && (forall i :: 0 <= i < |stages| ==> (stages[i].kind == Reader <==> i == 0))
      && (forall i :: 0 <= i < |stages| - 1 ==> stages[i].kind != Silent)
    }

    function Last(): nat
      requires Shaped()
    {
      |stages| - 1
    }
  }

  function Init(header: bool, noSilent: bool): State
  {
    var options := Options(header, noSilent);
    State(
      [StartStage(Reader)] + seq(|options|, i requires 0 <= i < |options| => StartStage(options[i])),
      seq(1 + |options|, _ => []), [], false, FRESH_SINK)
  }

  datatype Action =
    | Read(result: ReadResult)  // the body read returns
    | Hand(from: nat)           // a rendezvous: stage `from` sends, the next stage or the sink receives
    | SeeClosed(at: nat)        // a stage finds its input channel closed
    | SinkSeesClosed
    | Tick(at: nat)             // the silent timer fires
    | Cancel                    // the context becomes done
    | Abort(at: nat)            // a stage takes the context's case of a select
    | SinkAborts

  predicate Enabled(s: State, a: Action)
    requires s.Shaped()
  {
    match a
    case Read(_) => s.stages[0].Receptive()
    case Hand(i) =>
      && i < |s.stages| && s.stages[i].pending != []
      && if i + 1 < |s.stages| then s.stages[i + 1].Receptive() else s.sink.end.Running?
    case SeeClosed(i) => 0 < i < |s.stages| && s.stages[i].Receptive() && s.stages[i - 1].Closed()
    case SinkSeesClosed => s.sink.end.Running? && s.stages[s.Last()].Closed()
    case Tick(i) => i < |s.stages| && s.stages[i].kind == Silent && s.stages[i].Receptive()
    case Cancel => true
    // The silent option looks at the context only when it sends.
    case Abort(i) =>
      && s.cancelled && i < |s.stages| && !s.stages[i].Closed()
      && (s.stages[i].kind == Silent ==> s.stages[i].pending != [])
    case SinkAborts => s.cancelled && s.sink.end.Running?
  }

  function Next(s: State, a: Action): (t: State)
    requires s.Shaped() && Enabled(s, a)
    ensures t.Shaped() && |t.stages| == |s.stages|
    ensures forall i :: 0 <= i < |s.stages| ==> t.stages[i].kind == s.stages[i].kind
  {
    match a
    case Read(r) =>
      s.(stages := s.stages[0 := s.stages[0].(pending := Emitted(r), live := r.err.None?)],
         feed := s.feed + [r])
    case Hand(i) =>
      var x := s.stages[i].pending[0];
      var sender := s.stages[i].(pending := s.stages[i].pending[1..]);
      var sent := s.(stages := s.stages[i := sender], passed := s.passed[i := s.passed[i] + [x]]);
      if i + 1 < |s.stages| then
        sent.(stages := sent.stages[i + 1 := Receive(s.stages[i + 1], x)])
      else sent.(sink := Consume(s.sink, x))
    case SeeClosed(i) => s.(stages := s.stages[i := s.stages[i].(live := false)])
    case SinkSeesClosed => s.(sink := ChannelClosed(s.sink))
    case Tick(i) => s.(stages := s.stages[i := s.stages[i].(pending := [Packet(SILENT_PACKET, true)])])
    case Cancel => s.(cancelled := true)
    case Abort(i) =>
      s.(stages := s.stages[i := s.stages[i].(pending := [], live := false, aborted := true)])
    case SinkAborts => s.(sink := s.sink.(end := Ended(ContextDone)))
  }

  /** `s` is reached from `s0` by these actions. */
  predicate IsRun(s0: State, actions: seq<Action>, s: State)
    requires s0.Shaped()
    decreases |actions|
  {
    if actions == [] then s == s0
    else Enabled(s0, actions[0]) && IsRun(Next(s0, actions[0]), actions[1..], s)
  }

  // ---------------------------------------------------------------------------------
  // What every stage keeps
  // ---------------------------------------------------------------------------------

  /** The items without those the silent option created. */
  function Erase(items: seq<Item>): seq<Item>
  {
    if items == [] then []
    else (if items[0] == Packet(SILENT_PACKET, true) then [] else [items[0]]) + Erase(items[1..])
  }

  predicate Unmarked(items: seq<Item>)
  {
    forall i :: 0 <= i < |items| && items[i].Packet? ==> !items[i].silent
  }

  /** Input after which the header option receives no more. */
  predicate Halting(input: seq<Item>)
  {
    !NoFailure(input) || ParseFrames(DataOf(input)).tail.TooLarge?
  }

  /** The reader has emitted, or still holds, what the reads so far amount to. */
  predicate ReaderKeeps(st: Stage, feed: seq<ReadResult>, passed: seq<Item>)
  {
    && passed + st.pending <= ReaderOut(feed)
    && (!st.aborted ==> passed + st.pending == ReaderOut(feed))
    && (st.live ==> !st.aborted && NoReadError(feed))
    && (!st.live && !st.aborted ==> !NoReadError(feed))
  }

  /** The header option against the one-shot parse of everything it has received. */
  predicate HeaderKeeps(st: Stage, input: seq<Item>, inputClosed: bool, passed: seq<Item>)
  {
    && passed + st.pending <= Deframed(input)
    && (!st.aborted ==> passed + st.pending == Deframed(input))
    && (st.live ==> !st.aborted && Holding(input, st.residual))
    && (!st.live && !st.aborted ==> inputClosed || Halting(input))
  }

  /** The silent option adds its own packets and changes nothing else. */
  predicate SilentKeeps(st: Stage, input: seq<Item>, inputClosed: bool, passed: seq<Item>)
  {
    && Unmarked(input)
    && Erase(passed + st.pending) <= input
    && (!st.aborted ==> Erase(passed + st.pending) == input)
    && (st.live ==> !st.aborted)
    && (!st.live && !st.aborted ==> inputClosed)
  }

  /** What a stage keeps, seen from its two channels; `feed` matters to the reader only. */
  predicate Keeps(st: Stage, feed: seq<ReadResult>, input: seq<Item>, inputClosed: bool, passed: seq<Item>)
  {
    match st.kind
    case Reader => ReaderKeeps(st, feed, passed) && Unmarked(passed + st.pending)
    case Header => HeaderKeeps(st, input, inputClosed, passed) && Unmarked(passed + st.pending)
    case Silent => SilentKeeps(st, input, inputClosed, passed)
  }

  function InputOf(s: State, i: nat): seq<Item>
    requires s.Shaped() && i < |s.stages|
  {
    if i == 0 then [] else s.passed[i - 1]
  }

  predicate InputClosedOf(s: State, i: nat)
    requires s.Shaped() && i < |s.stages|
  {
    i > 0 && s.stages[i - 1].Closed()
  }

  predicate StageKeeps(s: State, i: nat)
    requires s.Shaped() && i < |s.stages|
  {
    Keeps(s.stages[i], s.feed, InputOf(s, i), InputClosedOf(s, i), s.passed[i])
  }

  /** The sink has consumed what has passed out of the last stage. */
  predicate SinkKeeps(s: State)
    requires s.Shaped()
  {
    var k := ConsumeAll(FRESH_SINK, s.passed[s.Last()]);
    || s.sink == k
    || (k.end.Running? && s.sink == ChannelClosed(k) && s.stages[s.Last()].Closed())
    || (k.end.Running? && s.sink == k.(end := Ended(ContextDone)) && s.cancelled)
  }

  predicate Invariant(s: State)
  {
    && s.Shaped()
    && (forall i :: 0 <= i < |s.stages| ==> StageKeeps(s, i))
    && (!s.cancelled ==> forall i :: 0 <= i < |s.stages| ==> !s.stages[i].aborted)
    && SinkKeeps(s)
  }

  // ---------------------------------------------------------------------------------
  // What timers and cancellation can do
  // ---------------------------------------------------------------------------------

  /** Whenever the silent option waits for input its timer may fire, whatever the input channel
      does; the packet [252, 255, 254] can then be the next thing the consumer gets, with the input
      left where it is. */
  lemma TickDelivers(s: State)
    requires s.Shaped() && s.stages[s.Last()].kind == Silent && s.stages[s.Last()].Receptive()
    requires s.sink.end.Running?
    ensures var i := s.Last(); var silent := Packet([252, 255, 254], true);
      && Enabled(s, Tick(i))
      && var t := Next(s, Tick(i));
      && t.stages[i].pending == [silent] && t.stages[i].live
      && Enabled(t, Hand(i))
      && var u := Next(t, Hand(i));
      && u.passed == s.passed[i := s.passed[i] + [silent]]
      && u.sink == Consume(s.sink, silent)
      && u.stages == s.stages && u.feed == s.feed && u.cancelled == s.cancelled
  {
    hide Consume;
    var i := s.Last();
    var t := Next(s, Tick(i));
    assert t.stages[i].pending[1..] == [];
    assert Next(t, Hand(i)).stages == s.stages;
  }

  /** No timer fires where there is no silent option. */
  lemma OnlySilentTicks(s: State, i: nat)
    requires s.Shaped() && Enabled(s, Tick(i))
    ensures i == s.Last() && s.stages[i].kind == Silent && s.stages[i].pending == []
  {
  }

  /** The request may be cancelled at any moment. From then on the consumer and every stage that
      is at a select with the context's case may return at once, dropping what it was to send. */
  lemma CancelStops(s: State, i: nat)
    requires s.Shaped() && i < |s.stages| && !s.stages[i].Closed()
    ensures Enabled(s, Cancel)
    ensures var t := Next(s, Cancel);
      && t == s.(cancelled := true)
      && (Enabled(t, Abort(i)) <==> s.stages[i].kind != Silent || s.stages[i].pending != [])
      && (Enabled(t, Abort(i)) ==> Next(t, Abort(i)).stages[i].Closed() && Next(t, Abort(i)).passed == s.passed)
      && (s.sink.end.Running? ==>
            Enabled(t, SinkAborts) && Next(t, SinkAborts).sink == s.sink.(end := Ended(ContextDone)))
    ensures !s.cancelled ==> !Enabled(s, Abort(i)) && !Enabled(s, SinkAborts)
  {
  }

  // ---------------------------------------------------------------------------------
  // One stage, one action
  // ---------------------------------------------------------------------------------

  lemma {:induction false} ReaderOutSnoc(feed: seq<ReadResult>, r: ReadResult)
    requires NoReadError(feed)
    ensures ReaderOut(feed + [r]) == ReaderOut(feed) + Emitted(r)
  {
    var all := feed + [r];
    if feed == [] {
      assert all[1..] == [];
    } else {
      assert all[0] == feed[0] && all[1..] == feed[1..] + [r];
      ReaderOutSnoc(feed[1..], r);
      SeqAssociative(Emitted(feed[0]), ReaderOut(feed[1..]), Emitted(r));
    }
  }

  lemma ReaderReads(st: Stage, feed: seq<ReadResult>, passed: seq<Item>, r: ReadResult)
    requires ReaderKeeps(st, feed, passed) && st.Receptive()
    ensures ReaderKeeps(st.(pending := Emitted(r), live := r.err.None?), feed + [r], passed)
  {
    ReaderOutSnoc(feed, r);
    assert passed + [] == passed;
    assert (feed + [r])[|feed|] == r;
    assert r.err.None? ==> NoReadError(feed + [r]);
  }

  lemma HeaderReceives(st: Stage, feed: seq<ReadResult>, input: seq<Item>, closed: bool, passed: seq<Item>, x: Item)
    requires st.kind == Header && Keeps(st, feed, input, closed, passed) && st.Receptive()
    ensures Keeps(Receive(st, x), feed, input + [x], false, passed)
  {
    hide ParseFrames, Deframed, Feed, Holding, Halting, Unmarked;
    var f := Feed(st.residual, x);
    FeedRefinesOneShot(input, st.residual, x);
    if f.stopped {
      FeedStops(input, st.residual, x);
    }
    FedUnmarked(st.residual, x);
    UnmarkedAppend(passed, f.out);
    assert passed + [] == passed;
  }

  lemma UnmarkedAppend(a: seq<Item>, b: seq<Item>)
    ensures Unmarked(a) && Unmarked(b) <==> Unmarked(a + b)
  {
    assert forall i :: 0 <= i < |a| ==> (a + b)[i] == a[i];
    assert forall i :: 0 <= i < |b| ==> (a + b)[|a| + i] == b[i];
  }

  lemma FedUnmarked(residual: seq<Byte>, x: Item)
    ensures Unmarked(Feed(residual, x).out)
  {
  }

  lemma FeedStops(input: seq<Item>, residual: seq<Byte>, x: Item)
    requires Holding(input, residual) && Feed(residual, x).stopped
    ensures Halting(input + [x])
  {
    assert (input + [x])[|input|] == x;
    if x.Packet? {
      DataOfSnoc(input, x);
      ParseExtends(DataOf(input), x.payload);
    }
  }

  lemma {:induction false} EraseAppend(a: seq<Item>, b: seq<Item>)
    ensures Erase(a + b) == Erase(a) + Erase(b)
  {
    if a == [] {
      assert a + b == b;
    } else {
      assert (a + b)[0] == a[0] && (a + b)[1..] == a[1..] + b;
      EraseAppend(a[1..], b);
      SeqAssociative(if a[0] == Packet(SILENT_PACKET, true) then [] else [a[0]], Erase(a[1..]), Erase(b));
    }
  }

  lemma EraseOne(x: Item)
    ensures Erase([x]) == if x == Packet(SILENT_PACKET, true) then [] else [x]
  {
    assert [x][1..] == [];
  }

  lemma {:induction false} ErasePrefix(a: seq<Item>, b: seq<Item>)
    requires a <= b
    ensures Erase(a) <= Erase(b)
  {
    EraseAppend(a, b[|a|..]);
    assert a + b[|a|..] == b;
  }

  lemma SilentReceives(st: Stage, input: seq<Item>, closed: bool, passed: seq<Item>, x: Item)
    requires st.kind == Silent && SilentKeeps(st, input, closed, passed) && st.Receptive()
    requires Unmarked(input + [x])
    ensures SilentKeeps(Receive(st, x), input + [x], false, passed)
  {
    assert passed + [] == passed;
    assert (input + [x])[|input|] == x;
    EraseAppend(passed, [x]);
    EraseOne(x);
  }

  lemma SilentTicks(st: Stage, input: seq<Item>, closed: bool, passed: seq<Item>)
    requires st.kind == Silent && SilentKeeps(st, input, closed, passed) && st.Receptive()
    ensures SilentKeeps(st.(pending := [Packet(SILENT_PACKET, true)]), input, closed, passed)
  {
    assert passed + [] == passed;
    EraseAppend(passed, [Packet(SILENT_PACKET, true)]);
    EraseOne(Packet(SILENT_PACKET, true));
    assert Erase(passed) + [] == Erase(passed);
  }

  /** Moving the first pending item out changes nothing in the sum. */
  lemma Sends(passed: seq<Item>, pending: seq<Item>)
    requires pending != []
    ensures passed + [pending[0]] + pending[1..] == passed + pending
  {
  }

  // ---------------------------------------------------------------------------------
  // Every action keeps the invariant
  // ---------------------------------------------------------------------------------

  lemma StartKeeps(kind: Kind)
    ensures Keeps(StartStage(kind), [], [], false, [])
  {
    HoldingNothing();
  }

  lemma InitShape(header: bool, noSilent: bool)
    ensures var s := Init(header, noSilent);
      && s.Shaped() && s.feed == [] && s.sink == FRESH_SINK
      && (forall i :: 0 <= i < |s.stages| ==> s.stages[i] == StartStage(s.stages[i].kind) && s.passed[i] == [])
  {
    var s, options := Init(header, noSilent), Options(header, noSilent);
    forall i | 0 < i < |s.stages| ensures s.stages[i] == StartStage(options[i - 1]) && options[i - 1] != Reader {
    }
  }

  lemma InitKeeps(header: bool, noSilent: bool)
    ensures Invariant(Init(header, noSilent))
  {
    hide Keeps, Init;
    var s := Init(header, noSilent);
    InitShape(header, noSilent);
    assert s.sink == ConsumeAll(FRESH_SINK, []);
    hide ConsumeAll;
    forall i | 0 <= i < |s.stages| ensures StageKeeps(s, i) {
      StartKeeps(s.stages[i].kind);
    }
  }

  /** A stage whose own state and channels are untouched keeps what it kept; that its input
      has been closed meanwhile does no harm. */
  lemma Untouched(s: State, t: State, i: nat)
    requires s.Shaped() && t.Shaped() && i < |s.stages| == |t.stages| && StageKeeps(s, i)
    requires t.stages[i] == s.stages[i] && t.passed[i] == s.passed[i] && InputOf(t, i) == InputOf(s, i)
    requires InputClosedOf(s, i) ==> InputClosedOf(t, i)
    requires i == 0 ==> t.feed == s.feed
    ensures StageKeeps(t, i)
  {
  }

  lemma ReadKeeps(s: State, r: ReadResult)
    requires Invariant(s) && Enabled(s, Read(r))
    ensures Invariant(Next(s, Read(r)))
  {
    var t := Next(s, Read(r));
    assert StageKeeps(s, 0);
    ReaderReads(s.stages[0], s.feed, s.passed[0], r);
    assert s.passed[0] + [] == s.passed[0];
    assert StageKeeps(t, 0);
    hide Keeps, ConsumeAll;
    forall i | 0 < i < |s.stages| ensures StageKeeps(t, i) {
      assert StageKeeps(s, i);
      Untouched(s, t, i);
    }
  }

  lemma SinkUntouched(s: State, t: State)
    requires s.Shaped() && t.Shaped() && |s.stages| == |t.stages| && SinkKeeps(s)
    requires t.sink == s.sink && t.passed[t.Last()] == s.passed[s.Last()]
    requires s.stages[s.Last()].Closed() ==> t.stages[t.Last()].Closed()
    requires s.cancelled ==> t.cancelled
    ensures SinkKeeps(t)
  {
  }

  /** The sender's side of a rendezvous. */
  lemma SenderKeeps(st: Stage, feed: seq<ReadResult>, input: seq<Item>, closed: bool, passed: seq<Item>)
    requires Keeps(st, feed, input, closed, passed) && st.pending != []
    ensures Keeps(st.(pending := st.pending[1..]), feed, input, closed, passed + [st.pending[0]])
  {
    Sends(passed, st.pending);
  }

  /** The receiver's side. */
  lemma ReceiverKeeps(st: Stage, feed: seq<ReadResult>, input: seq<Item>, closed: bool, passed: seq<Item>, x: Item)
    requires Keeps(st, feed, input, closed, passed) && st.Receptive() && st.kind != Reader
    requires Unmarked(input + [x])
    ensures Keeps(Receive(st, x), feed, input + [x], false, passed)
  {
    if st.kind == Header {
      HeaderReceives(st, feed, input, closed, passed, x);
    } else {
      SilentReceives(st, input, closed, passed, x);
    }
  }

  lemma MayClose(st: Stage, feed: seq<ReadResult>, input: seq<Item>, passed: seq<Item>, c: bool)
    requires Keeps(st, feed, input, false, passed)
    ensures Keeps(st, feed, input, c, passed)
  {
  }

  lemma PassedUnmarked(st: Stage, feed: seq<ReadResult>, input: seq<Item>, closed: bool, passed: seq<Item>)
    requires Keeps(st, feed, input, closed, passed) && st.kind != Silent && st.pending != []
    ensures Unmarked(passed + [st.pending[0]])
  {
    Sends(passed, st.pending);
    UnmarkedAppend(passed + [st.pending[0]], st.pending[1..]);
  }

  lemma HandKeeps(s: State, i: nat)
    requires Invariant(s) && Enabled(s, Hand(i))
    ensures Invariant(Next(s, Hand(i)))
  {
    hide Keeps, ConsumeAll, Receive;
    var t := Next(s, Hand(i));
    var x := s.stages[i].pending[0];
    assert StageKeeps(s, i);
    SenderKeeps(s.stages[i], s.feed, InputOf(s, i), InputClosedOf(s, i), s.passed[i]);
    if i + 1 < |s.stages| {
      assert StageKeeps(s, i + 1);
      PassedUnmarked(s.stages[i], s.feed, InputOf(s, i), InputClosedOf(s, i), s.passed[i]);
      ReceiverKeeps(s.stages[i + 1], s.feed, s.passed[i], InputClosedOf(s, i + 1), s.passed[i + 1], x);
      MayClose(t.stages[i + 1], t.feed, t.passed[i], t.passed[i + 1], InputClosedOf(t, i + 1));
    }
    forall j | 0 <= j < |s.stages| ensures StageKeeps(t, j) {
      assert StageKeeps(s, j);
      if j != i && j != i + 1 {
        Untouched(s, t, j);
      }
    }
    HandSink(s, i);
  }

  lemma HandSink(s: State, i: nat)
    requires Invariant(s) && Enabled(s, Hand(i))
    ensures SinkKeeps(Next(s, Hand(i)))
    ensures !Next(s, Hand(i)).cancelled ==>
      forall j :: 0 <= j < |s.stages| ==> !Next(s, Hand(i)).stages[j].aborted
  {
    hide Keeps, Consume, Feed;
    var t := Next(s, Hand(i));
    var x := s.stages[i].pending[0];
    if i + 1 == |s.stages| {
      ConsumeAllAppend(FRESH_SINK, s.passed[i], [x]);
      ConsumeOne(s.sink, x);
    } else {
      hide ConsumeAll;
      SinkUntouched(s, t);
    }
  }

  lemma SeeClosedKeeps(s: State, i: nat)
    requires Invariant(s) && Enabled(s, SeeClosed(i))
    ensures Invariant(Next(s, SeeClosed(i)))
  {
    var t := Next(s, SeeClosed(i));
    assert StageKeeps(s, i);
    assert StageKeeps(t, i);
    hide Keeps, ConsumeAll;
    forall j | 0 <= j < |s.stages| ensures StageKeeps(t, j) {
      assert StageKeeps(s, j);
      if j != i {
        Untouched(s, t, j);
      }
    }
    SinkUntouched(s, t);
  }

  lemma TickKeeps(s: State, i: nat)
    requires Invariant(s) && Enabled(s, Tick(i))
    ensures Invariant(Next(s, Tick(i)))
  {
    var t := Next(s, Tick(i));
    assert StageKeeps(s, i);
    SilentTicks(s.stages[i], InputOf(s, i), InputClosedOf(s, i), s.passed[i]);
    assert StageKeeps(t, i);
    hide Keeps, ConsumeAll;
    forall j | 0 <= j < |s.stages| ensures StageKeeps(t, j) {
      assert StageKeeps(s, j);
      if j != i {
        Untouched(s, t, j);
      }
    }
    SinkUntouched(s, t);
  }

  lemma AbortedKeeps(st: Stage, feed: seq<ReadResult>, input: seq<Item>, closed: bool, passed: seq<Item>)
    requires Keeps(st, feed, input, closed, passed)
    ensures Keeps(st.(pending := [], live := false, aborted := true), feed, input, closed, passed)
  {
    assert passed + [] == passed;
    UnmarkedAppend(passed, st.pending);
    EraseAppend(passed, st.pending);
  }

  lemma AbortKeeps(s: State, i: nat)
    requires Invariant(s) && Enabled(s, Abort(i))
    ensures Invariant(Next(s, Abort(i)))
  {
    hide Keeps, ConsumeAll;
    var t := Next(s, Abort(i));
    assert StageKeeps(s, i);
    AbortedKeeps(s.stages[i], s.feed, InputOf(s, i), InputClosedOf(s, i), s.passed[i]);
    forall j | 0 <= j < |s.stages| ensures StageKeeps(t, j) {
      assert StageKeeps(s, j);
      if j != i {
        Untouched(s, t, j);
      }
    }
    SinkUntouched(s, t);
  }

  lemma OtherKeeps(s: State, a: Action)
    requires Invariant(s) && Enabled(s, a) && (a.SinkSeesClosed? || a.Cancel? || a.SinkAborts?)
    ensures Invariant(Next(s, a))
  {
    hide Keeps, ConsumeAll;
    var t := Next(s, a);
    forall j | 0 <= j < |s.stages| ensures StageKeeps(t, j) {
      assert StageKeeps(s, j);
      Untouched(s, t, j);
    }
  }

  lemma NextKeeps(s: State, a: Action)
    requires Invariant(s) && Enabled(s, a)
    ensures Invariant(Next(s, a))
  {
    hide Invariant, Next, Enabled;
    match a
    case Read(r) => ReadKeeps(s, r);
    case Hand(i) => HandKeeps(s, i);
    case SeeClosed(i) => SeeClosedKeeps(s, i);
    case Tick(i) => TickKeeps(s, i);
    case Abort(i) => AbortKeeps(s, i);
    case SinkSeesClosed => OtherKeeps(s, a);
    case Cancel => OtherKeeps(s, a);
    case SinkAborts => OtherKeeps(s, a);
  }

  lemma {:induction false} RunKeeps(s0: State, actions: seq<Action>, s: State)
    requires Invariant(s0) && IsRun(s0, actions, s)
    ensures Invariant(s)
    decreases |actions|
  {
    hide Next, Enabled, Keeps, SinkKeeps;
    if actions != [] {
      NextKeeps(s0, actions[0]);
      RunKeeps(Next(s0, actions[0]), actions[1..], s);
    }
  }
}
