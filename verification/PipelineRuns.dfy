/** What whole runs of the pipeline deliver, under every interleaving. */
module PipelineRuns {
  import opened Bytes
  import opened Framing
  import opened Deframer
  import opened Opus
  import opened OggPage
  import opened OggWriter
  import opened Opus2Ogg
  import opened Pipeline

  // ---------------------------------------------------------------------------------
  // The sequential reference
  // ---------------------------------------------------------------------------------

  /** What the stages before the silent option amount to, run one after the other. */
  function Reference(header: bool, feed: seq<ReadResult>): seq<Item>
  {
    if header then Deframed(ReaderOut(feed)) else ReaderOut(feed)
  }

  lemma {:induction false} ReaderOutGrows(a: seq<ReadResult>, b: seq<ReadResult>)
    ensures ReaderOut(a) <= ReaderOut(a + b)
    ensures !NoReadError(a) ==> ReaderOut(a + b) == ReaderOut(a)
  {
    if a == [] {
      assert a + b == b;
    } else {
      var rest := a[1..];
      assert (a + b)[0] == a[0] && (a + b)[1..] == rest + b;
      assert NoReadError(a) <==> a[0].err.None? && NoReadError(rest);
      hide NoReadError, Emitted;
      ReaderOutGrows(rest, b);
    }
  }

  lemma ReferenceGrows(header: bool, feed: seq<ReadResult>, script: seq<ReadResult>)
    requires feed <= script
    ensures Reference(header, feed) <= Reference(header, script)
  {
    hide Deframed;
    var a, b := ReaderOut(feed), ReaderOut(script);
    assert script == feed + script[|feed|..];
    ReaderOutGrows(feed, script[|feed|..]);
    assert b == a + b[|a|..];
    DeframedGrows(a, b[|a|..]);
  }

  // ---------------------------------------------------------------------------------
  // Safety: any run, with any cancellation and any timer
  // ---------------------------------------------------------------------------------

  lemma {:induction false} RunShape(s0: State, actions: seq<Action>, s: State)
    requires s0.Shaped() && IsRun(s0, actions, s)
    ensures s.Shaped() && |s.stages| == |s0.stages|
    ensures forall i :: 0 <= i < |s.stages| ==> s.stages[i].kind == s0.stages[i].kind
    decreases |actions|
  {
    hide Next, Enabled;
    if actions != [] {
      RunShape(Next(s0, actions[0]), actions[1..], s);
    }
  }

  /** A reachable state of the configuration. */
  ghost predicate Reachable(header: bool, noSilent: bool, s: State)
  {
    exists actions :: IsRun(Init(header, noSilent), actions, s)
  }

  lemma ReachableKeeps(header: bool, noSilent: bool, s: State)
    requires Reachable(header, noSilent, s)
    ensures Invariant(s)
    ensures |s.stages| == 1 + (if header then 1 else 0) + (if noSilent then 0 else 1)
    ensures s.stages[s.Last()].kind == Silent <==> !noSilent
    ensures header ==> s.stages[1].kind == Header
    ensures forall i :: 0 <= i < |s.stages| ==> StageKeeps(s, i)
  {
    var s0 := Init(header, noSilent);
    var actions :| IsRun(s0, actions, s);
    InitKeeps(header, noSilent);
    RunKeeps(s0, actions, s);
    RunShape(s0, actions, s);
  }

  lemma {:induction false} EraseUnmarked(items: seq<Item>)
    requires Unmarked(items)
    ensures Erase(items) == items
  {
    if items != [] {
      EraseUnmarked(items[1..]);
    }
  }

  /** The items in front of the silent option, if there is one, else in front of the sink. */
  function BeforeSilent(header: bool, s: State): seq<Item>
    requires s.Shaped() && |s.stages| > (if header then 1 else 0)
  {
    s.passed[if header then 1 else 0]
  }

  lemma ReferencePrefix(header: bool, noSilent: bool, s: State)
    requires Reachable(header, noSilent, s)
    ensures s.Shaped() && |s.stages| > (if header then 1 else 0)
    ensures BeforeSilent(header, s) <= Reference(header, s.feed)
    ensures Unmarked(BeforeSilent(header, s))
  {
    hide Deframed, ReaderOut, Unmarked, Holding, Halting;
    ReachableKeeps(header, noSilent, s);
    var a, b := s.passed[0], ReaderOut(s.feed);
    assert StageKeeps(s, 0);
    assert a <= a + s.stages[0].pending;
    UnmarkedAppend(a, s.stages[0].pending);
    if header {
      assert StageKeeps(s, 1);
      assert b == a + b[|a|..];
      DeframedGrows(a, b[|a|..]);
      assert s.passed[1] <= s.passed[1] + s.stages[1].pending;
      UnmarkedAppend(s.passed[1], s.stages[1].pending);
    }
  }

  /** In every interleaving, taking the timer's packets out of what reaches the sink leaves a
      prefix of what the sequential reference delivers for the reads so far. */
  lemma SilenceIsTransparent(header: bool, noSilent: bool, s: State)
    requires Reachable(header, noSilent, s)
    ensures s.Shaped()
    ensures Erase(s.passed[s.Last()]) <= Reference(header, s.feed)
    ensures noSilent ==> s.passed[s.Last()] <= Reference(header, s.feed)
  {
    hide Reference, Unmarked;
    ReachableKeeps(header, noSilent, s);
    ReferencePrefix(header, noSilent, s);
    var last := s.Last();
    if noSilent {
      EraseUnmarked(s.passed[last]);
    } else {
      assert StageKeeps(s, last);
      assert s.passed[last] <= s.passed[last] + s.stages[last].pending;
      ErasePrefix(s.passed[last], s.passed[last] + s.stages[last].pending);
    }
  }

  /** Without silent packets: the bytes written so far are a prefix of what the sequential
      reference writes for any continuation of the reads, in every interleaving. */
  lemma BytesArePrefix(header: bool, s: State, script: seq<ReadResult>,
                       serial: U32, sampleRate: U32, channelCount: nat)
    requires Reachable(header, true, s) && s.feed <= script
    ensures s.sink.Valid()
    ensures SinkBytes(s.sink, serial, sampleRate, channelCount)
         <= SinkBytes(ConsumeAll(FRESH_SINK, Reference(header, script)), serial, sampleRate, channelCount)
  {
    hide SinkBytes, Reference, Keeps;
    ReachableKeeps(header, true, s);
    SilenceIsTransparent(header, true, s);
    ReferenceGrows(header, s.feed, script);
    var a, b := s.passed[s.Last()], Reference(header, script);
    var k := ConsumeAll(FRESH_SINK, a);
    assert b == a + b[|a|..];
    ConsumeAllAppend(FRESH_SINK, a, b[|a|..]);
    SinkGrows(k, b[|a|..], serial, sampleRate, channelCount);
    EndAddsNothing(k, s.sink.end, serial, sampleRate, channelCount);
  }

  lemma EndAddsNothing(k: Sink, end: End, serial: U32, sampleRate: U32, channelCount: nat)
    requires k.Valid()
    ensures SinkBytes(k.(end := end), serial, sampleRate, channelCount)
         == SinkBytes(k, serial, sampleRate, channelCount)
  {
  }

  // ---------------------------------------------------------------------------------
  // Completeness: a run that is not cancelled
  // ---------------------------------------------------------------------------------

  lemma HaltedForGood(input: seq<Item>, all: seq<Item>)
    requires Halting(input) && input <= all
    ensures Deframed(input) == Deframed(all)
  {
    assert all == input + all[|input|..];
    StoppedForGood(input, all[|input|..]);
  }

  /** Once the stage in front of the silent option, or of the sink, has closed its channel,
      everything has passed through it. */
  lemma ClosedBeforeSilent(header: bool, noSilent: bool, s: State, script: seq<ReadResult>)
    requires Reachable(header, noSilent, s) && !s.cancelled && s.feed <= script
    requires s.Shaped() && |s.stages| > (if header then 1 else 0)
    requires s.stages[if header then 1 else 0].Closed()
    ensures BeforeSilent(header, s) == Reference(header, script)
  {
    hide Deframed, Unmarked, Holding, Halting;
    ReachableKeeps(header, noSilent, s);
    assert StageKeeps(s, 0) && StageKeeps(s, if header then 1 else 0);
    assert script == s.feed + script[|s.feed|..];
    ReaderOutGrows(s.feed, script[|s.feed|..]);
    assert s.passed[0] <= s.passed[0] + s.stages[0].pending <= ReaderOut(s.feed);
    assert forall i :: 0 <= i < |s.stages| && s.stages[i].pending == [] ==>
      s.passed[i] + s.stages[i].pending == s.passed[i];
    if header && !s.stages[0].Closed() {
      HaltedForGood(s.passed[0], ReaderOut(script));
    }
  }

  /** Once the last stage has closed its channel, everything has passed, with or without the
      silent option. */
  lemma ClosedMeansAll(header: bool, noSilent: bool, s: State, script: seq<ReadResult>)
    requires Reachable(header, noSilent, s) && !s.cancelled && s.feed <= script
    requires s.Shaped() && s.stages[s.Last()].Closed()
    ensures Erase(s.passed[s.Last()]) == Reference(header, script)
    ensures noSilent ==> s.passed[s.Last()] == Reference(header, script)
  {
    hide Reference, Unmarked, Erase;
    ReachableKeeps(header, noSilent, s);
    ReferencePrefix(header, noSilent, s);
    var last := s.Last();
    assert StageKeeps(s, last);
    assert s.passed[last] + [] == s.passed[last];
    ClosedBeforeSilent(header, noSilent, s, script);
    if noSilent {
      EraseUnmarked(s.passed[last]);
    }
  }

  /** The timer's packets never end the consumer. */
  lemma {:induction false} SilenceKeepsEnd(k: Sink, j: Sink, items: seq<Item>)
    requires k.Valid() && j.Valid() && k.end == j.end
    ensures ConsumeAll(k, items).end == ConsumeAll(j, Erase(items)).end
    decreases |items|
  {
    if k.end.Running? && items != [] {
      var x := items[0];
      SilentDuration();
      if x == Packet(SILENT_PACKET, true) {
        assert [] + Erase(items[1..]) == Erase(items[1..]);
        SilenceKeepsEnd(Consume(k, x), j, items[1..]);
      } else {
        assert ([x] + Erase(items[1..]))[1..] == Erase(items[1..]);
        SilenceKeepsEnd(Consume(k, x), Consume(j, x), items[1..]);
      }
    }
  }

  /** When the consumer has returned, in a run that is not cancelled, it has stopped for the
      reason of the sequential reference on the whole script, and has consumed the same packets
      but for those of the timer, whatever the interleaving was. */
  lemma FinishedMeansReference(header: bool, noSilent: bool, s: State, script: seq<ReadResult>)
    requires Reachable(header, noSilent, s) && !s.cancelled && s.feed <= script
    requires !s.sink.end.Running?
    ensures s.Shaped()
    ensures var r := ChannelClosed(ConsumeAll(FRESH_SINK, Reference(header, script)));
      && s.sink.end == r.end
      && ConsumeAll(FRESH_SINK, Erase(s.passed[s.Last()])).packets == r.packets
      && (noSilent ==> s.sink == r)
  {
    hide Reference, Keeps, Erase, Unmarked;
    ReachableKeeps(header, noSilent, s);
    SilenceIsTransparent(header, noSilent, s);
    ReferenceGrows(header, s.feed, script);
    var a, b := Erase(s.passed[s.Last()]), Reference(header, script);
    var k, e := ConsumeAll(FRESH_SINK, s.passed[s.Last()]), ConsumeAll(FRESH_SINK, a);
    SilenceKeepsEnd(FRESH_SINK, FRESH_SINK, s.passed[s.Last()]);
    if k.end.Running? {
      ClosedMeansAll(header, noSilent, s, script);
    } else {
      assert a <= b;
      assert b == a + b[|a|..];
      ConsumeAllAppend(FRESH_SINK, a, b[|a|..]);
    }
    if noSilent {
      NothingErased(header, s);
    }
  }

  lemma NothingErased(header: bool, s: State)
    requires Reachable(header, true, s)
    ensures s.Shaped() && Erase(s.passed[s.Last()]) == s.passed[s.Last()]
  {
    hide Reference, Unmarked, Erase;
    ReachableKeeps(header, true, s);
    ReferencePrefix(header, true, s);
    EraseUnmarked(s.passed[s.Last()]);
  }

  // ---------------------------------------------------------------------------------
  // Progress and termination
  // ---------------------------------------------------------------------------------

  /** The script is a sequence of reads of which only the last one is an error. */
  predicate IsScript(script: seq<ReadResult>)
  {
    |script| > 0 && script[|script| - 1].err.Some? && NoReadError(script[..|script| - 1])
  }

  predicate UpTo(script: seq<ReadResult>, s: State)
  {
    s.feed <= script
  }

  /** If stage i + 1 (or the sink) waits for input, something can happen at stage i or before,
      without help from a timer. */
  lemma {:induction false} Wakes(s: State, i: nat, script: seq<ReadResult>) returns (a: Action)
    requires Invariant(s) && i < |s.stages|
    requires if i + 1 < |s.stages| then s.stages[i + 1].Receptive() else s.sink.end.Running?
    requires IsScript(script) && UpTo(script, s)
    ensures Enabled(s, a) && (a.Read? || a.Hand? || a.SeeClosed? || a.SinkSeesClosed?)
    ensures Allowed(s, a, script, 0, false)
    decreases i
  {
    if s.stages[i].pending != [] {
      a := Hand(i);
    } else if !s.stages[i].live {
      a := if i + 1 < |s.stages| then SeeClosed(i + 1) else SinkSeesClosed;
    } else if i > 0 {
      a := Wakes(s, i - 1, script);
    } else {
      assert StageKeeps(s, 0);
      assert |s.feed| == |script| ==> s.feed == script;
      a := Read(script[|s.feed|]);
    }
  }

  /** Nothing is left to do: the consumer has returned and, if the request has been cancelled,
      every stage has returned and closed its channel. */
  predicate AtRest(s: State)
  {
    && !s.sink.end.Running?
    && (s.cancelled ==> forall i :: 0 <= i < |s.stages| ==> s.stages[i].Closed())
  }

  /** The actions left to a scheduler: reads follow the script, the timer fires at most `ticks`
      more times, and the request is cancelled at most once, if at all. */
  predicate Allowed(s: State, a: Action, script: seq<ReadResult>, ticks: nat, mayCancel: bool)
  {
    match a
    case Read(r) => |s.feed| < |script| && r == script[|s.feed|]
    case Hand(i) => i < |s.stages|
    case SeeClosed(i) => i < |s.stages|
    case Abort(i) => i < |s.stages|
    case Tick(i) => i < |s.stages| && ticks > 0
    case Cancel => mayCancel && !s.cancelled
    case SinkSeesClosed => true
    case SinkAborts => true
  }

  /** After a cancellation, the first stage that has not returned can do so. */
  lemma CancelWakes(s: State, i: nat) returns (a: Action)
    requires s.Shaped() && s.cancelled && i < |s.stages| && !s.stages[i].Closed()
    requires forall j :: 0 <= j < i ==> s.stages[j].Closed()
    ensures Enabled(s, a) && a == if a.Abort? then Abort(i) else SeeClosed(i)
  {
    a := if s.stages[i].kind == Silent && s.stages[i].pending == [] then SeeClosed(i) else Abort(i);
  }

  /** No deadlock, in any configuration, cancelled or not: unless everything is at rest, some
      goroutine can act without waiting for a timer or a cancellation. */
  lemma Progress(s: State, script: seq<ReadResult>) returns (a: Action)
    requires Invariant(s) && IsScript(script) && UpTo(script, s) && !AtRest(s)
    ensures Enabled(s, a) && Allowed(s, a, script, 0, false)
  {
    if !s.cancelled {
      a := Wakes(s, s.Last(), script);
    } else if s.sink.end.Running? {
      a := SinkAborts;
    } else {
      hide Invariant;
      assert s.Shaped() by {
        InvariantShaped(s);
      }
      var i := 0;
      while s.stages[i].Closed()
        invariant i < |s.stages| && forall j :: 0 <= j < i ==> s.stages[j].Closed()
        decreases |s.stages| - i
      {
        i := i + 1;
      }
      a := CancelWakes(s, i);
    }
  }

  lemma InvariantShaped(s: State)
    requires Invariant(s)
    ensures s.Shaped()
  {
  }

  function PendingAt(s: State, i: nat): nat
  {
    if i < |s.stages| then |s.stages[i].pending| else 0
  }

  function Bit(b: bool): nat
  {
    if b then 1 else 0
  }

  function LiveAt(s: State, i: nat): nat
  {
    if i < |s.stages| then Bit(s.stages[i].live) else 0
  }

  /** Stages still receiving, and the sink. */
  function Awake(s: State): nat
  {
    Bit(s.sink.end.Running?) + LiveAt(s, 0) + LiveAt(s, 1) + LiveAt(s, 2)
  }

  function TicksAfter(ticks: nat, a: Action): nat
    requires a.Tick? ==> ticks > 0
  {
    if a.Tick? then ticks - 1 else ticks
  }

  /** Every action uses something up: the cancellation, a tick, a read, pending items from front
      to back, or a stage that still receives. */
  lemma UsesUp(s: State, a: Action, script: seq<ReadResult>, ticks: nat, mayCancel: bool)
    requires s.Shaped() && Enabled(s, a) && |s.stages| <= 3 && |s.feed| <= |script|
    requires Allowed(s, a, script, ticks, mayCancel)
    ensures var t := Next(s, a);
      || (!s.cancelled && t.cancelled)
      || (t.cancelled == s.cancelled && (
        || TicksAfter(ticks, a) < ticks
        || (TicksAfter(ticks, a) == ticks && (
          || |s.feed| < |t.feed| <= |script|
          || (t.feed == s.feed && (
            || PendingAt(t, 0) < PendingAt(s, 0)
            || (PendingAt(t, 0) == PendingAt(s, 0) && (
              || PendingAt(t, 1) < PendingAt(s, 1)
              || (PendingAt(t, 1) == PendingAt(s, 1) && (
                || PendingAt(t, 2) < PendingAt(s, 2)
                || (PendingAt(t, 2) == PendingAt(s, 2) && Awake(t) < Awake(s))))))))))))
  {
  }

  lemma RunSnoc(s0: State, actions: seq<Action>, s: State, a: Action)
    requires s0.Shaped() && s.Shaped() && IsRun(s0, actions, s) && Enabled(s, a)
    ensures IsRun(s0, actions + [a], Next(s, a))
    decreases |actions|
  {
    hide Next, Enabled;
    var all := actions + [a];
    if actions == [] {
      assert all == [a] && all[1..] == [];
    } else {
      assert all[0] == actions[0] && all[1..] == actions[1..] + [a];
      RunSnoc(Next(s0, actions[0]), actions[1..], s, a);
    }
  }

  lemma ReachableNext(header: bool, noSilent: bool, s: State, a: Action)
    requires Reachable(header, noSilent, s) && s.Shaped() && Enabled(s, a)
    ensures Reachable(header, noSilent, Next(s, a))
  {
    hide Next, Enabled;
    var s0 := Init(header, noSilent);
    var actions :| IsRun(s0, actions, s);
    RunSnoc(s0, actions, s, a);
  }

  /** All allowed actions, as a list to choose from. */
  function Candidates(s: State, script: seq<ReadResult>, ticks: nat, mayCancel: bool): seq<Action>
  {
    (if |s.feed| < |script| then [Read(script[|s.feed|])] else [])
    + seq(|s.stages|, (i: nat) => Hand(i)) + seq(|s.stages|, (i: nat) => SeeClosed(i))
    + seq(|s.stages|, (i: nat) => Abort(i)) + (if ticks > 0 then seq(|s.stages|, (i: nat) => Tick(i)) else [])
    + (if mayCancel && !s.cancelled then [Cancel] else []) + [SinkSeesClosed, SinkAborts]
  }

  lemma CandidatesAllowed(s: State, script: seq<ReadResult>, ticks: nat, mayCancel: bool, a: Action)
    ensures a in Candidates(s, script, ticks, mayCancel) <==> Allowed(s, a, script, ticks, mayCancel)
  {
    var first := if |s.feed| < |script| then [Read(script[|s.feed|])] else [];
    var hands, closes := seq(|s.stages|, (i: nat) => Hand(i)), seq(|s.stages|, (i: nat) => SeeClosed(i));
    var aborts, fires := seq(|s.stages|, (i: nat) => Abort(i)), seq(|s.stages|, (i: nat) => Tick(i));
    if Allowed(s, a, script, ticks, mayCancel) {
      match a
      case Read(_) => assert first[0] == a;
      case Hand(i) => assert hands[i] == a;
      case SeeClosed(i) => assert closes[i] == a;
      case Abort(i) => assert aborts[i] == a;
      case Tick(i) => assert fires[i] == a;
      case _ =>
    }
  }

  lemma MoreAllowed(s: State, a: Action, script: seq<ReadResult>, ticks: nat, mayCancel: bool)
    requires Allowed(s, a, script, 0, false)
    ensures Allowed(s, a, script, ticks, mayCancel)
  {
  }

  lemma FollowsScript(s: State, a: Action, script: seq<ReadResult>, ticks: nat, mayCancel: bool)
    requires s.Shaped() && Enabled(s, a) && UpTo(script, s) && Allowed(s, a, script, ticks, mayCancel)
    ensures UpTo(script, Next(s, a)) && (Next(s, a).cancelled ==> s.cancelled || mayCancel)
  {
  }

  /** Runs the pipeline with an arbitrary scheduler, which may fire the timer `ticks` times and,
      if it may, cancel the request at any moment. It always comes to rest: the consumer returns,
      and after a cancellation so does every stage. */
  method RunToRest(header: bool, noSilent: bool, script: seq<ReadResult>, ticks: nat, mayCancel: bool)
    returns (s: State)
    requires IsScript(script)
    ensures Reachable(header, noSilent, s) && s.feed <= script && (s.cancelled ==> mayCancel)
    ensures !s.sink.end.Running?
    ensures s.cancelled ==>
      forall i :: 0 <= i < |s.stages| ==> !s.stages[i].live && s.stages[i].pending == []
  {
    hide Next, Enabled, Invariant, Reachable, AtRest, Candidates, Allowed;
    s := Init(header, noSilent);
    InitReachable(header, noSilent);
    var left := ticks;
    while !AtRest(s)
      invariant Reachable(header, noSilent, s) && s.Shaped() && |s.stages| <= 3
      invariant UpTo(script, s) && (s.cancelled ==> mayCancel)
      decreases Bit(!s.cancelled), left, |script| - |s.feed|,
                PendingAt(s, 0), PendingAt(s, 1), PendingAt(s, 2), Awake(s)
    {
      ReachableInvariant(header, noSilent, s);
      ghost var possible := Progress(s, script);
      MoreAllowed(s, possible, script, left, mayCancel);
      CandidatesAllowed(s, script, left, mayCancel, possible);
      var a :| a in Candidates(s, script, left, mayCancel) && Enabled(s, a);
      CandidatesAllowed(s, script, left, mayCancel, a);
      UsesUp(s, a, script, left, mayCancel);
      ReachableNext(header, noSilent, s, a);
      FollowsScript(s, a, script, left, mayCancel);
      TickAllowed(s, a, script, left, mayCancel);
      left := TicksAfter(left, a);
      s := Next(s, a);
    }
    RestMeans(s);
  }

  lemma RestMeans(s: State)
    requires AtRest(s)
    ensures !s.sink.end.Running?
    ensures s.cancelled ==>
      forall i :: 0 <= i < |s.stages| ==> !s.stages[i].live && s.stages[i].pending == []
  {
  }

  lemma InitReachable(header: bool, noSilent: bool)
    ensures Reachable(header, noSilent, Init(header, noSilent))
    ensures var s := Init(header, noSilent); s.Shaped() && |s.stages| <= 3 && s.feed == [] && !s.cancelled
  {
    assert IsRun(Init(header, noSilent), [], Init(header, noSilent));
  }

  lemma ReachableInvariant(header: bool, noSilent: bool, s: State)
    requires Reachable(header, noSilent, s)
    ensures Invariant(s)
  {
    hide Reachable, Keeps;
    ReachableKeeps(header, noSilent, s);
  }

  lemma TickAllowed(s: State, a: Action, script: seq<ReadResult>, ticks: nat, mayCancel: bool)
    requires Allowed(s, a, script, ticks, mayCancel)
    ensures a.Tick? ==> ticks > 0
  {
  }

  /** Without cancellation the outcome does not depend on the schedule: it is the one of the
      sequential reference, up to the packets of the timer. */
  method RunToEnd(header: bool, noSilent: bool, script: seq<ReadResult>, ticks: nat)
    returns (sink: Sink, received: seq<Item>)
    requires IsScript(script)
    ensures var r := ChannelClosed(ConsumeAll(FRESH_SINK, Reference(header, script)));
      && sink.end == r.end
      && sink.packets == ConsumeAll(FRESH_SINK, received).packets
      && ConsumeAll(FRESH_SINK, Erase(received)).packets == r.packets
      && (noSilent ==> sink == r)
  {
    hide Reference, ConsumeAll, ChannelClosed, Reachable, Erase;
    var s := RunToRest(header, noSilent, script, ticks, false);
    SinkPackets(header, noSilent, s);
    FinishedMeansReference(header, noSilent, s, script);
    return s.sink, s.passed[s.Last()];
  }

  // ---------------------------------------------------------------------------------
  // End to end
  // ---------------------------------------------------------------------------------

  /** The bytes of the reads in front of the first error. */
  function BodyBytes(script: seq<ReadResult>): seq<Byte>
  {
    if script == [] || script[0].err.Some? then [] else script[0].data + BodyBytes(script[1..])
  }

  /** All bytes the body delivers, those of the failing read included. */
  function AllBytes(script: seq<ReadResult>): seq<Byte>
  {
    if script == [] then [] else script[0].data + AllBytes(script[1..])
  }

  /** The bytes that come together with the error. */
  function Late(script: seq<ReadResult>): seq<Byte>
    requires IsScript(script)
  {
    script[|script| - 1].data
  }

  /** The channel of the reader carries the bytes of the body, in any cut, less those that come
      together with the error; so it carries all of them exactly if that read has no data. */
  lemma {:induction false} ReaderCarriesBody(script: seq<ReadResult>)
    requires IsScript(script)
    ensures AllBytes(script) == DataOf(ReaderOut(script)) + Late(script)
    ensures DataOf(ReaderOut(script)) == AllBytes(script) <==> Late(script) == []
    ensures DataOf(ReaderOut(script)) == BodyBytes(script)
    ensures FirstError(ReaderOut(script)) == script[|script| - 1].err
    decreases |script|
  {
    if script[0].err.Some? {
      assert |script| == 1;
      assert ReaderOut(script) == [Failure(script[0].err.value)];
      assert script[1..] == [];
    } else {
      var rest := script[1..];
      assert rest[..|rest| - 1] == script[..|script| - 1][1..];
      assert rest[|rest| - 1] == script[|script| - 1];
      ReaderCarriesBody(rest);
      SeqAssociative(script[0].data, BodyBytes(rest), Late(rest));
      if script[0].data == [] {
        assert [] + ReaderOut(rest) == ReaderOut(rest);
        assert [] + BodyBytes(rest) == BodyBytes(rest);
      } else {
        var out := [Packet(script[0].data, false)] + ReaderOut(rest);
        assert out[0] == Packet(script[0].data, false) && out[1..] == ReaderOut(rest);
      }
    }
  }

  /** The data of all reads, one after the other. */
  lemma {:induction false} AllBytesIsAll(script: seq<ReadResult>)
    ensures AllBytes(script) == Concat(seq(|script|, i requires 0 <= i < |script| => script[i].data))
  {
    var datas := seq(|script|, i requires 0 <= i < |script| => script[i].data);
    if script != [] {
      var rest := script[1..];
      AllBytesIsAll(rest);
      assert datas[1..] == seq(|rest|, i requires 0 <= i < |rest| => rest[i].data);
      assert datas[0] == script[0].data;
    }
  }

  /** Every packet of the reader's channel is the data of one read, and none is empty; at most the
      last item is an error. */
  lemma {:induction false} ReaderItems(script: seq<ReadResult>, k: nat) returns (i: nat)
    requires k < |ReaderOut(script)|
    ensures i < |script|
    ensures var x := ReaderOut(script)[k];
      match x {
        case Packet(p, silent) => p != [] && !silent && script[i] == ReadResult(p, None)
        case Failure(e) => script[i].err == Some(e) && k == |ReaderOut(script)| - 1
      }
    decreases |script|
  {
    var n := |Emitted(script[0])|;
    if script[0].err.Some? || k < n {
      i := 0;
    } else {
      var j := ReaderItems(script[1..], k - n);
      i := j + 1;
    }
  }

  // ---------------------------------------------------------------------------------
  // A body that is cut short
  // ---------------------------------------------------------------------------------

  lemma HasFrameExtends(a: seq<Byte>, b: seq<Byte>)
    requires HasFrame(a)
    ensures HasFrame(a + b)
  {
    LengthFieldOfPrefix(a, b);
  }

  lemma {:induction false} WireLength(a: seq<Frame>, b: seq<Frame>)
    requires AllValid(a) && AllValid(b) && Bodies(a) == Bodies(b)
    ensures |WireAll(a)| == |WireAll(b)|
  {
    assert |Bodies(a)| == |Bodies(b)|;
    if a != [] {
      assert Bodies(a)[0] == a[0].body && Bodies(b)[0] == b[0].body;
      assert Bodies(a)[1..] == Bodies(a[1..]) && Bodies(b)[1..] == Bodies(b[1..]);
      WireLength(a[1..], b[1..]);
    }
  }

  lemma CutTail(front: seq<Byte>, tail: seq<Byte>, received: seq<Byte>, missing: seq<Byte>)
    requires received + missing == front + tail && |missing| <= |tail|
    ensures var rest := tail[..|tail| - |missing|]; received == front + rest && tail == rest + missing
  {
    var all, n := front + tail, |received|;
    assert (received + missing)[..n] == received && (received + missing)[n..] == missing;
    assert all[..n] == front + tail[..|tail| - |missing|] && all[n..] == tail[|tail| - |missing|..];
  }

  /** Without its last bytes, a byte string of frames parses to a prefix of them; to all of them
      exactly if no more is missing than the incomplete frame at the end. */
  lemma FramesCutShort(frames: seq<Frame>, tail: seq<Byte>, received: seq<Byte>, missing: seq<Byte>)
    requires AllValid(frames) && !HasFrame(tail) && received + missing == WireAll(frames) + tail
    ensures var p := ParseFrames(received);
      && p.bodies <= Bodies(frames)
      && (p.bodies == Bodies(frames) <==> |missing| <= |tail|)
      && (!Oversized(tail) ==> p.tail.Incomplete?)
  {
    hide ParseFrames, WireAll, Bodies, HasFrame, Oversized;
    var p := ParseFrames(received);
    CutShortPrefix(frames, tail, received, missing);
    if |missing| <= |tail| {
      var rest := tail[..|tail| - |missing|];
      CutTail(WireAll(frames), tail, received, missing);
      if HasFrame(rest) {
        HasFrameExtends(rest, missing);
      }
      ParseWire(frames, rest);
      NoFrameNoBodies(rest);
      assert Bodies(frames) + [] == Bodies(frames);
    } else if p.bodies == Bodies(frames) {
      var found, rest := ParseSound(received);
      WireLength(found, frames);
    }
  }

  lemma NoFrameNoBodies(s: seq<Byte>)
    requires !HasFrame(s)
    ensures ParseFrames(s).bodies == []
  {
  }

  lemma CutShortPrefix(frames: seq<Frame>, tail: seq<Byte>, received: seq<Byte>, missing: seq<Byte>)
    requires AllValid(frames) && !HasFrame(tail) && received + missing == WireAll(frames) + tail
    ensures ParseFrames(received).bodies <= Bodies(frames)
    ensures !Oversized(tail) ==> ParseFrames(received).tail.Incomplete?
  {
    ParseExtends(received, missing);
    ParseWire(frames, tail);
    var p := ParseFrames(received);
    assert ParseFrames(tail)
        == Parse([], if Oversized(tail) then TooLarge(LengthField(tail)) else Incomplete(tail));
    assert Bodies(frames) + [] == Bodies(frames);
    hide ParseFrames;
    if p.tail.Incomplete? {
      assert Bodies(frames) == p.bodies + ParseFrames(p.tail.rest + missing).bodies;
    }
  }

  /** The number of packets in front of the first one that cannot be written. */
  function Writable(bodies: seq<seq<Byte>>): (n: nat)
    ensures n <= |bodies| && AllReadable(bodies[..n])
    ensures n < |bodies| ==> !Readable(bodies[n])
  {
    if bodies == [] || !Readable(bodies[0]) then 0
    else
      var n := 1 + Writable(bodies[1..]);
      assert forall i :: 0 < i < n ==> bodies[..n][i] == bodies[1..][..n - 1][i - 1];
      n
  }

  lemma WritableStep(bodies: seq<seq<Byte>>)
    requires bodies != []
    ensures Writable(bodies) == if Readable(bodies[0]) then 1 + Writable(bodies[1..]) else 0
    ensures var n := Writable(bodies[1..]); bodies[..n + 1] == [bodies[0]] + bodies[1..][..n]
    ensures bodies == [bodies[0]] + bodies[1..]
  {
    hide Readable;
    HeadTail(bodies, Writable(bodies[1..]));
  }

  lemma HeadTail<T>(s: seq<T>, n: nat)
    requires 0 < |s| && n < |s|
    ensures s == [s[0]] + s[1..] && s[..n + 1] == [s[0]] + s[1..][..n]
  {
  }

  lemma PacketsStep(bodies: seq<seq<Byte>>, e: Err)
    requires bodies != []
    ensures var items := Packets(bodies) + [Failure(e)];
      items[0] == Packet(bodies[0], false) && items[1..] == Packets(bodies[1..]) + [Failure(e)]
  {
  }

  lemma ConsumeReadable(k: Sink, p: seq<Byte>)
    requires k.Valid() && k.end.Running? && Readable(p)
    ensures Consume(k, Packet(p, false)) == Sink(true, k.packets + [p], Running)
  {
  }

  lemma ConsumeUnreadable(k: Sink, p: seq<Byte>)
    requires k.Valid() && k.end.Running? && !Readable(p)
    ensures Consume(k, Packet(p, false))
         == if p == [] then k.(end := Ended(BadPacket)) else k.(started := true, end := Crashed)
  {
  }

  /** What the consumer makes of packets followed by an error: it stops at the first packet that
      cannot be written, and else at the error. */
  lemma {:induction false} ConsumesPackets(k: Sink, bodies: seq<seq<Byte>>, e: Err)
    requires k.Valid() && k.end.Running?
    ensures var n := Writable(bodies);
      ConsumeAll(k, Packets(bodies) + [Failure(e)]) ==
        if n == |bodies| then Sink(k.started || n > 0, k.packets + bodies, Ended(InputError(e)))
        else if bodies[n] == [] then Sink(k.started || n > 0, k.packets + bodies[..n], Ended(BadPacket))
        else Sink(true, k.packets + bodies[..n], Crashed)
    decreases |bodies|
  {
    if bodies == [] {
      assert Packets(bodies) + [Failure(e)] == [Failure(e)];
      ConsumeOne(k, Failure(e));
      assert k.packets + bodies == k.packets;
    } else {
      hide Packets, Consume, Writable, Readable;
      WritableStep(bodies);
      PacketsStep(bodies, e);
      var p := bodies[0];
      if Readable(p) {
        ConsumeReadable(k, p);
        var next := Sink(true, k.packets + [p], Running);
        ConsumesPackets(next, bodies[1..], e);
        var n := Writable(bodies[1..]);
        SeqAssociative(k.packets, [p], bodies[1..]);
        SeqAssociative(k.packets, [p], bodies[1..][..n]);
      } else {
        ConsumeUnreadable(k, p);
        assert k.packets + bodies[..0] == k.packets;
      }
    }
  }

  lemma AllWritable(bodies: seq<seq<Byte>>)
    requires AllReadable(bodies)
    ensures Writable(bodies) == |bodies|
  {
    var n := Writable(bodies);
  }

  /** The error the consumer finds behind the packets of a body: a header that announces too
      much, or else the error of the body. */
  function LastError(tail: Tail, err: Err): Err
  {
    match tail
    case TooLarge(n) => PayloadTooLarge(n)
    case Incomplete(_) => err
  }

  function ScriptError(script: seq<ReadResult>): Err
    requires IsScript(script)
  {
    script[|script| - 1].err.value
  }

  /** Any body, in any cut, reaches the consumer as the frames of its bytes and one error. */
  lemma BodyArrives(script: seq<ReadResult>)
    requires IsScript(script)
    ensures var p := ParseFrames(BodyBytes(script));
      Reference(true, script) == Packets(p.bodies) + [Failure(LastError(p.tail, ScriptError(script)))]
  {
    hide ParseFrames, ReaderOut, DataOf, FirstError;
    ReaderCarriesBody(script);
  }

  /** How the consumer ends, and what it has written by then. */
  lemma BodyConsumed(script: seq<ReadResult>)
    requires IsScript(script)
    ensures var sink := ChannelClosed(ConsumeAll(FRESH_SINK, Reference(true, script)));
      var p := ParseFrames(BodyBytes(script)); var n := Writable(p.bodies);
      && sink.end == (if n == |p.bodies| then Ended(InputError(LastError(p.tail, ScriptError(script))))
                      else if p.bodies[n] == [] then Ended(BadPacket) else Crashed)
      && sink.packets == p.bodies[..n]
      && sink.started == !(n == 0 && (p.bodies == [] || p.bodies[0] == []))
  {
    hide ParseFrames, Reference, Readable, BodyBytes, Packets, ConsumeAll, Writable;
    BodyArrives(script);
    var p := ParseFrames(BodyBytes(script));
    var n := Writable(p.bodies);
    ConsumesPackets(FRESH_SINK, p.bodies, LastError(p.tail, ScriptError(script)));
    assert [] + p.bodies[..n] == p.bodies[..n];
    assert n == |p.bodies| ==> [] + p.bodies == p.bodies[..n];
  }

  lemma {:induction false} AudioPagesPrefix(serial: U32, packets: seq<seq<Byte>>, n: nat)
    requires AllReadable(packets) && n <= |packets|
    ensures AudioPages(serial, 1, 2, packets[..n]) <= AudioPages(serial, 1, 2, packets)
    decreases |packets|
  {
    hide GranuleAfter;
    if n < |packets| {
      AudioPagesPrefix(serial, packets[..|packets| - 1], n);
      assert packets[..|packets| - 1][..n] == packets[..n];
    } else {
      assert packets[..n] == packets;
    }
  }

  /** The stream of the first `n` packets is read back as the stream of all of them exactly when
      none is missing and every packet fits into a page. */
  lemma StreamReadsBack(serial: U32, sampleRate: U32, channelCount: nat, packets: seq<seq<Byte>>, n: nat)
    requires AllReadable(packets) && n <= |packets|
    ensures var pages := OggStream(serial, sampleRate, channelCount, packets[..n]);
      var all := OggStream(serial, sampleRate, channelCount, packets);
      ParsePages(EncodeAll(pages), 0) == Ok(Expected(all)) <==> n == |packets| && AllFit(packets)
  {
    hide ParsePages, Expected, EncodeAll, IdHeader, CommentHeader, AudioPages, AllFit;
    var pages := OggStream(serial, sampleRate, channelCount, packets[..n]);
    var all := OggStream(serial, sampleRate, channelCount, packets);
    AudioPagesPrefix(serial, packets, n);
    PrefixReadsBack(pages, all);
    StreamFits(serial, sampleRate, channelCount, packets[..n]);
    assert packets[..|packets|] == packets;
    assert n < |packets| ==> |pages| < |all|;
  }

  /** From the body to the Ogg stream, for every body, every cut and every schedule. The frames
      are those of all bytes but the ones that come together with the error. The packets up to
      the first one that cannot be written come out as one stream: it parses to OpusHead,
      OpusTags and then exactly those payloads in order (their granules are the subject of
      StreamPositions), provided each fits into a page; and only then. Nothing is written before
      there is a packet to decode. */
  lemma BodyToStream(script: seq<ReadResult>, serial: U32, sampleRate: U32, channelCount: nat)
    requires IsScript(script)
    ensures |Late(script)| <= |AllBytes(script)|
    ensures var sink := ChannelClosed(ConsumeAll(FRESH_SINK, Reference(true, script)));
      var bytes := SinkBytes(sink, serial, sampleRate, channelCount);
      var p := ParseFrames(AllBytes(script)[..|AllBytes(script)| - |Late(script)|]);
      var n := Writable(p.bodies);
      var pages := OggStream(serial, sampleRate, channelCount, p.bodies[..n]);
      && sink.end == (if n == |p.bodies| then Ended(InputError(LastError(p.tail, ScriptError(script))))
                      else if p.bodies[n] == [] then Ended(BadPacket) else Crashed)
      && if n == 0 && (p.bodies == [] || p.bodies[0] == []) then bytes == []
         else bytes == EncodeAll(pages) && (ParsePages(bytes, 0) == Ok(Expected(pages)) <==> AllFit(p.bodies[..n]))
  {
    hide ParseFrames, ParsePages, Expected, EncodeAll, OggStream, Reference, Readable, BodyBytes, AllBytes, Late,
         ConsumeAll, ChannelClosed, Writable, AllFit;
    ReceivedBytes(script);
    BodyConsumed(script);
    var p := ParseFrames(BodyBytes(script));
    var n := Writable(p.bodies);
    StreamReadsBack(serial, sampleRate, channelCount, p.bodies[..n], n);
    assert p.bodies[..n][..n] == p.bodies[..n];
  }

  lemma ReceivedBytes(script: seq<ReadResult>)
    requires IsScript(script)
    ensures |Late(script)| <= |AllBytes(script)|
    ensures AllBytes(script)[..|AllBytes(script)| - |Late(script)|] == BodyBytes(script)
    ensures AllBytes(script) == BodyBytes(script) + Late(script)
  {
    hide BodyBytes, AllBytes, ReaderOut, DataOf, FirstError;
    ReaderCarriesBody(script);
  }

  /** The promise for a well-behaved client: a body that carries frames of writable packets, and
      perhaps the beginning of another frame, in any cut. Its stream parses to the two headers and
      exactly the payloads of the frames if each fits into a page, and if the bytes that come
      together with the end of the body, which are dropped, belong to the incomplete frame; and
      only then. No frames, no bytes. */
  lemma EndToEnd(frames: seq<Frame>, tail: seq<Byte>, script: seq<ReadResult>,
                 serial: U32, sampleRate: U32, channelCount: nat)
    requires AllValid(frames) && IsScript(script) && AllBytes(script) == WireAll(frames) + tail
    requires !HasFrame(tail) && !Oversized(tail)
    requires AllReadable(Bodies(frames))
    ensures var sink := ChannelClosed(ConsumeAll(FRESH_SINK, Reference(true, script)));
      var bytes := SinkBytes(sink, serial, sampleRate, channelCount);
      var pages := OggStream(serial, sampleRate, channelCount, Bodies(frames));
      && sink.end == Ended(InputError(ScriptError(script)))
      && sink.packets <= Bodies(frames)
      && (frames == [] ==> bytes == [])
      && (frames != [] ==>
        (ParsePages(bytes, 0) == Ok(Expected(pages)) <==> AllFit(Bodies(frames)) && |Late(script)| <= |tail|))
  {
    hide ParseFrames, ParsePages, Expected, EncodeAll, Reference, OggStream, Readable, BodyBytes, AllBytes, WireAll,
         ConsumeAll, ChannelClosed, AllFit, HasFrame, Oversized, Late;
    var bodies := Bodies(frames);
    ReceivedBytes(script);
    FramesCutShort(frames, tail, BodyBytes(script), Late(script));
    BodyConsumed(script);
    var p := ParseFrames(BodyBytes(script));
    var n := |p.bodies|;
    assert p.bodies == bodies[..n];
    AllWritable(p.bodies);
    assert p.bodies[..n] == p.bodies;
    if n > 0 {
      StreamReadsBack(serial, sampleRate, channelCount, bodies, n);
    } else if frames != [] {
      EmptyIsNotAStream(serial, sampleRate, channelCount, bodies);
    }
  }

  lemma EmptyIsNotAStream(serial: U32, sampleRate: U32, channelCount: nat, bodies: seq<seq<Byte>>)
    requires AllReadable(bodies)
    ensures ParsePages([], 0) != Ok(Expected(OggStream(serial, sampleRate, channelCount, bodies)))
  {
    hide Expected;
    ParseNothing(0);
    assert |Expected(OggStream(serial, sampleRate, channelCount, bodies))| >= 2;
  }

  // ---------------------------------------------------------------------------------
  // Silent packets and the granule
  // ---------------------------------------------------------------------------------

  function Payloads(items: seq<Item>): seq<seq<Byte>>
  {
    if items == [] then []
    else
      var n := |items| - 1;
      Payloads(items[..n]) + if items[n].Packet? then [items[n].payload] else []
  }

  function SilentCount(items: seq<Item>): nat
  {
    if items == [] then 0
    else SilentCount(items[..|items| - 1]) + if items[|items| - 1] == Packet(SILENT_PACKET, true) then 1 else 0
  }

  lemma PayloadsSnoc(items: seq<Item>, x: Item)
    ensures Payloads(items + [x]) == Payloads(items) + (if x.Packet? then [x.payload] else [])
    ensures SilentCount(items + [x]) == SilentCount(items) + (if x == Packet(SILENT_PACKET, true) then 1 else 0)
  {
    assert (items + [x])[..|items|] == items;
  }

  lemma Stopped(k: Sink, items: seq<Item>)
    requires k.Valid() && !k.end.Running?
    ensures ConsumeAll(k, items) == k
  {
  }

  lemma ConsumePayload(k: Sink, x: Item)
    requires k.Valid() && k.end.Running?
    ensures var n := Consume(k, x);
      if n.end.Running? then x.Packet? && n.packets == k.packets + [x.payload] else n.packets == k.packets
  {
  }

  /** The consumer has written the packets of a prefix of what it has received; of all of it
      while it runs. */
  lemma {:induction false} WrittenPrefix(items: seq<Item>) returns (n: nat)
    ensures var k := ConsumeAll(FRESH_SINK, items);
      n <= |items| && k.packets == Payloads(items[..n]) && (k.end.Running? ==> n == |items|)
    decreases |items|
  {
    if items == [] {
      n := 0;
    } else {
      var m := |items| - 1;
      var x := items[m];
      assert items == items[..m] + [x] && items[..|items|] == items;
      hide ConsumeAll, Consume, Payloads;
      ConsumeAllAppend(FRESH_SINK, items[..m], [x]);
      var k := ConsumeAll(FRESH_SINK, items[..m]);
      n := WrittenPrefix(items[..m]);
      assert items[..m][..n] == items[..n];
      if k.end.Running? {
        ConsumeOne(k, x);
        ConsumePayload(k, x);
        PayloadsSnoc(items[..m], x);
        if Consume(k, x).end.Running? {
          n := m + 1;
        }
      } else {
        assert ConsumeAll(k, [x]) == k by {
          Stopped(k, [x]);
        }
      }
    }
  }

  lemma ReadableSplit(a: seq<seq<Byte>>, b: seq<seq<Byte>>)
    ensures AllReadable(a + b) <==> AllReadable(a) && AllReadable(b)
  {
    hide Readable;
    assert forall i :: 0 <= i < |a| ==> (a + b)[i] == a[i];
    assert forall i :: 0 <= i < |b| ==> (a + b)[|a| + i] == b[i];
  }

  lemma TotalDurationOne(packets: seq<seq<Byte>>, more: seq<seq<Byte>>)
    requires AllReadable(packets) && AllReadable(more) && |more| <= 1
    ensures AllReadable(packets + more)
    ensures TotalDuration(packets + more) == TotalDuration(packets) + if more == [] then 0 else Duration(more[0])
  {
    hide Readable, Duration;
    ReadableSplit(packets, more);
    if more == [] {
      assert packets + more == packets;
    } else {
      assert (packets + more)[..|packets|] == packets;
    }
  }

  /** Each silent packet adds exactly 20 ms. */
  lemma {:induction false} SilenceAddsUp(items: seq<Item>)
    requires AllReadable(Payloads(items))
    ensures AllReadable(Payloads(Erase(items)))
    ensures TotalDuration(Payloads(items)) == TotalDuration(Payloads(Erase(items))) + 960 * SilentCount(items)
    decreases |items|
  {
    hide Duration, Readable, AllReadable, TotalDuration, Erase;
    if items == [] {
      EraseNothing();
    } else {
      var n := |items| - 1;
      var init, x := items[..n], items[n];
      var more := if x.Packet? then [x.payload] else [];
      assert items == init + [x];
      PayloadsSnoc(init, x);
      ReadableSplit(Payloads(init), more);
      SilenceAddsUp(init);
      TotalDurationOne(Payloads(init), more);
      EraseAppend(init, [x]);
      EraseOne(x);
      SilentDuration();
      if x == Packet(SILENT_PACKET, true) {
        assert Erase(init) + [] == Erase(init);
      } else {
        PayloadsSnoc(Erase(init), x);
        ReadableSplit(Payloads(Erase(init)), more);
        TotalDurationOne(Payloads(Erase(init)), more);
      }
    }
  }

  lemma EraseNothing()
    ensures Erase([]) == []
  {
  }

  lemma SinkPackets(header: bool, noSilent: bool, s: State)
    requires Reachable(header, noSilent, s)
    ensures s.Shaped() && s.sink.packets == ConsumeAll(FRESH_SINK, s.passed[s.Last()]).packets
    ensures s.sink.end.Running? ==> ConsumeAll(FRESH_SINK, s.passed[s.Last()]).end.Running?
  {
    hide Keeps, ConsumeAll;
    ReachableKeeps(header, noSilent, s);
  }

  /** In every interleaving with the silent option on, whatever ended the run: the granule
      reached is the one of the real packets written, plus 960 for each packet of the timer. */
  lemma SilentGranule(header: bool, s: State) returns (n: nat)
    requires Reachable(header, false, s)
    ensures s.Shaped()
    ensures var items := s.passed[s.Last()];
      && n <= |items| && (s.sink.end.Running? ==> n == |items|)
      && Erase(items[..n]) <= Reference(header, s.feed)
      && s.sink.packets == Payloads(items[..n])
      && AllReadable(Payloads(Erase(items[..n])))
      && GranuleAfter(1, s.sink.packets)
         == (1 + TotalDuration(Payloads(Erase(items[..n]))) + 960 * SilentCount(items[..n])) % TWO64
  {
    hide Reference, TotalDuration, AllReadable, Payloads, SilentCount, Erase, Reachable;
    SinkPackets(header, false, s);
    SilenceIsTransparent(header, false, s);
    var items := s.passed[s.Last()];
    n := WrittenPrefix(items);
    ErasePrefix(items[..n], items);
    SilenceAddsUp(items[..n]);
  }
}
