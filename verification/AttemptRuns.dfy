/** What the steps of overlapping attempts do over whole runs: cancellation by a retry, what a
    connection came to, what is read from a pipe, and what an ended attempt still does. */
module AttemptRuns {
  import opened Bytes
  import opened Framing
  import opened OggPage
  import opened OggWriter
  import opened Opus
  import Opus2Ogg
  import opened Attempts

  lemma {:induction false} RunSnoc(s0: State, actions: seq<Action>, s: State, act: Action)
    requires IsRun(s0, actions, s) && Enabled(s, act)
    ensures IsRun(s0, actions + [act], Next(s, act))
    decreases |actions|
  {
    hide Next, Enabled;
    var all := actions + [act];
    if actions == [] {
      assert all == [act] && all[1..] == [];
    } else {
      assert all[0] == actions[0] && all[1..] == actions[1..] + [act];
      RunSnoc(Next(s0, actions[0]), actions[1..], s, act);
    }
  }

  lemma ReachableNext(s: State, act: Action)
    requires Reachable(s) && Enabled(s, act)
    ensures Reachable(Next(s, act))
  {
    hide Next, Enabled;
    var actions :| IsRun(START, actions, s);
    RunSnoc(START, actions, s, act);
  }

  // ---------------------------------------------------------------------------------
  // A retry cancels
  // ---------------------------------------------------------------------------------

  predicate AllCancelled(attempts: seq<Attempt>)
  {
    forall a :: 0 <= a < |attempts| ==> attempts[a].cancelled
  }

  /** The request handler deals with the last attempt; all before it are cancelled, and between
      attempts all are. It reads the results of an accepted connection and waits after a refused
      one. */
  predicate MainKeeps(s: State)
  {
    match s.main
    case Between => AllCancelled(s.attempts)
    case InHandle(a) => a + 1 == |s.attempts| && AllCancelled(s.attempts[..a])
    case Results(a) =>
      a + 1 == |s.attempts| && AllCancelled(s.attempts[..a]) && s.attempts[a].service.Accepted?
    case RetryWait(a) =>
      a + 1 == |s.attempts| && AllCancelled(s.attempts[..a]) && s.attempts[a].service.Refused?
    case Finished => s.attempts != [] ==> AllCancelled(s.attempts[..|s.attempts| - 1])
  }

  /** A step of one attempt neither cancels it nor takes a cancellation back. */
  lemma StepOfOne(s: State, act: Action, a: nat)
    requires Enabled(s, act) && !act.Retry? && !act.StartAttempt? && a < |s.attempts|
    ensures var t := Next(s, act);
      && |t.attempts| == |s.attempts|
      && t.attempts[a].cancelled == s.attempts[a].cancelled
      && (s.attempts[a].service.Accepted? ==> t.attempts[a].service.Accepted?)
      && (s.attempts[a].service.Refused? ==> t.attempts[a].service.Refused?)
      && (!act.HandleReturns? && !act.Finish? ==> t.main == s.main)
  {
    hide Read, CanRead, Put;
  }

  lemma NextMain(s: State, act: Action)
    requires MainKeeps(s) && Enabled(s, act)
    ensures MainKeeps(Next(s, act))
  {
    var t := Next(s, act);
    if act.StartAttempt? {
      assert t.attempts[..|s.attempts|] == s.attempts;
    } else if act.Retry? {
      assert forall a :: 0 <= a < s.main.a ==> s.attempts[..s.main.a][a].cancelled;
      assert forall a :: 0 <= a < s.main.a ==> t.attempts[a] == s.attempts[..s.main.a][a];
    } else {
      forall a | 0 <= a < |s.attempts|
        ensures |t.attempts| == |s.attempts| && t.attempts[a].cancelled == s.attempts[a].cancelled
      {
        StepOfOne(s, act, a);
      }
      MainStep(s, act);
    }
  }

  lemma MainStep(s: State, act: Action)
    requires MainKeeps(s) && Enabled(s, act) && !act.Retry? && !act.StartAttempt?
    ensures MainKeeps(Next(s, act))
  {
    MainAfter(s, act);
    hide Next, Enabled;
    var t, n := Next(s, act), |s.attempts|;
    forall a | 0 <= a < n
      ensures t.attempts[a].cancelled == s.attempts[a].cancelled
      ensures s.attempts[a].service.Accepted? ==> t.attempts[a].service.Accepted?
      ensures s.attempts[a].service.Refused? ==> t.attempts[a].service.Refused?
    {
      StepOfOne(s, act, a);
    }
    StayCancelled(s.attempts, t.attempts, n);
    if n > 0 {
      StayCancelled(s.attempts, t.attempts, n - 1);
    }
  }

  lemma StayCancelled(before: seq<Attempt>, after: seq<Attempt>, n: nat)
    requires n <= |before| == |after|
    requires forall a :: 0 <= a < |before| ==> after[a].cancelled == before[a].cancelled
    ensures AllCancelled(before[..n]) ==> AllCancelled(after[..n])
    ensures AllCancelled(before) ==> AllCancelled(after) && AllCancelled(before[..n])
  {
    forall a | 0 <= a < n ensures before[..n][a] == before[a] && after[..n][a] == after[a] {
    }
  }

  /** How the request handler goes on. */
  lemma MainAfter(s: State, act: Action)
    requires MainKeeps(s) && Enabled(s, act) && !act.Retry? && !act.StartAttempt?
    ensures var t := Next(s, act);
      && |t.attempts| == |s.attempts|
      && t.main == (if act.Finish? then Finished
                    else if !act.HandleReturns? then s.main
                    else if s.attempts[s.main.a].service.Accepted? then Results(s.main.a)
                    else RetryWait(s.main.a))
      && (act.HandleReturns? ==>
            && s.main.InHandle? && t.attempts == s.attempts
            && (s.attempts[s.main.a].service.Accepted? || s.attempts[s.main.a].service.Refused?))
  {
    hide Read, CanRead, Put;
  }

  lemma {:induction false} RunMain(s0: State, actions: seq<Action>, s: State)
    requires MainKeeps(s0) && IsRun(s0, actions, s)
    ensures MainKeeps(s)
    decreases |actions|
  {
    hide MainKeeps, Next, Enabled;
    if actions != [] {
      NextMain(s0, actions[0]);
      RunMain(Next(s0, actions[0]), actions[1..], s);
    }
  }

  lemma ReachableMain(s: State)
    requires Reachable(s)
    ensures MainKeeps(s)
  {
    var actions :| IsRun(START, actions, s);
    RunMain(START, actions, s);
  }

  /** In every reachable state each attempt but the last is cancelled: its goroutine can return at
      once, and its pipe can be closed under it. */
  lemma RetryCancels(s: State, a: nat)
    requires Reachable(s) && !s.crashed && a + 1 < |s.attempts|
    ensures s.attempts[a].cancelled
    ensures s.attempts[a].consumer.Receiving? ==> Enabled(s, Action.ContextDone(a))
    ensures s.attempts[a].consumer.Writing? ==> Enabled(s, PipeCloses(a))
  {
    ReachableMain(s);
    var n := |s.attempts| - 1;
    if s.main.Between? {
      assert s.attempts[a].cancelled;
    } else {
      assert s.attempts[..n][a].cancelled;
    }
  }

  /** The handler reads results of an accepted connection and waits after a refused one, always
      of the last attempt. */
  lemma HandlerFollowsService(s: State)
    requires Reachable(s)
    ensures s.main.Results? ==> s.main.a + 1 == |s.attempts| && s.attempts[s.main.a].service.Accepted?
    ensures s.main.RetryWait? ==> s.main.a + 1 == |s.attempts| && s.attempts[s.main.a].service.Refused?
  {
    ReachableMain(s);
  }

  /** When the request handler and the service may act, in every reachable state: a new attempt
      only between attempts, packets dropped only while waiting to retry, a connection only after
      audio, a return of Handle only with the service's answer. */
  lemma WhoMayAct(s: State, act: Action)
    requires Reachable(s) && !s.crashed
    ensures act.StartAttempt? ==> (Enabled(s, act) <==> s.main.Between?)
    ensures act.Drain? ==> (Enabled(s, act) <==> s.main.RetryWait? && !s.closed)
    ensures act.Retry? ==> (Enabled(s, act) <==> s.main.RetryWait? || s.main.Results?)
    ensures act.Connect? ==>
      (Enabled(s, act) <==> act.a < |s.attempts| && s.attempts[act.a].service.HasAudio?)
    ensures act.HandleReturns? ==>
      (Enabled(s, act) <==>
        s.main.InHandle? && s.attempts != [] && Opened(s.attempts[|s.attempts| - 1]) == 1)
    ensures act.CloseChannel? || act.Finish? ==> Enabled(s, act)
  {
    ReachableMain(s);
  }

  /** The program crashes on a packet too short for its own first byte and on nothing else, once
      all that was written before it has been read. */
  lemma CrashExactly(s: State, a: nat)
    requires Reachable(s) && !s.crashed && a < |s.attempts| && s.attempts[a].consumer.Writing?
    ensures s.attempts[a].got != []
    ensures var t := s.attempts[a];
      Enabled(s, Crash(a)) <==> !Readable(PayloadAt(s.received, Last(t))) && t.out.unread == []
    ensures Enabled(s, Crash(a)) ==> Next(s, Crash(a)) == s.(crashed := true)
  {
    hide AttemptKeeps, Readable;
    ReachableKeeps(s);
    BlockedOnCrash(s.attempts[a], s.received);
  }

  lemma BlockedOnCrash(t: Attempt, received: seq<Item>)
    requires AttemptKeeps(t, received) && t.consumer.Writing?
    ensures t.got != []
    ensures t.out.unread == [] ==> !Readable(PayloadAt(received, Last(t)))
  {
    LastDecides(t, received);
    hide Readable, SinkOf, StreamOf, InStep, PagesRead, Increasing, Bounded, AllAudio, AudioAt;
  }

  /** After a crash nothing happens any more. */
  lemma CrashEndsAll(s: State, act: Action)
    requires s.crashed
    ensures !Enabled(s, act)
  {
  }

  // ---------------------------------------------------------------------------------
  // What has come of a connection
  // ---------------------------------------------------------------------------------

  function ServiceOf(s: State, a: nat): Service
  {
    if a < |s.attempts| then s.attempts[a].service else AwaitingAudio
  }

  lemma ServiceStep(s: State, act: Action, a: nat)
    requires Enabled(s, act)
    ensures var u, v := ServiceOf(s, a), ServiceOf(Next(s, act), a);
      && (v.Accepted? <==> u.Accepted? || act == Connect(a, true))
      && (v.Refused? <==> u.Refused? || act == Connect(a, false))
      && (v.NoAudio? <==> u.NoAudio? || act == AudioFails(a))
  {
    hide Read, CanRead, Put;
  }

  /** An attempt's connection is open exactly if the service has accepted it at some point of the
      run, refused exactly if it has been refused, and never asked for if its audio has failed. */
  lemma {:induction false} ServiceFromRun(s0: State, actions: seq<Action>, s: State, a: nat)
    requires IsRun(s0, actions, s)
    ensures ServiceOf(s, a).Accepted? <==> ServiceOf(s0, a).Accepted? || Connect(a, true) in actions
    ensures ServiceOf(s, a).Refused? <==> ServiceOf(s0, a).Refused? || Connect(a, false) in actions
    ensures ServiceOf(s, a).NoAudio? <==> ServiceOf(s0, a).NoAudio? || AudioFails(a) in actions
    decreases |actions|
  {
    hide Next, Enabled, ServiceOf;
    if actions != [] {
      ServiceStep(s0, actions[0], a);
      ServiceFromRun(Next(s0, actions[0]), actions[1..], s, a);
      assert actions == [actions[0]] + actions[1..];
    }
  }

  // ---------------------------------------------------------------------------------
  // Reading from a pipe
  // ---------------------------------------------------------------------------------

  /** A read of n bytes, at most 10240 of them, delivers the next n bytes of the attempt's stream.
      The first read is what lets the connection be opened; the read that takes the last byte of a
      page lets the consumer receive again. */
  lemma ReadDelivers(s: State, a: nat, n: nat)
    requires Reachable(s) && Enabled(s, ReadPipe(a, n))
    ensures var t := s.attempts[a]; var u := Next(s, ReadPipe(a, n)).attempts[a];
      var stream := StreamOf(t.out, SinkOf(s.received, t.got));
      && 0 < n <= 10240 && |t.out.data| + n <= |stream|
      && u.out.data == stream[..|t.out.data| + n]
      && u.service == (if t.service.AwaitingAudio? then HasAudio else t.service)
      && u.got == t.got
      && (u.consumer.Receiving? ==> u.out.data == stream)
  {
    ReachableKeeps(s);
    var t := s.attempts[a];
    assert AttemptKeeps(t, s.received);
    NextOwn(s, ReadPipe(a, n));
    ReadExactly(t.out, n);
    AttemptReads(t, s.received, n);
    var u := AfterRead(t, s.received, n);
    ReadTail(t, s.received, n);
    assert AttemptKeeps(u, s.received);
    ReadSoFar(t, s.received);
    ReadSoFar(u, s.received);
    hide AttemptKeeps, Read, SinkOf, PayloadsAt, AllReadable, EncodeAll, OggStream, Opus2Ogg.SinkBytes;
    SameWriter(t.out, u.out, SinkOf(s.received, t.got));
    AfterReadService(t, s.received, n);
  }

  lemma AfterReadService(t: Attempt, received: seq<Item>, n: nat)
    requires CanRead(t.out, n) && t.got != []
    ensures AfterRead(t, received, n).service == if t.service.AwaitingAudio? then HasAudio else t.service
  {
    hide Read, CanRead, Readable;
  }

  lemma ReadExactly(w: Output, n: nat)
    requires CanRead(w, n)
    ensures var v := Read(w, n);
      && |v.data| == |w.data| + n && n <= 10240
      && v.serial == w.serial && v.sampleRate == w.sampleRate && v.channelCount == w.channelCount
  {
  }

  // ---------------------------------------------------------------------------------
  // Attempts that have ended, and a closed channel
  // ---------------------------------------------------------------------------------

  predicate ReturnedWith(s: State, a: nat, got: seq<nat>, data: seq<Byte>)
  {
    a < |s.attempts| && s.attempts[a].consumer.Returned? && s.attempts[a].got == got && s.attempts[a].out.data == data
  }

  lemma ReturnedStep(s: State, act: Action, a: nat, got: seq<nat>, data: seq<Byte>)
    requires ReturnedWith(s, a, got, data) && Enabled(s, act)
    ensures ReturnedWith(Next(s, act), a, got, data)
  {
    hide Read, CanRead, Put;
  }

  /** A consumer that has returned receives and writes nothing more, in any run. */
  lemma {:induction false} ReturnedForGood(s0: State, actions: seq<Action>, s: State, a: nat)
    requires IsRun(s0, actions, s) && a < |s0.attempts| && s0.attempts[a].consumer.Returned?
    ensures ReturnedWith(s, a, s0.attempts[a].got, s0.attempts[a].out.data)
    decreases |actions|
  {
    var got, data := s0.attempts[a].got, s0.attempts[a].out.data;
    if actions != [] {
      ReturnedStep(s0, actions[0], a, got, data);
      hide Next, Enabled;
      ReturnedForGood(Next(s0, actions[0]), actions[1..], s, a);
    }
  }

  /** It returns at a closed channel, when its context is done and when its pipe is closed, and
      keeps what has been read. */
  lemma Returns(s: State, act: Action)
    requires Enabled(s, act) && (act.SeeClosed? || act.ContextDone? || act.PipeCloses?)
    ensures act.a < |s.attempts|
    ensures ReturnedWith(Next(s, act), act.a, s.attempts[act.a].got, s.attempts[act.a].out.data)
  {
  }

  lemma ClosedStep(s: State, act: Action)
    requires s.closed && Enabled(s, act)
    ensures Next(s, act).closed && Next(s, act).received == s.received
  {
    hide Read, CanRead, Put;
  }

  /** After the channel is closed nothing is received from it, by anyone. */
  lemma {:induction false} ClosedForGood(s0: State, actions: seq<Action>, s: State)
    requires IsRun(s0, actions, s) && s0.closed
    ensures s.closed && s.received == s0.received
    decreases |actions|
  {
    if actions != [] {
      ClosedStep(s0, actions[0]);
      hide Next, Enabled;
      ClosedForGood(Next(s0, actions[0]), actions[1..], s);
    }
  }

  /** No step is idle, but for closing what is closed and finishing what is finished. */
  lemma NothingIdle(s: State, act: Action)
    requires Enabled(s, act)
    requires act.CloseChannel? ==> !s.closed
    requires act.Finish? ==> !s.main.Finished?
    ensures Next(s, act) != s
  {
    hide Put;
    if act.Receive? {
      assert |Next(s, act).received| == |s.received| + 1;
    } else if act.ReadPipe? {
      ReadExactly(s.attempts[act.a].out, act.n);
      assert Next(s, act).attempts[act.a].out == Read(s.attempts[act.a].out, act.n);
    } else if act.StartAttempt? {
      assert |Next(s, act).attempts| == |s.attempts| + 1;
    } else if act.Drain? {
      assert |Next(s, act).received| == |s.received| + 1;
    }
  }

  // ---------------------------------------------------------------------------------
  // Loss across attempts is real
  // ---------------------------------------------------------------------------------

  /** A consumer that waits may take the next packet, whatever it is, whatever the request handler
      is doing and whether or not its attempt is cancelled. */
  lemma AnyoneMayReceive(s: State, a: nat, x: Item)
    requires a < |s.attempts| && s.attempts[a].consumer.Receiving? && !s.closed && !s.crashed
    ensures Enabled(s, Receive(a, x))
    ensures Next(s, Receive(a, x)).attempts[a].got == s.attempts[a].got + [|s.received|]
  {
  }

  const FIRST: Item := Packet([0], false)

  /** A first attempt that has received FIRST. */
  function One(consumer: Consumer, service: Service, pages: seq<nat>, w: Output): State
  {
    State([FIRST], false, [Attempt(consumer, service, false, [0], pages, w)], [], InHandle(0), false)
  }

  /** Reading one of its writes to the end. */
  lemma ReadWhole(service: Service, w: Output)
    requires w.unread != [] && 0 < |w.unread[0]| <= 10240
    requires service.AwaitingAudio? || service.Accepted?
    ensures var s := One(Writing, service, [], w); var act := ReadPipe(0, |w.unread[0]|);
      var done := |w.unread| == 1;
      && Enabled(s, act)
      && Next(s, act) == One(
           if done then Receiving else Writing,
           if service.AwaitingAudio? then HasAudio else service,
           if done then [0] else [],
           w.(unread := w.unread[1..], data := w.data + w.unread[0]))
  {
    var s, n := One(Writing, service, [], w), |w.unread[0]|;
    assert w.unread[0][..n] == w.unread[0];
    assert Readable(PayloadAt(s.received, 0));
    assert [s.attempts[0]][0 := AfterRead(s.attempts[0], s.received, n)] == [AfterRead(s.attempts[0], s.received, n)];
    assert [] + [Last(s.attempts[0])] == [0];
  }

  const FRESH_OUTPUT := Output(0, 48000, 2, 1, 0, [], [])

  function Started0(): State
  {
    State([], false, [Attempt(Receiving, AwaitingAudio, false, [], [], FRESH_OUTPUT)], [], InHandle(0), false)
  }

  lemma FirstStarts()
    ensures Reachable(START)
    ensures Enabled(START, StartAttempt(0, 48000, 2)) && Next(START, StartAttempt(0, 48000, 2)) == Started0()
  {
    assert IsRun(START, [], START);
  }

  lemma FirstReceives()
    ensures Enabled(Started0(), Receive(0, FIRST))
    ensures Next(Started0(), Receive(0, FIRST)) == One(Writing, AwaitingAudio, [], Put(FRESH_OUTPUT, true, [0]))
  {
    hide Put;
    var t := Started0().attempts[0];
    assert [t][0 := AfterReceive(t, 0, FIRST)] == [AfterReceive(t, 0, FIRST)];
    assert t.got + [0] == [0] && Started0().received + [FIRST] == [FIRST];
  }

  lemma FirstReceived() returns (w: Output)
    ensures Reachable(One(Writing, AwaitingAudio, [], w))
    ensures |w.unread| == 3 && |w.unread[0]| == 47 && |w.unread[1]| == 49 && |w.unread[2]| == 29
  {
    hide Next, Enabled, Reachable, Put;
    FirstStarts();
    ReachableNext(START, StartAttempt(0, 48000, 2));
    FirstReceives();
    ReachableNext(Started0(), Receive(0, FIRST));
    w := Put(FRESH_OUTPUT, true, [0]);
    FirstWrites(FRESH_OUTPUT, AudioPage(0, 1, 2, [0]));
  }

  /** An attempt whose connection has been accepted and whose first packet has been read. */
  lemma FirstPacketRead() returns (s: State)
    ensures Reachable(s) && exists w :: s == One(Receiving, Accepted, [0], w)
  {
    var w := FirstReceived();
    hide Enabled, Next, Reachable;
    ReadWhole(AwaitingAudio, w);
    ReachableNext(One(Writing, AwaitingAudio, [], w), ReadPipe(0, 47));
    var v := w.(unread := w.unread[1..], data := w.data + w.unread[0]);
    Accepts(v);
    ReachableNext(One(Writing, HasAudio, [], v), Connect(0, true));
    ReadWhole(Accepted, v);
    ReachableNext(One(Writing, Accepted, [], v), ReadPipe(0, 49));
    var u := v.(unread := v.unread[1..], data := v.data + v.unread[0]);
    ReadWhole(Accepted, u);
    ReachableNext(One(Writing, Accepted, [], u), ReadPipe(0, 29));
    s := One(Receiving, Accepted, [0], u.(unread := u.unread[1..], data := u.data + u.unread[0]));
  }

  lemma Accepts(w: Output)
    ensures var s := One(Writing, HasAudio, [], w);
      Enabled(s, Connect(0, true)) && Next(s, Connect(0, true)) == One(Writing, Accepted, [], w)
  {
    var s := One(Writing, HasAudio, [], w);
    assert s.attempts[0 := s.attempts[0].(service := Accepted)] == [s.attempts[0].(service := Accepted)];
  }

  lemma FirstWrites(w: Output, page: Page)
    requires w == Output(0, 48000, 2, 1, 0, [], []) && page == AudioPage(0, 1, 2, [0])
    ensures Put(w, true, [0]).unread == [Encode(w.Header(0)), Encode(w.Header(1)), Encode(page)]
    ensures |Encode(w.Header(0))| == 47 && |Encode(w.Header(1))| == 49 && |Encode(page)| == 29
  {
    hide Encode;
    PutIs(w, true, [0]);
  }

  /** The packet `x` has gone to the cancelled first attempt while the second one was waiting. */
  predicate IsLoss(s: State, x: Item)
  {
    && |s.attempts| == 2 && s.main == InHandle(1) && s.received == [FIRST, x]
    && s.attempts[0].cancelled && s.attempts[0].got == [0, 1] && s.attempts[1].got == []
  }

  /** A run in which a packet is lost for the new attempt: the service drops the first connection,
      the next attempt has started, and the cancelled one takes the packet. */
  lemma LossHappens(x: Item)
    ensures exists s :: Reachable(s) && IsLoss(s, x)
  {
    var s := FirstPacketRead();
    var s1 := Next(s, HandleReturns);
    ReachableNext(s, HandleReturns);
    var s2 := Next(s1, Retry);
    ReachableNext(s1, Retry);
    var s3 := Next(s2, StartAttempt(1, 48000, 2));
    ReachableNext(s2, StartAttempt(1, 48000, 2));
    hide Put;
    var s4 := Next(s3, Receive(0, x));
    ReachableNext(s3, Receive(0, x));
    assert Reachable(s4) && IsLoss(s4, x);
  }
}
