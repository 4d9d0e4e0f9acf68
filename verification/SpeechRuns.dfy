/** What holds in every run of the speech request handler. Reachable states are those that some
    sequence of events leads to from the start. */
module SpeechRuns {
  import opened Bytes
  import opened Speech

  function Max0(n: int): nat
  {
    if n < 0 then 0 else n
  }

  // ---------------------------------------------------------------------------------
  // What each event leads to, in every reachable state
  // ---------------------------------------------------------------------------------

  lemma RunSnoc(cfg: Config, events: seq<Event>, e: Event)
    ensures Run(cfg, START, events + [e]) == Step(cfg, Run(cfg, START, events), e)
  {
    RunAppend(cfg, START, events, [e]);
    assert [e][1..] == [];
  }

  /** The status code the client gets for a service error: three digits, and 500 for any other. */
  predicate IsStatusFor(status: int, code: int)
  {
    100 <= status <= 999 && (100 <= code <= 999 ==> status == code) && (!(100 <= code <= 999) ==> status == 500)
  }

  /** A service error is retried exactly if it is marked so and the count is below MaxRetry; then
      the count goes up by one and nothing is sent. Otherwise the request ends with its status. */
  lemma ServiceErrors(cfg: Config, events: seq<Event>, e: Event)
    requires Run(cfg, START, events).phase.Connecting? && e.handle.ServiceError?
    ensures var s, t := Run(cfg, START, events), Run(cfg, START, events + [e]);
      && (t.phase.Waiting? <==> e.handle.retry && s.count < cfg.maxRetry)
      && (t.phase.Waiting? ==> t.count == s.count + 1)
      && (!t.phase.Waiting? ==>
            && t.phase.Done? && t.phase.response.NoContent? && IsStatusFor(t.phase.response.status, e.handle.code)
            && t.count == s.count)
      && t.sent == s.sent && t.calls == s.calls + 1 && t.successes == s.successes
  {
    RunSnoc(cfg, events, e);
  }

  /** The other answers of Handle: a reader starts the reading and resets the counter if the
      handler does; end and cancellation of the client's audio end the request with 200; a
      configuration error is the only one that sends a message. */
  lemma HandleAnswers(cfg: Config, events: seq<Event>, e: Event)
    requires Run(cfg, START, events).phase.Connecting? && !e.handle.ServiceError?
    ensures var s, t := Run(cfg, START, events), Run(cfg, START, events + [e]);
      && t.calls == s.calls + 1
      && (t.phase.Reading? <==> e.handle.Connected?)
      && (e.handle.Connected? ==>
            && t.successes == s.successes + 1 && t.count == (if cfg.resets then 0 else s.count)
            && t.attempts == s.attempts + [[]])
      && (t.phase == Done(NoContent(200)) <==> e.handle.HandleEof? || e.handle.HandleCanceled?)
      && (t.phase == Done(InternalError) <==> e.handle.OtherError? || (e.handle.ConfError? && e.writeOk))
      && (t.phase == Done(WriteFailed) <==> e.handle.ConfError? && !e.writeOk)
      && t.sent == s.sent + if e.handle.ConfError? && e.writeOk then [ErrorMessage] else []
  {
    RunSnoc(cfg, events, e);
    assert Run(cfg, START, events).sent + [] == Run(cfg, START, events).sent;
  }

  /** While waiting to retry, packets are received and dropped until the timer fires or the channel
      closes, which ends the request; nothing is sent. */
  lemma WaitEvents(cfg: Config, events: seq<Event>, e: Event)
    requires Run(cfg, START, events).phase.Waiting?
    ensures var s, t := Run(cfg, START, events), Run(cfg, START, events + [e]);
      && (e.wait.PacketArrives? ==> t == s.(drained := s.drained + 1))
      && (e.wait.ChannelCloses? ==> t == s.(phase := Done(RetryInterrupted)))
      && (e.wait.TimerFires? ==> t == s.(phase := if cfg.guardedClose then Connecting else Done(Panicked)))
  {
    RunSnoc(cfg, events, e);
  }

  /** While reading: a chunk is recorded and, if it is not empty, sent on; the end of the results
      and a client that is gone end the request without a message; a disconnect by the service
      starts another attempt if the count is below MaxRetry, and otherwise, like any other error,
      ends the request with one message. */
  lemma ReadEvents(cfg: Config, events: seq<Event>, e: Event)
    requires Run(cfg, START, events).phase.Reading?
    ensures var s, t := Run(cfg, START, events), Run(cfg, START, events + [e]);
      var again := e.read.ServerDisconnected? && 1 <= cfg.maxRetry && s.count < cfg.maxRetry;
      var message := (e.read.ServerDisconnected? && !again) || e.read.ReadOther?;
      && s.attempts != []
      && (e.read.Chunk? ==>
            && |t.attempts| == |s.attempts| && t.attempts[..|s.attempts| - 1] == s.attempts[..|s.attempts| - 1]
            && t.attempts[|s.attempts| - 1] == s.attempts[|s.attempts| - 1] + [e.read.data])
      && (!e.read.Chunk? ==> t.attempts == s.attempts)
      && t.sent == s.sent + (if e.read.Chunk? && e.read.data != [] && e.writeOk then [Result(e.read.data)]
                             else if message && e.writeOk then [ErrorMessage] else [])
      && (t.phase.Connecting? <==> again)
      && t.count == (if again then s.count + 1 else s.count)
      && (t.phase.Reading? <==> e.read.Chunk? && (e.read.data == [] || e.writeOk))
      && (t.phase == Done(NoContent(200)) <==> e.read.ReadEof?)
      && (t.phase == Done(Disconnected) <==> e.read.ClientDisconnected?)
      && (t.phase == Done(NotReconnecting) <==> e.read.ServerDisconnected? && cfg.maxRetry < 1 && e.writeOk)
      && (t.phase == Done(GaveUp) <==>
            e.read.ServerDisconnected? && cfg.maxRetry >= 1 && s.count >= cfg.maxRetry && e.writeOk)
      && (t.phase == Done(ReadFailed) <==> e.read.ReadOther? && e.writeOk)
      && (t.phase == Done(WriteFailed) <==> !e.writeOk && (message || (e.read.Chunk? && e.read.data != [])))
  {
    RunSnoc(cfg, events, e);
    var s := Run(cfg, START, events);
    assert s.sent + [] == s.sent;
  }

  // ---------------------------------------------------------------------------------
  // Counting
  // ---------------------------------------------------------------------------------

  /** Attempts that an increment of the counter has announced, but not started. */
  function Announced(p: Phase): nat
  {
    match p
    case Connecting => 1
    case Waiting => 1
    case _ => 0
  }

  predicate Counts(cfg: Config, s: State)
  {
    && 0 <= s.count <= Max0(cfg.maxRetry)
    && s.calls <= s.updates + 1
    && (!s.phase.Done? ==> s.calls + Announced(s.phase) == s.updates + 1)
    && (cfg.resets && s.phase.Reading? ==> s.count == 0)
    && (!cfg.guardedClose ==> s.calls <= s.successes + 1)
    && (!cfg.guardedClose && (s.phase.Connecting? || s.phase.Reading?) ==> s.calls <= s.successes)
    && |s.attempts| == s.calls
    && (cfg.resets ==> s.phase != Done(GaveUp))
  }

  /** Each success grants the counter's range anew. */
  predicate Budget(cfg: Config, s: State)
  {
    cfg.resets ==> s.updates <= s.successes * Max0(cfg.maxRetry) + s.count
  }

  lemma StepCounts(cfg: Config, s: State, e: Event)
    requires Valid(s) && Counts(cfg, s)
    ensures Counts(cfg, Step(cfg, s, e))
  {
  }

  lemma OneMore(n: nat, m: nat)
    ensures (n + 1) * m == n * m + m
  {
  }

  lemma StepBudget(cfg: Config, s: State, e: Event)
    requires Valid(s) && Counts(cfg, s) && Budget(cfg, s)
    ensures Budget(cfg, Step(cfg, s, e))
  {
    hide Max0, Extend;
    OneMore(s.successes, Max0(cfg.maxRetry));
  }

  lemma {:induction false} RunCounts(cfg: Config, s: State, events: seq<Event>)
    requires Valid(s) && Counts(cfg, s) && Budget(cfg, s)
    ensures Counts(cfg, Run(cfg, s, events)) && Budget(cfg, Run(cfg, s, events))
    decreases |events|
  {
    hide Counts, Budget, Step;
    if events != [] {
      StepCounts(cfg, s, events[0]);
      StepBudget(cfg, s, events[0]);
      RunCounts(cfg, Step(cfg, s, events[0]), events[1..]);
    }
  }

  lemma ReachableCounts(cfg: Config, events: seq<Event>)
    ensures Counts(cfg, Run(cfg, START, events)) && Budget(cfg, Run(cfg, START, events))
  {
    RunCounts(cfg, START, events);
  }

  /** The number of calls of Handle, in every run of any length, for a handler that resets its
      counter: at most (S + 1) * max(0, MaxRetry) + 1, where S calls succeeded. The counter never
      leaves its range. */
  lemma RetryBound(cfg: Config, events: seq<Event>)
    requires cfg.resets
    ensures var s := Run(cfg, START, events);
      && s.calls <= (s.successes + 1) * Max0(cfg.maxRetry) + 1
      && 0 <= s.count <= Max0(cfg.maxRetry)
  {
    hide Run, Max0;
    ReachableCounts(cfg, events);
    OneMore(Run(cfg, START, events).successes, Max0(cfg.maxRetry));
  }

  /** With the unconditional close, a failed connection is never retried: every call but the
      first follows a success. */
  lemma UnguardedBound(cfg: Config, events: seq<Event>)
    requires !cfg.guardedClose
    ensures Run(cfg, START, events).calls <= Run(cfg, START, events).successes + 1
  {
    ReachableCounts(cfg, events);
  }

  /** The panic is real: with the close as written and retries switched on, a first connection
      that fails with a retryable error and the timer after it are enough. */
  lemma PanicReached(cfg: Config)
    requires !cfg.guardedClose && cfg.maxRetry >= 1
    ensures Run(cfg, START, [FAIL, FAIL]).phase == Done(Panicked)
  {
    assert [FAIL, FAIL][1..] == [FAIL] && [FAIL][1..] == [];
    var s := Step(cfg, START, FAIL);
    assert Run(cfg, START, [FAIL, FAIL]) == Run(cfg, s, [FAIL]) == Run(cfg, Step(cfg, s, FAIL), []);
  }

  /** With the close as written, MaxRetry decides: the handler can panic exactly if retries are
      switched on. With the intended close it never does. */
  lemma PanicsExactly(cfg: Config)
    ensures (exists events :: Run(cfg, START, events).phase == Done(Panicked)) <==>
      !cfg.guardedClose && cfg.maxRetry >= 1
  {
    if !cfg.guardedClose && cfg.maxRetry >= 1 {
      PanicReached(cfg);
    } else {
      forall events: seq<Event> ensures Run(cfg, START, events).phase != Done(Panicked) {
        NeverPanics(cfg, START, events);
      }
    }
  }

  /** Without retries the handler does not wait, and with a guard it survives the wait. */
  lemma {:induction false} NeverPanics(cfg: Config, s: State, events: seq<Event>)
    requires Valid(s) && s.phase != Done(Panicked) && 0 <= s.count
    requires cfg.guardedClose || (cfg.maxRetry < 1 && !s.phase.Waiting?)
    ensures Run(cfg, s, events).phase != Done(Panicked)
    decreases |events|
  {
    if events != [] {
      NeverPanics(cfg, Step(cfg, s, events[0]), events[1..]);
    }
  }

  /** Every timer that ends a wait is a panic with the close as written, in every reachable
      state: such a run never makes the attempt it has counted. */
  lemma WaitPanics(cfg: Config, events: seq<Event>, e: Event)
    requires Run(cfg, START, events).phase.Waiting? && e.wait.TimerFires?
    ensures var s := Run(cfg, START, events); var t := Run(cfg, START, events + [e]);
      && t.phase == (if cfg.guardedClose then Connecting else Done(Panicked))
      && (t.phase == Done(Panicked) ==> t.calls == t.updates == s.calls)
  {
    RunAppend(cfg, START, events, [e]);
    ReachableCounts(cfg, events);
    assert [e][1..] == [];
  }

  /** From the wait after a failed connection, another attempt can follow exactly if the close is
      guarded. */
  lemma RetryNeedsGuard(cfg: Config, s: State)
    requires s.phase.Waiting?
    ensures cfg.guardedClose <==> exists events :: Run(cfg, s, events).calls > s.calls
  {
    if cfg.guardedClose {
      var timer := Event(OtherError, ReadEof, TimerFires, true);
      var events := [timer, timer];
      var t := Step(cfg, s, timer);
      assert events[1..] == [timer] && [timer][1..] == [];
      assert Run(cfg, t, [timer]) == Run(cfg, Step(cfg, t, timer), []);
      assert Run(cfg, s, events).calls > s.calls;
    } else {
      forall events: seq<Event> ensures Run(cfg, s, events).calls == s.calls {
        NoCallAfterWait(cfg, s, events);
      }
    }
  }

  lemma {:induction false} NoCallAfterWait(cfg: Config, s: State, events: seq<Event>)
    requires !cfg.guardedClose && (s.phase.Waiting? || s.phase.Done?)
    ensures Run(cfg, s, events).calls == s.calls
    decreases |events|
  {
    if events != [] {
      NoCallAfterWait(cfg, Step(cfg, s, events[0]), events[1..]);
    }
  }

  // ---------------------------------------------------------------------------------
  // The bound is reached
  // ---------------------------------------------------------------------------------

  const FAIL := Event(ServiceError(429, true), ReadEof, TimerFires, true)
  const DROP := Event(Connected, ServerDisconnected, TimerFires, true)

  /** `n` failed connections, each followed by the timer. */
  function Failures(n: nat): seq<Event>
  {
    if n == 0 then [] else [FAIL, FAIL] + Failures(n - 1)
  }

  lemma {:induction false} FailuresRun(cfg: Config, s: State, n: nat)
    requires s.phase.Connecting? && cfg.guardedClose && s.count + n <= cfg.maxRetry
    ensures var t := Run(cfg, s, Failures(n));
      && t.phase.Connecting? && t.count == s.count + n
      && t.calls == s.calls + n && t.successes == s.successes
    decreases n
  {
    if n > 0 {
      var t := Step(cfg, Step(cfg, s, FAIL), FAIL);
      var events := [FAIL, FAIL] + Failures(n - 1);
      assert events[1..] == [FAIL] + Failures(n - 1) && events[1..][1..] == Failures(n - 1);
      assert Run(cfg, s, events) == Run(cfg, Step(cfg, s, FAIL), events[1..]) == Run(cfg, t, Failures(n - 1));
      FailuresRun(cfg, t, n - 1);
    }
  }

  /** From a connecting state with `s.count` retries used: the worst case with `successes` more
      successes. */
  function WorstCase(maxRetry: nat, count: nat, successes: nat): seq<Event>
    requires count <= maxRetry && maxRetry >= 1
    decreases successes
  {
    Failures(maxRetry - count)
    + if successes == 0 then [FAIL] else [DROP, DROP] + WorstCase(maxRetry, 1, successes - 1)
  }

  lemma LastFailure(cfg: Config, s: State)
    requires s.phase.Connecting? && cfg.maxRetry <= s.count
    ensures var t := Run(cfg, s, [FAIL]);
      t.phase.Done? && t.calls == s.calls + 1 && t.successes == s.successes
  {
    assert [FAIL][1..] == [];
    assert Run(cfg, s, [FAIL]) == Step(cfg, s, FAIL);
  }

  /** One success, and the disconnect after it. */
  lemma Dropped(cfg: Config, s: State, more: seq<Event>) returns (t: State)
    requires s.phase.Connecting? && cfg.resets && cfg.maxRetry >= 1
    ensures t.phase.Connecting? && t.count == 1 && t.successes == s.successes + 1 && t.calls == s.calls + 1
    ensures Run(cfg, s, [DROP, DROP] + more) == Run(cfg, t, more)
  {
    t := Step(cfg, Step(cfg, s, DROP), DROP);
    var events := [DROP, DROP] + more;
    assert events[1..] == [DROP] + more && events[1..][1..] == more;
    assert Run(cfg, s, events) == Run(cfg, Step(cfg, s, DROP), events[1..]) == Run(cfg, t, more);
  }

  lemma {:induction false} WorstCaseRun(cfg: Config, s: State, successes: nat)
    requires s.phase.Connecting? && cfg.guardedClose && cfg.resets
    requires cfg.maxRetry >= 1 && 0 <= s.count <= cfg.maxRetry
    ensures var t := Run(cfg, s, WorstCase(cfg.maxRetry, s.count, successes));
      && t.phase.Done? && t.successes == s.successes + successes
      && t.calls == s.calls + (cfg.maxRetry - s.count) + successes * cfg.maxRetry + 1
    decreases successes
  {
    hide Step;
    var n := cfg.maxRetry - s.count;
    var t := Run(cfg, s, Failures(n));
    FailuresRun(cfg, s, n);
    if successes == 0 {
      RunAppend(cfg, s, Failures(n), [FAIL]);
      LastFailure(cfg, t);
    } else {
      var more := WorstCase(cfg.maxRetry, 1, successes - 1);
      RunAppend(cfg, s, Failures(n), [DROP, DROP] + more);
      var u := Dropped(cfg, t, more);
      WorstCaseRun(cfg, u, successes - 1);
      OneMore(successes - 1, cfg.maxRetry);
    }
  }

  /** `n` connections, each lost again. */
  function Drops(n: nat): seq<Event>
  {
    if n == 0 then [] else [DROP, DROP] + Drops(n - 1)
  }

  /** `n` connections lost again, for a handler that resets. */
  lemma {:induction false} DropsReset(cfg: Config, s: State, n: nat)
    requires s.phase.Connecting? && cfg.resets && cfg.maxRetry >= 1
    ensures var t := Run(cfg, s, Drops(n));
      && t.phase.Connecting? && t.count == (if n == 0 then s.count else 1)
      && t.calls == s.calls + n && t.successes == s.successes + n
    decreases n
  {
    if n > 0 {
      var t := Dropped(cfg, s, Drops(n - 1));
      DropsReset(cfg, t, n - 1);
    }
  }

  /** The bounds of RetryBound and UnguardedBound are reached, for every number of successes:
      with the intended close the first one, with the close as written the second one. */
  lemma RetryBoundReached(cfg: Config, successes: nat)
    requires cfg.resets && cfg.maxRetry >= 1
    ensures exists events :: var s := Run(cfg, START, events);
      && s.successes == successes
      && s.calls == if cfg.guardedClose then (successes + 1) * cfg.maxRetry + 1 else successes + 1
  {
    if cfg.guardedClose {
      WorstCaseRun(cfg, START, successes);
      OneMore(successes, cfg.maxRetry);
    } else {
      var t := Run(cfg, START, Drops(successes));
      DropsReset(cfg, START, successes);
      RunAppend(cfg, START, Drops(successes), [FAIL]);
      assert [FAIL][1..] == [];
      assert Run(cfg, t, [FAIL]) == Step(cfg, t, FAIL);
      assert Run(cfg, START, Drops(successes) + [FAIL]).calls == successes + 1;
    }
  }

  // ---------------------------------------------------------------------------------
  // Reconnecting
  // ---------------------------------------------------------------------------------

  /** For a handler that resets its counter, a disconnect by the service always starts another
      attempt if retries are switched on, and never if they are off. */
  lemma ReconnectAlwaysContinues(cfg: Config, events: seq<Event>, e: Event)
    requires cfg.resets && Run(cfg, START, events).phase.Reading? && e.read.ServerDisconnected?
    ensures Step(cfg, Run(cfg, START, events), e).phase.Connecting? <==> cfg.maxRetry >= 1
  {
    ReachableCounts(cfg, events);
  }

  lemma {:induction false} DropsRun(cfg: Config, s: State, n: nat)
    requires s.phase.Connecting? && !cfg.resets && cfg.maxRetry >= 1 && s.count + n <= cfg.maxRetry
    ensures var t := Run(cfg, s, Drops(n));
      t.phase.Connecting? && t.count == s.count + n
    decreases n
  {
    if n > 0 {
      var t := Step(cfg, Step(cfg, s, DROP), DROP);
      var events := [DROP, DROP] + Drops(n - 1);
      assert events[1..] == [DROP] + Drops(n - 1) && events[1..][1..] == Drops(n - 1);
      assert Run(cfg, s, events) == Run(cfg, Step(cfg, s, DROP), events[1..]) == Run(cfg, t, Drops(n - 1));
      DropsRun(cfg, t, n - 1);
    }
  }

  /** So the branch that gives up is dead for such a handler; for one that does not reset, it is
      reached for every positive MaxRetry. */
  lemma GivingUp(cfg: Config)
    ensures (exists events :: Run(cfg, START, events).phase == Done(GaveUp)) <==> !cfg.resets && cfg.maxRetry >= 1
  {
    if !cfg.resets && cfg.maxRetry >= 1 {
      var s := Run(cfg, START, Drops(cfg.maxRetry));
      DropsRun(cfg, START, cfg.maxRetry);
      RunAppend(cfg, START, Drops(cfg.maxRetry), [DROP, DROP]);
      assert [DROP, DROP][1..] == [DROP] && [DROP][1..] == [];
      assert Run(cfg, s, [DROP, DROP]) == Run(cfg, Step(cfg, s, DROP), [DROP]);
      assert Run(cfg, Step(cfg, s, DROP), [DROP]) == Step(cfg, Step(cfg, s, DROP), DROP);
      assert Run(cfg, START, Drops(cfg.maxRetry) + [DROP, DROP]).phase == Done(GaveUp);
    } else {
      forall events: seq<Event> ensures Run(cfg, START, events).phase != Done(GaveUp) {
        if cfg.resets {
          ReachableCounts(cfg, events);
        } else {
          NeverGivesUp(cfg, START, events);
        }
      }
    }
  }

  lemma {:induction false} NeverGivesUp(cfg: Config, s: State, events: seq<Event>)
    requires Valid(s) && cfg.maxRetry < 1 && s.phase != Done(GaveUp)
    ensures Run(cfg, s, events).phase != Done(GaveUp)
    decreases |events|
  {
    if events != [] {
      NeverGivesUp(cfg, Step(cfg, s, events[0]), events[1..]);
    }
  }

  // ---------------------------------------------------------------------------------
  // What the client gets
  // ---------------------------------------------------------------------------------

  /** The non-empty chunks of one attempt. */
  function Results(chunks: seq<seq<Byte>>): seq<Output>
  {
    if chunks == [] then []
    else
      var n := |chunks| - 1;
      Results(chunks[..n]) + if chunks[n] == [] then [] else [Result(chunks[n])]
  }

  /** The results of all attempts, in the order of the attempts. */
  function AllResults(attempts: seq<seq<seq<Byte>>>): seq<Output>
  {
    if attempts == [] then []
    else
      var n := |attempts| - 1;
      AllResults(attempts[..n]) + Results(attempts[n])
  }

  /** Results of the attempts, in order; at most one error message, and only at the very end. A
      failed write cuts the output short. */
  predicate Shape(s: State)
  {
    match s.phase
    case Done(WriteFailed) => s.sent <= AllResults(s.attempts)
    case Done(_) => s.sent == AllResults(s.attempts) || s.sent == AllResults(s.attempts) + [ErrorMessage]
    case _ => s.sent == AllResults(s.attempts)
  }

  lemma NewAttempt(attempts: seq<seq<seq<Byte>>>)
    ensures AllResults(attempts + [[]]) == AllResults(attempts)
  {
    assert (attempts + [[]])[..|attempts|] == attempts;
    assert AllResults(attempts) + [] == AllResults(attempts);
  }

  lemma OneMoreChunk(attempts: seq<seq<seq<Byte>>>, chunk: seq<Byte>)
    requires attempts != []
    ensures AllResults(Extend(attempts, chunk))
         == AllResults(attempts) + if chunk == [] then [] else [Result(chunk)]
  {
    var n := |attempts| - 1;
    var a, b := attempts[n], attempts[n] + [chunk];
    var all := Extend(attempts, chunk);
    assert all[..n] == attempts[..n] && all[n] == b;
    assert b[..|a|] == a && b[|a|] == chunk;
    SeqAssociative(AllResults(attempts[..n]), Results(a), if chunk == [] then [] else [Result(chunk)]);
  }

  lemma StepShape(cfg: Config, s: State, e: Event)
    requires Valid(s) && Shape(s)
    ensures Shape(Step(cfg, s, e))
  {
    hide AllResults, Extend;
    NewAttempt(s.attempts);
    if s.phase.Reading? && e.read.Chunk? {
      OneMoreChunk(s.attempts, e.read.data);
      assert s.sent + [] == s.sent;
    }
  }

  lemma {:induction false} RunShape(cfg: Config, s: State, events: seq<Event>)
    requires Valid(s) && Shape(s)
    ensures Shape(Run(cfg, s, events))
    decreases |events|
  {
    hide Shape, Step;
    if events != [] {
      StepShape(cfg, s, events[0]);
      RunShape(cfg, Step(cfg, s, events[0]), events[1..]);
    }
  }

  /** In every run: what the client has been sent are the bytes read from each attempt's reader,
      attempt by attempt, and then at most one error message; with the message the run is over,
      so nothing is written and no attempt starts after it. */
  lemma ClientOutput(cfg: Config, events: seq<Event>, more: seq<Event>)
    ensures var s := Run(cfg, START, events); var t := Run(cfg, START, events + more);
      && Shape(s)
      && (ErrorMessage in s.sent ==> s.phase.Done?)
      && (s.phase.Done? ==> t == s)
      && s.sent <= t.sent
  {
    var s := Run(cfg, START, events);
    RunShape(cfg, START, events);
    RunAppend(cfg, START, events, more);
    OnlyResults(s.attempts);
    if s.phase.Done? {
      RunDone(cfg, s, more);
    }
    SentGrows(cfg, s, more);
  }

  lemma {:induction false} SentGrows(cfg: Config, s: State, events: seq<Event>)
    requires Valid(s)
    ensures s.sent <= Run(cfg, s, events).sent
    decreases |events|
  {
    if events != [] {
      SentGrows(cfg, Step(cfg, s, events[0]), events[1..]);
    }
  }

  lemma {:induction false} OnlyResults(attempts: seq<seq<seq<Byte>>>)
    ensures ErrorMessage !in AllResults(attempts)
    decreases |attempts|
  {
    if attempts != [] {
      OnlyResults(attempts[..|attempts| - 1]);
      OnlyResultsOfOne(attempts[|attempts| - 1]);
    }
  }

  lemma {:induction false} OnlyResultsOfOne(chunks: seq<seq<Byte>>)
    ensures ErrorMessage !in Results(chunks)
    decreases |chunks|
  {
    if chunks != [] {
      OnlyResultsOfOne(chunks[..|chunks| - 1]);
    }
  }
}
