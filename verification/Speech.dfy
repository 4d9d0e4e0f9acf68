/** The speech request handler: attempts at the speech service, the retry counter, and what is
    written to the client. */
module Speech {
  import opened Bytes

  // ---------------------------------------------------------------------------------
  // The environment
  // ---------------------------------------------------------------------------------

  /** What a call of the service handler returns: a reader, or no reader and an error. */
  datatype HandleResult =
    | Connected
    | HandleEof
    | HandleCanceled
    | ServiceError(code: int, retry: bool)
    | ConfError
    | OtherError

  /** What a read from the service's reader returns. */
  datatype ReadOutcome =
    | Chunk(data: seq<Byte>)
    | ReadEof
    | ClientDisconnected
    | ServerDisconnected
    | ReadOther

  /** What ends, or prolongs, the wait before a retry. */
  datatype WaitEvent = TimerFires | PacketArrives | ChannelCloses

  /** One answer of the environment; the handler uses the part it is waiting for. `writeOk` says
      whether a write to the client that follows succeeds. */
  datatype Event = Event(handle: HandleResult, read: ReadOutcome, wait: WaitEvent, writeOk: bool)

  /** `resets`: a successful Handle sets the counter back. `guardedClose`: the reader is closed
      after the wait only if there is one; the program closes it unconditionally and panics, as
      Handle returns no reader with an error. */
  datatype Config = Config(maxRetry: int, resets: bool, guardedClose: bool)

  // ---------------------------------------------------------------------------------
  // The state machine
  // ---------------------------------------------------------------------------------

  datatype Response =
    | NoContent(status: int)
    | InternalError
    | RetryInterrupted
    | Disconnected      // by the client
    | NotReconnecting   // by the service, and retries are switched off
    | GaveUp            // by the service, and the retries are used up
    | ReadFailed
    | WriteFailed
    | Panicked

  datatype Phase = Connecting | Waiting | Reading | Done(response: Response)

  datatype Output = Result(data: seq<Byte>) | ErrorMessage

  /** `attempts[k]` are the chunks read from the reader of attempt k; `drained` counts packets
      received and dropped while waiting; `updates` counts increments of the counter. */
  datatype State = State(
    phase: Phase,
    count: int,
    calls: nat,
    successes: nat,
    updates: nat,
    drained: nat,
    attempts: seq<seq<seq<Byte>>>,
    sent: seq<Output>)

  const START := State(Connecting, 0, 0, 0, 0, 0, [], [])

  function Finish(s: State, r: Response): State
  {
    s.(phase := Done(r))
  }

  function Report(s: State, writeOk: bool, r: Response): State
  {
    if writeOk then Finish(s.(sent := s.sent + [ErrorMessage]), r) else Finish(s, WriteFailed)
  }

  function StatusOf(code: int): int
  {
    if code < 100 || code > 999 then 500 else code
  }

  function OnHandle(cfg: Config, s0: State, e: Event): State
  {
    var s := s0.(calls := s0.calls + 1, attempts := s0.attempts + [[]]);
    match e.handle
    case Connected =>
      s.(phase := Reading, successes := s.successes + 1, count := if cfg.resets then 0 else s.count)
    case HandleEof => Finish(s, NoContent(200))
    case HandleCanceled => Finish(s, NoContent(200))
    case ServiceError(code, retry) =>
      if retry && cfg.maxRetry > s.count then
        s.(phase := Waiting, count := s.count + 1, updates := s.updates + 1)
      else Finish(s, NoContent(StatusOf(code)))
    case ConfError => Report(s, e.writeOk, InternalError)
    case OtherError => Finish(s, InternalError)
  }

  function OnWait(cfg: Config, s: State, e: Event): State
  {
    match e.wait
    case TimerFires => if cfg.guardedClose then s.(phase := Connecting) else Finish(s, Panicked)
    case PacketArrives => s.(drained := s.drained + 1)
    case ChannelCloses => Finish(s, RetryInterrupted)
  }

  /** `attempts` with one more chunk read by the last attempt. */
  function Extend(attempts: seq<seq<seq<Byte>>>, chunk: seq<Byte>): seq<seq<seq<Byte>>>
    requires attempts != []
  {
    var n := |attempts| - 1;
    attempts[..n] + [attempts[n] + [chunk]]
  }

  function OnRead(cfg: Config, s: State, e: Event): State
    requires s.attempts != []
  {
    match e.read
    case Chunk(data) =>
      var t := s.(attempts := Extend(s.attempts, data));
      if data == [] then t
      else if e.writeOk then t.(sent := t.sent + [Result(data)])
      else Finish(t, WriteFailed)
    case ReadEof => Finish(s, NoContent(200))
    case ClientDisconnected => Finish(s, Disconnected)
    case ServerDisconnected =>
      if cfg.maxRetry < 1 then Report(s, e.writeOk, NotReconnecting)
      else if cfg.maxRetry > s.count then
        s.(phase := Connecting, count := s.count + 1, updates := s.updates + 1)
      else Report(s, e.writeOk, GaveUp)
    case ReadOther => Report(s, e.writeOk, ReadFailed)
  }

  predicate Valid(s: State)
  {
    s.phase.Reading? ==> s.attempts != []
  }

  function Step(cfg: Config, s: State, e: Event): (t: State)
    requires Valid(s)
    ensures Valid(t)
  {
    match s.phase
    case Connecting => OnHandle(cfg, s, e)
    case Waiting => OnWait(cfg, s, e)
    case Reading => OnRead(cfg, s, e)
    case Done(_) => s
  }

  function Run(cfg: Config, s: State, events: seq<Event>): (t: State)
    requires Valid(s)
    ensures Valid(t)
    decreases |events|
  {
    if events == [] then s else Run(cfg, Step(cfg, s, events[0]), events[1..])
  }

  lemma {:induction false} RunDone(cfg: Config, s: State, events: seq<Event>)
    requires Valid(s) && s.phase.Done?
    ensures Run(cfg, s, events) == s
    decreases |events|
  {
    if events != [] {
      RunDone(cfg, s, events[1..]);
    }
  }

  lemma {:induction false} RunAppend(cfg: Config, s: State, a: seq<Event>, b: seq<Event>)
    requires Valid(s)
    ensures Run(cfg, s, a + b) == Run(cfg, Run(cfg, s, a), b)
    decreases |a|
  {
    if a == [] {
      assert a + b == b;
    } else {
      assert (a + b)[0] == a[0] && (a + b)[1..] == a[1..] + b;
      RunAppend(cfg, Step(cfg, s, a[0]), a[1..], b);
    }
  }

  // ---------------------------------------------------------------------------------
  // The program
  // ---------------------------------------------------------------------------------

  /** The retry counter of a service handler. */
  class ServiceHandler {
    var RetryCount: int
    const resets: bool

    constructor (resets: bool)
      ensures RetryCount == 0 && this.resets == resets
    {
      RetryCount, this.resets := 0, resets;
    }

    method UpdateRetryCount() returns (n: int)
      modifies this
      ensures n == RetryCount == old(RetryCount) + 1
    {
      RetryCount := RetryCount + 1;
      return RetryCount;
    }

    method GetRetryCount() returns (n: int)
      ensures n == RetryCount
    {
      return RetryCount;
    }

    method ResetRetryCount() returns (n: int)
      modifies this
      ensures n == RetryCount == 0
    {
      RetryCount := 0;
      return RetryCount;
    }

    /** Resets the counter as soon as the request has succeeded. */
    method Handle(result: HandleResult) returns (ok: bool)
      modifies this
      ensures ok <==> result.Connected?
      ensures RetryCount == if ok && resets then 0 else old(RetryCount)
    {
      ok := result.Connected?;
      if ok && resets {
        var _ := ResetRetryCount();
      }
    }
  }

  /** The state at a point where the handler waits for its environment. */
  function At(s: State, phase: Phase, count: int): State
  {
    s.(phase := phase, count := count)
  }

  /** The handler's loops, as far as the events go. */
  method HandleSpeech(cfg: Config, events: seq<Event>) returns (s: State)
    ensures s == Run(cfg, START, events)
  {
    hide Run;
    var h := new ServiceHandler(cfg.resets);
    s := START;
    var i := 0;
    while true
      invariant 0 <= i <= |events| && fresh(h) && h.resets == cfg.resets
      invariant Run(cfg, START, events) == Run(cfg, At(s, Connecting, h.RetryCount), events[i..])
      decreases |events| - i
    {
      s := At(s, Connecting, h.RetryCount);
      RunStep(cfg, s, events, i);
      if i == |events| {
        return;
      }
      var e := events[i];
      i := i + 1;
      s := s.(calls := s.calls + 1, attempts := s.attempts + [[]]);
      var ok := h.Handle(e.handle);
      if !ok {
        if e.handle.HandleEof? || e.handle.HandleCanceled? {
          return Finish(s, NoContent(200));
        }
        if e.handle.ServiceError? {
          if e.handle.retry {
            var n := h.GetRetryCount();
            if cfg.maxRetry > n {
              var _ := h.UpdateRetryCount();
              s := s.(updates := s.updates + 1);
              var interrupted := false;
              while true
                invariant 0 <= i <= |events|
                invariant Run(cfg, START, events) == Run(cfg, At(s, Waiting, h.RetryCount), events[i..])
                decreases |events| - i
              {
                RunStep(cfg, At(s, Waiting, h.RetryCount), events, i);
                if i == |events| {
                  return At(s, Waiting, h.RetryCount);
                }
                e := events[i];
                i := i + 1;
                if e.wait.TimerFires? {
                  break;
                }
                if e.wait.ChannelCloses? {
                  interrupted := true;
                  break;
                }
                s := s.(drained := s.drained + 1);
              }
              if interrupted {
                return Finish(At(s, Waiting, h.RetryCount), RetryInterrupted);
              }
              if !cfg.guardedClose {
                return Finish(At(s, Waiting, h.RetryCount), Panicked);
              }
              continue;
            }
          }
          var statusCode := e.handle.code;
          if statusCode < 100 || statusCode > 999 {
            statusCode := 500;
          }
          return Finish(s, NoContent(statusCode));
        }
        if e.handle.ConfError? {
          if !e.writeOk {
            return Finish(s, WriteFailed);
          }
          s := s.(sent := s.sent + [ErrorMessage]);
        }
        return Finish(s, InternalError);
      }
      s := s.(successes := s.successes + 1);

      while true
        invariant 0 <= i <= |events| && s.attempts != []
        invariant Run(cfg, START, events) == Run(cfg, At(s, Reading, h.RetryCount), events[i..])
        decreases |events| - i
      {
        RunStep(cfg, At(s, Reading, h.RetryCount), events, i);
        s := At(s, Reading, h.RetryCount);
        if i == |events| {
          return;
        }
        e := events[i];
        i := i + 1;
        match e.read {
          case ReadEof =>
            return Finish(s, NoContent(200));
          case ClientDisconnected =>
            return Finish(s, Disconnected);
          case ServerDisconnected =>
            if cfg.maxRetry < 1 {
              return Report(s, e.writeOk, NotReconnecting);
            }
            var n := h.GetRetryCount();
            if cfg.maxRetry > n {
              var _ := h.UpdateRetryCount();
              s := s.(updates := s.updates + 1);
              break;
            }
            return Report(s, e.writeOk, GaveUp);
          case ReadOther =>
            return Report(s, e.writeOk, ReadFailed);
          case Chunk(buf) =>
            s := s.(attempts := Extend(s.attempts, buf));
            if |buf| > 0 {
              if !e.writeOk {
                return Finish(s, WriteFailed);
              }
              s := s.(sent := s.sent + [Result(buf)]);
            }
        }
      }
    }
  }

  /** One event more, or none left. */
  lemma RunStep(cfg: Config, s: State, events: seq<Event>, i: nat)
    requires Valid(s) && i <= |events|
    ensures i == |events| ==> Run(cfg, s, events[i..]) == s
    ensures i < |events| ==>
      var t := Step(cfg, s, events[i]);
      && Run(cfg, s, events[i..]) == Run(cfg, t, events[i + 1..])
      && (t.phase.Done? ==> Run(cfg, s, events[i..]) == t)
  {
    if i < |events| {
      assert events[i..][0] == events[i] && events[i..][1..] == events[i + 1..];
      var t := Step(cfg, s, events[i]);
      if t.phase.Done? {
        RunDone(cfg, t, events[i + 1..]);
      }
    }
  }
}
