/** The start of a transcription: the first audio data, then the connection, then the rest of
    the Ogg stream. */
module Transcribe {
  import opened Bytes
  import opened Framing
  import opened Pipeline
  import opened PipelineRuns
  import opened Goroutines
  import opened Speech

  /** The service's answer to the request for a stream. */
  datatype Answer = StreamOpened | HttpError(code: int) | OperationError | AnyError(err: Err)

  /** How the start ends. */
  datatype Started =
    | Streaming
    | NoFirstAudio(err: Err)
    | AwaitsAudio
    | Rejected(why: HandleResult)
    | SendFailed(err: Err)

  /** What the request handler makes of an error that is passed on as it is. */
  function ErrorResult(err: Err): (r: HandleResult)
    ensures r.HandleEof? <==> err.Eof?
    ensures r.HandleCanceled? <==> err.Canceled?
    ensures !r.Connected? && !r.ServiceError? && !r.ConfError?
  {
    match err
    case Eof => HandleEof
    case Canceled => HandleCanceled
    case _ => OtherError
  }

  /** What a rejected request is for the request handler; only code 429 may be tried again. */
  function Rejection(answer: Answer): (why: HandleResult)
    requires !answer.StreamOpened?
    ensures why.ServiceError? <==> answer.HttpError?
    ensures why.ServiceError? ==> why.code == answer.code && (why.retry <==> answer.code == 429)
    ensures why.ConfError? <==> answer.OperationError?
    ensures answer.AnyError? ==> why == ErrorResult(answer.err)
  {
    match answer
    case HttpError(code) => ServiceError(code, code == 429)
    case OperationError => ConfError
    case AnyError(e) => ErrorResult(e)
  }

  lemma {:induction false} BodyBytesAppend(a: seq<ReadResult>, b: seq<ReadResult>)
    ensures BodyBytes(a + b) == BodyBytes(a) + if NoReadError(a) then BodyBytes(b) else []
  {
    if a == [] {
      assert a + b == b;
    } else {
      assert (a + b)[0] == a[0] && (a + b)[1..] == a[1..] + b;
      BodyBytesAppend(a[1..], b);
      assert NoReadError(a) <==> a[0].err.None? && NoReadError(a[1..]);
      hide NoReadError;
      if a[0].err.None? {
        SeqAssociative(a[0].data, BodyBytes(a[1..]), if NoReadError(a) then BodyBytes(b) else []);
      }
    }
  }

  lemma BodyBytesOne(r: ReadResult)
    ensures BodyBytes([r]) == if r.err.Some? then [] else r.data
  {
    assert [r][1..] == [];
  }

  lemma Cut(results: seq<ReadResult>, k: nat)
    requires k <= |results|
    ensures BodyBytes(results[..k]) <= BodyBytes(results)
  {
    assert results == results[..k] + results[k..];
    BodyBytesAppend(results[..k], results[k..]);
  }

  /** One read after others without error. */
  lemma NextRead(results: seq<ReadResult>, k: nat)
    requires k < |results| && NoReadError(results[..k])
    ensures BodyBytes(results[..k + 1])
         == BodyBytes(results[..k]) + if results[k].err.Some? then [] else results[k].data
    ensures results[k].err.None? ==> NoReadError(results[..k + 1])
    ensures results[k].err.Some? ==> BodyBytes(results) == BodyBytes(results[..k])
  {
    hide BodyBytes;
    var before, r := results[..k], results[k];
    assert results[..k + 1] == before + [r];
    BodyBytesAppend(before, [r]);
    BodyBytesOne(r);
    if r.err.Some? {
      assert results == results[..k + 1] + results[k + 1..];
      assert results[..k + 1][k] == r;
      BodyBytesAppend(results[..k + 1], results[k + 1..]);
      assert BodyBytes(before) + [] == BodyBytes(before);
      assert BodyBytes(results[..k + 1]) + [] == BodyBytes(results[..k + 1]);
    }
  }

  lemma {:induction false} EmptyReads(results: seq<ReadResult>)
    requires forall k :: 0 <= k < |results| ==> results[k] == ReadResult([], None)
    ensures NoReadError(results) && BodyBytes(results) == []
  {
    if results != [] {
      EmptyReads(results[1..]);
    }
  }

  lemma EmptyStart(results: seq<ReadResult>, k: nat)
    requires k <= |results| && forall j :: 0 <= j < k ==> results[j] == ReadResult([], None)
    ensures NoReadError(results[..k]) && BodyBytes(results[..k]) == []
  {
    assert forall j :: 0 <= j < k ==> results[..k][j] == results[j];
    EmptyReads(results[..k]);
  }

  /** The reads up to the first that is not empty, or the first error. */
  lemma FirstAudioBytes(results: seq<ReadResult>, r: FirstAudio, used: nat)
    requires used > 0 && Decides(results, used - 1, r)
    ensures r.Audio? ==>
      && used <= |results| && NoReadError(results[..used])
      && BodyBytes(results[..used]) == r.data && r.data <= BodyBytes(results)
    ensures r.NoAudio? ==> BodyBytes(results) == []
  {
    hide BodyBytes, NoReadError;
    var k := used - 1;
    EmptyStart(results, k);
    NextRead(results, k);
    if r.Audio? {
      assert [] + r.data == r.data;
      Cut(results, used);
    }
  }

  /** A send to the service: the error it fails with, if it does. */
  method Send(reliable: bool) returns (failure: Option<Err>)
    ensures reliable ==> failure.None?
  {
    failure := *;
    if reliable {
      failure := None;
    }
  }

  /** Reads the pipe until there is audio, only then asks for a stream, and forwards all that the
      pipe delivers: what the service has received is always a prefix of the bytes of the pipe,
      cut into non-empty pieces, and is all of them unless a send fails or the context is done. */
  method Start(cancellable: bool, reliable: bool, results: seq<ReadResult>, answer: Answer)
    returns (started: Started, asked: bool, sent: seq<seq<Byte>>)
    ensures asked <==> BodyBytes(results) != []
    ensures asked <==> !started.NoFirstAudio? && !started.AwaitsAudio?
    ensures started.NoFirstAudio? ==> exists k :: Decides(results, k, NoAudio(started.err))
    ensures started.Rejected? <==> asked && !answer.StreamOpened?
    ensures started.Rejected? ==> started.why == Rejection(answer)
    ensures sent != [] <==> started.Streaming?
    ensures started.SendFailed? ==> !reliable
    ensures forall k :: 0 <= k < |sent| ==> sent[k] != []
    ensures Concat(sent) <= BodyBytes(results)
    ensures started.Streaming? && !cancellable && reliable ==> Concat(sent) == BodyBytes(results)
  {
    hide BodyBytes, Concat, Decides;
    asked, sent := false, [];
    assert Concat([]) == [] by {
      EmptyConcat();
    }
    var first, k := ReceiveFirstAudioData(results);
    if first.StillWaiting? {
      EmptyReads(results);
      return AwaitsAudio, asked, sent;
    }
    FirstAudioBytes(results, first, k);
    if first.NoAudio? {
      return NoFirstAudio(first.err), asked, sent;
    }
    asked := true;
    AudioIsThere(results, first, k);
    if !answer.StreamOpened? {
      return Rejected(Rejection(answer)), asked, sent;
    }
    var failure := Send(reliable);
    if failure.Some? {
      return SendFailed(failure.value), asked, sent;
    }
    ConcatSnoc(sent, first.data);
    sent := sent + [first.data];
    started := Streaming;

    while k < |results|
      invariant 0 <= k <= |results| && NoReadError(results[..k])
      invariant sent != [] && Concat(sent) == BodyBytes(results[..k])
      invariant Concat(sent) <= BodyBytes(results)
      invariant forall j :: 0 <= j < |sent| ==> sent[j] != []
    {
      var taken := TakesDone(cancellable);
      if taken {
        return;
      }
      NextRead(results, k);
      Cut(results, k + 1);
      if results[k].err.Some? {
        return;
      }
      if |results[k].data| > 0 {
        failure := Send(reliable);
        if failure.Some? {
          return;
        }
        ConcatSnoc(sent, results[k].data);
        sent := sent + [results[k].data];
      }
      k := k + 1;
    }
    assert results[..k] == results;
  }

  /** One attempt: the handler's counter is reset exactly when a stream has been opened and has
      taken the first audio data. An attempt without audio asks for no stream, and one that finds
      its input at the end reports just that. None if the attempt still waits for audio. */
  method Handle(h: ServiceHandler, cancellable: bool, reliable: bool, results: seq<ReadResult>, answer: Answer)
    returns (result: Option<HandleResult>, asked: bool, sent: seq<seq<Byte>>)
    modifies h
    ensures asked <==> BodyBytes(results) != []
    ensures h.RetryCount == if result == Some(Connected) && h.resets then 0 else old(h.RetryCount)
    ensures !asked ==> sent == []
    ensures !asked && result.Some? ==>
      exists e, k :: result == Some(ErrorResult(e)) && Decides(results, k, NoAudio(e))
    ensures asked && !answer.StreamOpened? ==> result == Some(Rejection(answer)) && sent == []
    ensures asked && answer.StreamOpened? ==>
      result == Some(Connected) || (!reliable && exists e :: result == Some(ErrorResult(e)))
    ensures Concat(sent) <= BodyBytes(results)
    ensures result == Some(Connected) && !cancellable && reliable ==> Concat(sent) == BodyBytes(results)
  {
    hide BodyBytes, Concat, Decides;
    var started;
    started, asked, sent := Start(cancellable, reliable, results, answer);
    match started {
      case AwaitsAudio =>
        return None, asked, sent;
      case NoFirstAudio(e) =>
        result := Some(ErrorResult(e));
      case Rejected(why) =>
        result := Some(why);
      case SendFailed(e) =>
        result := Some(ErrorResult(e));
      case Streaming =>
        result := Some(Connected);
    }
    var _ := h.Handle(result.value);
  }

  lemma EmptyConcat()
    ensures Concat([]) == []
  {
  }

  lemma AudioIsThere(results: seq<ReadResult>, r: FirstAudio, used: nat)
    requires used > 0 && Decides(results, used - 1, r) && r.Audio?
    requires r.data <= BodyBytes(results)
    ensures r.data != [] && BodyBytes(results) != []
  {
  }
}
