/** The loops of the small goroutines, each proved against the function that the pipeline uses for
    it, and the stages run one after the other. */
module Goroutines {
  import opened Bytes
  import opened Framing
  import opened Deframer
  import opened Opus
  import opened OggWriter
  import opened Opus2Ogg
  import opened Pipeline
  import opened PipelineRuns

  /** The list of options, built by appending. */
  method NewPacketReaderOptions(audioStreamingHeader: bool, disableSilentPacket: bool) returns (options: seq<Kind>)
    ensures options == Options(audioStreamingHeader, disableSilentPacket)
    ensures Header in options <==> audioStreamingHeader
    ensures Silent in options <==> !disableSilentPacket
    ensures |options| == (if audioStreamingHeader then 1 else 0) + (if disableSilentPacket then 0 else 1)
    ensures forall i, j ::
      0 <= i < |options| && 0 <= j < |options| && options[i] == Header && options[j] == Silent ==> i < j
  {
    options := [];
    if audioStreamingHeader {
      options := options + [Header];
    }
    if !disableSilentPacket {
      options := options + [Silent];
    }
  }

  /** The reader: one item for every read that brings data, and one for the first error. */
  method ReadPacket(cancellable: bool, script: seq<ReadResult>) returns (out: seq<Item>, cancelled: bool)
    ensures out <= ReaderOut(script)
    ensures !cancelled ==> out == ReaderOut(script)
    ensures cancelled ==> cancellable
  {
    out, cancelled := [], false;
    for i := 0 to |script|
      invariant NoReadError(script[..i]) && out == ReaderOut(script[..i])
    {
      assert script == script[..i] + script[i..] && script == script[..i + 1] + script[i + 1..];
      assert script[..i + 1] == script[..i] + [script[i]];
      ReaderOutGrows(script[..i], script[i..]);
      ReaderOutGrows(script[..i + 1], script[i + 1..]);
      ReaderOutSnoc(script[..i], script[i]);
      var taken := TakesDone(cancellable);
      if taken {
        return out, true;
      }
      var r := script[i];
      if r.err.Some? {
        taken := TakesDone(cancellable);
        if taken {
          return out, true;
        }
        assert script[..i + 1][i] == r;
        return out + [Failure(r.err.value)], false;
      }
      if |r.data| > 0 {
        taken := TakesDone(cancellable);
        if taken {
          return out, true;
        }
        out := out + [Packet(r.data, false)];
      }
    }
    assert script[..|script|] == script;
  }

  /** What the silent option emits when `ticks` tells, select by select, whether the timer wins;
      it stops when the input is used up. */
  function SilentRun(input: seq<Item>, ticks: seq<bool>): seq<Item>
    decreases |input| + |ticks|
  {
    if ticks != [] && ticks[0] then [Packet(SILENT_PACKET, true)] + SilentRun(input, ticks[1..])
    else if input == [] then []
    else [input[0]] + SilentRun(input[1..], if ticks == [] then [] else ticks[1..])
  }

  /** Its own packets aside, the silent option passes its input on unchanged. */
  lemma {:induction false} SilentRunErases(input: seq<Item>, ticks: seq<bool>)
    requires Unmarked(input)
    ensures Erase(SilentRun(input, ticks)) == input
    decreases |input| + |ticks|
  {
    if ticks != [] && ticks[0] {
      var rest := SilentRun(input, ticks[1..]);
      SilentRunErases(input, ticks[1..]);
      EraseAppend([Packet(SILENT_PACKET, true)], rest);
      EraseOne(Packet(SILENT_PACKET, true));
      assert [] + Erase(rest) == Erase(rest);
    } else if input != [] {
      var more := if ticks == [] then [] else ticks[1..];
      SilentRunErases(input[1..], more);
      EraseAppend([input[0]], SilentRun(input[1..], more));
      EraseOne(input[0]);
      assert input == [input[0]] + input[1..];
    }
  }

  predicate IsTick(x: Item)
  {
    x == Packet(SILENT_PACKET, true)
  }

  /** Which of the items came from the timer. */
  function Ticks(out: seq<Item>): seq<bool>
  {
    if out == [] then [] else [IsTick(out[0])] + Ticks(out[1..])
  }

  /** Every interleaving of the input with packets of the timer, at any places and in any number,
      is what the option emits for some choice of the selects. */
  lemma {:induction false} EveryInterleaving(out: seq<Item>)
    ensures SilentRun(Erase(out), Ticks(out)) == out
    decreases |out|
  {
    if out != [] {
      var rest := out[1..];
      EveryInterleaving(rest);
      assert Ticks(out)[0] == IsTick(out[0]) && Ticks(out)[1..] == Ticks(rest);
      if IsTick(out[0]) {
        assert Erase(out) == [] + Erase(rest) == Erase(rest);
      } else {
        assert Erase(out) == [out[0]] + Erase(rest);
        assert Erase(out)[1..] == Erase(rest);
      }
      assert out == [out[0]] + rest;
    }
  }

  method SilentPackets(cancellable: bool, input: seq<Item>, ticks: seq<bool>) returns (out: seq<Item>, cancelled: bool)
    ensures out <= SilentRun(input, ticks)
    ensures !cancelled ==> out == SilentRun(input, ticks)
    ensures cancelled ==> cancellable
  {
    out, cancelled := [], false;
    var i, t := 0, 0;
    while true
      invariant 0 <= i <= |input| && 0 <= t <= |ticks|
      invariant SilentRun(input, ticks) == out + SilentRun(input[i..], ticks[t..])
      decreases |input| - i, |ticks| - t
    {
      ghost var rest := SilentRun(input[i..], ticks[t..]);
      var packet;
      if t < |ticks| && ticks[t] {
        packet := Packet(SILENT_PACKET, true);
        t := t + 1;
      } else {
        if i == |input| {
          assert rest == [];
          return out, false;
        }
        packet := input[i];
        i := i + 1;
        t := if t < |ticks| then t + 1 else t;
      }
      assert rest == [packet] + SilentRun(input[i..], ticks[t..]);
      var taken := TakesDone(cancellable);
      if taken {
        return out, true;
      }
      SeqAssociative(out, [packet], SilentRun(input[i..], ticks[t..]));
      out := out + [packet];
    }
  }

  /** What waiting for the first audio data comes to. */
  datatype FirstAudio = Audio(data: seq<Byte>) | NoAudio(err: Err) | StillWaiting

  /** Read k is the first one that brings data or an error, and this is what it brings. */
  predicate Decides(body: seq<ReadResult>, k: nat, r: FirstAudio)
  {
    && k < |body| && (forall j :: 0 <= j < k ==> body[j] == ReadResult([], None))
    && match r {
      case Audio(data) => data != [] && body[k] == ReadResult(data, None)
      case NoAudio(e) => body[k].err == Some(e)
      case StillWaiting => false
    }
  }

  /** Empty reads are skipped; the first one that is not, or the first error, decides. `used`
      reads have been made. */
  method ReceiveFirstAudioData(body: seq<ReadResult>) returns (r: FirstAudio, used: nat)
    ensures r.StillWaiting? <==> forall k :: 0 <= k < |body| ==> body[k] == ReadResult([], None)
    ensures !r.StillWaiting? ==> used > 0 && Decides(body, used - 1, r)
  {
    for k := 0 to |body|
      invariant forall j :: 0 <= j < k ==> body[j] == ReadResult([], None)
    {
      if body[k].err.Some? {
        return NoAudio(body[k].err.value), k + 1;
      }
      if |body[k].data| > 0 {
        return Audio(body[k].data), k + 1;
      }
    }
    return StillWaiting, |body|;
  }

  /** The values a receiver finds in what the header option has sent. */
  method ReadAll(out: seq<Sent>, ghost sent: seq<Item>) returns (items: seq<Item>)
    requires Shows(out, sent)
    ensures items == sent
  {
    items := [];
    for k := 0 to |out|
      invariant items == sent[..k]
    {
      match out[k] {
        case Data(s) => items := items + [Packet(s.arr[s.off..s.off + s.len], false)];
        case Fault(e) => items := items + [Failure(e)];
      }
      assert sent[..k + 1] == sent[..k] + [sent[k]];
    }
  }

  /** The stages run one after the other, each to its end, give what every schedule of the
      concurrent pipeline gives (see PipelineRuns.RunToEnd); the Ogg file, if one is kept, ends as
      the closed form of the same stream. */
  method RunInSequence(script: seq<ReadResult>, fileOutput: bool, sampleRate: U32, channelCount: nat, serial: U32)
    returns (pipe: File, file: File?, end: End)
    ensures file != null <==> fileOutput
    ensures var k := ChannelClosed(ConsumeAll(FRESH_SINK, Reference(true, script)));
      && end == k.end && pipe.data == SinkBytes(k, serial, sampleRate, channelCount)
      && (file != null && !end.Crashed? ==> file.data == FileAfter(k, serial, sampleRate, channelCount))
  {
    hide SinkBytes, Deframed, ReaderOut, FileAfter;
    var items, _ := ReadPacket(false, script);
    var out, sent, _ := ReadPacketWithHeader(false, items);
    var frames := ReadAll(out, sent);
    ghost var n;
    pipe, file, end, n := Run(false, true, true, fileOutput, frames, sampleRate, channelCount, serial);
  }
}
