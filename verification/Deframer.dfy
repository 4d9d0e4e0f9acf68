/** The header option: reassembles frames from arbitrarily cut chunks, on slices that share
    backing arrays. */
module Deframer {
  import opened Bytes
  import opened Framing

  // ---------------------------------------------------------------------------------
  // One chunk at a time
  // ---------------------------------------------------------------------------------

  /** What one received item makes the option emit, the bytes it keeps, and whether it stops. */
  datatype Fed = Fed(out: seq<Item>, residual: seq<Byte>, stopped: bool)

  function Feed(residual: seq<Byte>, x: Item): Fed
  {
    match x
    case Failure(e) => Fed([Failure(e)], residual, true)
    case Packet(chunk, _) =>
      var p := ParseFrames(residual + chunk);
      match p.tail
      case Incomplete(rest) => Fed(Packets(p.bodies), rest, false)
      case TooLarge(n) => Fed(Packets(p.bodies) + Ending(p.tail, None), residual, true)
  }

  /** The input so far leaves the option running, with these bytes in its buffer. */
  predicate Holding(input: seq<Item>, residual: seq<Byte>)
  {
    NoFailure(input) && ParseFrames(DataOf(input)).tail == Incomplete(residual)
  }

  lemma HoldingNothing()
    ensures Holding([], []) && Deframed([]) == []
  {
    assert ParseFrames([]) == Parse([], Incomplete([]));
  }

  /** While the option runs, no byte is lost: the input is the frames emitted, followed by the
      buffer, which is an incomplete frame. */
  lemma Buffered(input: seq<Item>, residual: seq<Byte>) returns (frames: seq<Frame>)
    requires Holding(input, residual)
    ensures AllValid(frames) && DataOf(input) == WireAll(frames) + residual
    ensures Deframed(input) == Packets(Bodies(frames))
    ensures |residual| < HEADER_LENGTH + MAX_PAYLOAD_LENGTH && !HasFrame(residual) && !Oversized(residual)
  {
    var rest;
    frames, rest := ParseSound(DataOf(input));
    DataOfSnoc(input, Packet([], false));
    assert Packets(Bodies(frames)) + [] == Packets(Bodies(frames));
  }

  /** Feeding chunk by chunk emits exactly what the one-shot parse of the whole input adds. */
  lemma FeedRefinesOneShot(input: seq<Item>, residual: seq<Byte>, x: Item)
    requires Holding(input, residual)
    ensures var f := Feed(residual, x);
      && Deframed(input + [x]) == Deframed(input) + f.out
      && (!f.stopped ==> Holding(input + [x], f.residual))
  {
    DataOfSnoc(input, x);
    var p := ParseFrames(DataOf(input));
    assert Deframed(input) == Packets(p.bodies) + [];
    assert Packets(p.bodies) + [] == Packets(p.bodies);
    if x.Packet? {
      ParseExtends(DataOf(input), x.payload);
      var q := ParseFrames(residual + x.payload);
      PacketsAppend(p.bodies, q.bodies);
      SeqAssociative(Packets(p.bodies), Packets(q.bodies), Ending(q.tail, None));
      assert Packets(q.bodies) + [] == Packets(q.bodies);
    } else {
      assert DataOf(input) + [] == DataOf(input);
    }
  }

  /** After the option stops, more input changes nothing. */
  lemma {:induction false} StoppedForGood(input: seq<Item>, more: seq<Item>)
    requires !NoFailure(input) || ParseFrames(DataOf(input)).tail.TooLarge?
    ensures Deframed(input + more) == Deframed(input)
  {
    DataOfStopped(input, more);
    if NoFailure(input) {
      var k := DataOfExtends(input, more);
      ParseExtends(DataOf(input), k);
    }
  }

  /** An error in the input is passed on, and is the last thing emitted. */
  lemma FailureEnds(input: seq<Item>, residual: seq<Byte>, x: Item, more: seq<Item>)
    requires Holding(input, residual) && x.Failure?
    ensures Deframed(input + [x] + more) == Deframed(input) + [Failure(x.err)]
  {
    FeedRefinesOneShot(input, residual, x);
    assert (input + [x])[|input|] == x;
    StoppedForGood(input + [x], more);
  }

  lemma {:induction false} DataOfStopped(input: seq<Item>, more: seq<Item>)
    ensures !NoFailure(input) ==>
      DataOf(input + more) == DataOf(input) && FirstError(input + more) == FirstError(input)
  {
    if input != [] {
      assert (input + more)[0] == input[0] && (input + more)[1..] == input[1..] + more;
      DataOfStopped(input[1..], more);
    }
  }

  lemma {:induction false} DataOfExtends(input: seq<Item>, more: seq<Item>) returns (d: seq<Byte>)
    requires NoFailure(input)
    ensures DataOf(input + more) == DataOf(input) + d
  {
    if input == [] {
      assert input + more == more;
      d := DataOf(more);
    } else {
      assert (input + more)[0] == input[0] && (input + more)[1..] == input[1..] + more;
      d := DataOfExtends(input[1..], more);
      SeqAssociative(input[0].payload, DataOf(input[1..]), d);
    }
  }

  /** More input never takes anything back. */
  lemma {:induction false} DeframedGrows(input: seq<Item>, more: seq<Item>)
    ensures Deframed(input) <= Deframed(input + more)
    decreases |more|
  {
    hide ParseFrames, Deframed, Feed, DataOf;
    if more == [] {
      assert input + more == input;
    } else if NoFailure(input) && ParseFrames(DataOf(input)).tail.Incomplete? {
      var residual := ParseFrames(DataOf(input)).tail.rest;
      FeedRefinesOneShot(input, residual, more[0]);
      DeframedGrows(input + [more[0]], more[1..]);
      assert input + [more[0]] + more[1..] == input + more;
    } else {
      StoppedForGood(input, more);
    }
  }

  lemma NextItem(input: seq<Item>, n: nat)
    requires n < |input|
    ensures input[..n + 1] == input[..n] + [input[n]]
    ensures input == input[..n] + [input[n]] + input[n + 1..]
    ensures Deframed(input[..n]) <= Deframed(input)
    ensures Deframed(input[..n] + [input[n]]) <= Deframed(input)
  {
    hide Deframed;
    assert input == input[..n] + input[n..];
    DeframedGrows(input[..n], input[n..]);
    DeframedGrows(input[..n] + [input[n]], input[n + 1..]);
  }

  // ---------------------------------------------------------------------------------
  // Inside one chunk: `bodies` are the frames found so far, `rest` what follows them
  // ---------------------------------------------------------------------------------

  predicate Within(buffered: seq<Byte>, bodies: seq<seq<Byte>>, rest: seq<Byte>)
  {
    ParseFrames(buffered) == Then(bodies, ParseFrames(rest))
  }

  lemma WithinStart(buffered: seq<Byte>)
    ensures Within(buffered, [], buffered)
  {
    ThenNothing(ParseFrames(buffered));
  }

  lemma WithinFrame(buffered: seq<Byte>, bodies: seq<seq<Byte>>, rest: seq<Byte>)
    requires Within(buffered, bodies, rest) && HasFrame(rest)
    ensures var n := HEADER_LENGTH + LengthField(rest);
      Within(buffered, bodies + [rest[HEADER_LENGTH..n]], rest[n..])
  {
    var n := HEADER_LENGTH + LengthField(rest);
    ThenTwice(bodies, [rest[HEADER_LENGTH..n]], ParseFrames(rest[n..]));
  }

  /** Sending a frame extends what has been sent by exactly that frame. */
  lemma FrameSent(input: seq<Item>, buffered: seq<Byte>, bodies: seq<seq<Byte>>, rest: seq<Byte>, sent: seq<Item>)
    requires Within(buffered, bodies, rest) && HasFrame(rest)
    requires sent == Deframed(input) + Packets(bodies)
    ensures var n := HEADER_LENGTH + LengthField(rest); var body := rest[HEADER_LENGTH..n];
      && Within(buffered, bodies + [body], rest[n..])
      && sent + [Packet(body, false)] == Deframed(input) + Packets(bodies + [body])
  {
    var body := rest[HEADER_LENGTH..HEADER_LENGTH + LengthField(rest)];
    WithinFrame(buffered, bodies, rest);
    PacketsAppend(bodies, [body]);
    assert Packets([body]) == [Packet(body, false)];
    SeqAssociative(Deframed(input), Packets(bodies), [Packet(body, false)]);
  }

  /** No further frame: the chunk is done. */
  lemma ChunkDone(input: seq<Item>, residual: seq<Byte>, x: Item, bodies: seq<seq<Byte>>, rest: seq<Byte>)
    requires Holding(input, residual) && x.Packet? && Within(residual + x.payload, bodies, rest)
    requires !HasFrame(rest) && !Oversized(rest)
    ensures Holding(input + [x], rest)
    ensures Deframed(input + [x]) == Deframed(input) + Packets(bodies)
  {
    FeedRefinesOneShot(input, residual, x);
    assert bodies + [] == bodies;
  }

  /** A header that announces too much: the option stops with an error. */
  lemma ChunkTooLarge(input: seq<Item>, residual: seq<Byte>, x: Item, bodies: seq<seq<Byte>>, rest: seq<Byte>)
    requires Holding(input, residual) && x.Packet? && Within(residual + x.payload, bodies, rest)
    requires Oversized(rest)
    ensures Deframed(input + [x])
         == Deframed(input) + Packets(bodies) + [Failure(PayloadTooLarge(LengthField(rest)))]
    ensures NoFailure(input + [x]) && ParseFrames(DataOf(input + [x])).tail.TooLarge?
  {
    FeedRefinesOneShot(input, residual, x);
    assert bodies + [] == bodies;
    DataOfSnoc(input, x);
    ParseExtends(DataOf(input), x.payload);
    SeqAssociative(Deframed(input), Packets(bodies), [Failure(PayloadTooLarge(LengthField(rest)))]);
  }

  lemma ChunkPartial(input: seq<Item>, residual: seq<Byte>, x: Item, bodies: seq<seq<Byte>>, rest: seq<Byte>)
    requires Holding(input, residual) && x.Packet? && Within(residual + x.payload, bodies, rest)
    ensures Deframed(input) + Packets(bodies) <= Deframed(input + [x])
  {
    FeedRefinesOneShot(input, residual, x);
    var q := ParseFrames(rest);
    PacketsAppend(bodies, q.bodies);
    var out := Feed(residual, x).out;
    assert out[..|bodies|] == Packets(bodies);
    assert Deframed(input + [x])[..|Deframed(input)| + |bodies|] == Deframed(input) + Packets(bodies);
  }

  // ---------------------------------------------------------------------------------
  // Slices
  // ---------------------------------------------------------------------------------

  /** A Go slice: a window of a backing array. Its capacity reaches to the end of the array. */
  datatype Slice = Slice(arr: array<Byte>, off: nat, len: nat) {
    ghost predicate Valid() {
      off + len <= arr.Length
    }

    ghost function Contents(): (s: seq<Byte>)
      requires Valid()
      reads arr
      ensures |s| == len
    {
      arr[off..off + len]
    }

    /** The slice from `n` on. */
    function From(n: nat): Slice
      requires n <= len
    {
      Slice(arr, off + n, len - n)
    }

    /** The slice up to `n`. */
    function To(n: nat): Slice
      requires n <= len
    {
      Slice(arr, off, n)
    }

  }

  /** `binary.BigEndian.Uint32(h[16:HeaderLength])` of the header at the head of the buffer. */
  method ReadLength(buffer: Slice) returns (n: nat)
    requires buffer.Valid() && buffer.len >= HEADER_LENGTH
    ensures n == LengthField(buffer.Contents())
  {
    var h := buffer.To(HEADER_LENGTH);
    assert buffer.Contents()[16..HEADER_LENGTH] == buffer.arr[h.off + 16..h.off + HEADER_LENGTH];
    n := FromBigEndian(h.arr[h.off + 16..h.off + HEADER_LENGTH]);
  }

  /** Go's append: extends in place when the capacity allows it, and otherwise moves to a new
      array of any sufficient size. */
  method Append(s: Slice, chunk: seq<Byte>) returns (t: Slice)
    requires s.Valid()
    modifies s.arr
    ensures t.Valid() && t.Contents() == old(s.Contents()) + chunk
    ensures (t.arr == s.arr && t.off == s.off) || fresh(t.arr)
    ensures forall k :: 0 <= k < s.off + s.len ==> s.arr[k] == old(s.arr[k])
  {
    var need := s.len + |chunk|;
    if s.off + need <= s.arr.Length {
      Copy(s.arr, s.off + s.len, chunk);
      t := Slice(s.arr, s.off, need);
      assert t.Contents() == s.arr[s.off..s.off + s.len] + s.arr[s.off + s.len..s.off + need];
    } else {
      var capacity: nat :| need <= capacity;
      var arr := new Byte[capacity](_ => 0);
      Copy(arr, 0, s.arr[s.off..s.off + s.len]);
      Copy(arr, s.len, chunk);
      t := Slice(arr, 0, need);
      assert arr[..s.len] == s.Contents();
      assert t.Contents() == arr[..s.len] + arr[s.len..need];
    }
  }

  // ---------------------------------------------------------------------------------
  // The loop
  // ---------------------------------------------------------------------------------

  /** What goes into the output channel: a slice of a backing array, or an error. */
  datatype Sent = Data(slice: Slice) | Fault(err: Err)

  ghost function Arrays(out: seq<Sent>): set<array<Byte>>
  {
    set k | 0 <= k < |out| && out[k].Data? :: out[k].slice.arr
  }

  /** The receiver, whenever it looks, finds in `out` the values `items`. */
  ghost predicate Shows(out: seq<Sent>, items: seq<Item>)
    reads Arrays(out)
  {
    && |out| == |items|
    && forall k :: 0 <= k < |out| ==>
      match out[k] {
        case Data(s) => s.arr in Arrays(out) && s.Valid() && items[k] == Packet(s.Contents(), false)
        case Fault(e) => items[k] == Failure(e)
      }
  }

  /** Slices already sent end before the buffer starts, if they share its array. */
  ghost predicate Apart(out: seq<Sent>, buffer: Slice)
  {
    forall k :: 0 <= k < |out| && out[k].Data? && out[k].slice.arr == buffer.arr ==>
      out[k].slice.off + out[k].slice.len <= buffer.off
  }

  /** Sending the first `n` bytes of the buffer behind its header, and moving on. */
  lemma SendKeeps(out: seq<Sent>, items: seq<Item>, buffer: Slice, n: nat)
    requires Shows(out, items) && buffer.Valid() && Apart(out, buffer) && HEADER_LENGTH + n <= buffer.len
    ensures var frame := buffer.From(HEADER_LENGTH).To(n); var rest := buffer.From(HEADER_LENGTH + n);
      var c := buffer.Contents();
      && Shows(out + [Data(frame)], items + [Packet(c[HEADER_LENGTH..HEADER_LENGTH + n], false)])
      && Apart(out + [Data(frame)], rest)
      && Arrays(out + [Data(frame)]) == Arrays(out) + {buffer.arr}
      && rest.Valid() && rest.Contents() == c[HEADER_LENGTH + n..]
  {
    var frame := buffer.From(HEADER_LENGTH).To(n);
    var all := out + [Data(frame)];
    WindowContents(buffer, n);
    ArraysSnoc(out, Data(frame));
    assert all[|out|] == Data(frame);
    assert forall k :: 0 <= k < |out| ==> all[k] == out[k];
  }

  lemma WindowContents(buffer: Slice, n: nat)
    requires buffer.Valid() && HEADER_LENGTH + n <= buffer.len
    ensures var frame := buffer.From(HEADER_LENGTH).To(n); var rest := buffer.From(HEADER_LENGTH + n);
      var c := buffer.Contents();
      && frame.Valid() && frame.Contents() == c[HEADER_LENGTH..HEADER_LENGTH + n]
      && rest.Valid() && rest.Contents() == c[HEADER_LENGTH + n..]
  {
  }

  lemma ArraysSnoc(out: seq<Sent>, x: Sent)
    ensures Arrays(out + [x]) == Arrays(out) + if x.Data? then {x.slice.arr} else {}
  {
    var all := out + [x];
    forall a | a in Arrays(out) ensures a in Arrays(all) {
      var k :| 0 <= k < |out| && out[k].Data? && out[k].slice.arr == a;
      assert all[k] == out[k];
    }
    assert all[|out|] == x;
  }

  lemma FaultKeeps(out: seq<Sent>, items: seq<Item>, buffer: Slice, e: Err)
    requires Shows(out, items) && Apart(out, buffer)
    ensures Shows(out + [Fault(e)], items + [Failure(e)]) && Apart(out + [Fault(e)], buffer)
    ensures Arrays(out + [Fault(e)]) == Arrays(out)
  {
    var all := out + [Fault(e)];
    ArraysSnoc(out, Fault(e));
    assert all[|out|] == Fault(e);
    assert forall k :: 0 <= k < |out| ==> all[k] == out[k];
  }

  /** An append leaves every slice already sent as it is. */
  method AppendApart(out: seq<Sent>, ghost items: seq<Item>, buffer: Slice, chunk: seq<Byte>) returns (t: Slice)
    requires Shows(out, items) && buffer.Valid() && Apart(out, buffer)
    modifies buffer.arr
    ensures t.Valid() && t.Contents() == old(buffer.Contents()) + chunk
    ensures t.arr == buffer.arr || fresh(t.arr)
    ensures Shows(out, items) && Apart(out, t)
  {
    ghost var before := Arrays(out);
    t := Append(buffer, chunk);
    forall k | 0 <= k < |out| && out[k].Data?
      ensures out[k].slice.Valid() && out[k].slice.Contents() == old(out[k].slice.Contents())
      ensures out[k].slice.arr == t.arr ==> out[k].slice.off + out[k].slice.len <= t.off
    {
      assert out[k].slice.arr in before;
    }
  }

  /** How the work on one chunk ends: wait for more input, or return after an error or because
      the context is done. */
  datatype Status = More | Stopped | Cancelled

  /** Where the work on chunk `x` may leave the option. */
  ghost predicate Outcome(seen: seq<Item>, x: Item, status: Status, payload: Slice, out: seq<Sent>, sent: seq<Item>)
    reads {payload.arr} + Arrays(out)
  {
    && payload.Valid() && Apart(out, payload) && Shows(out, sent)
    && match status {
      case More => Holding(seen + [x], payload.Contents()) && sent == Deframed(seen + [x])
      case Stopped =>
        && NoFailure(seen + [x]) && ParseFrames(DataOf(seen + [x])).tail.TooLarge?
        && sent == Deframed(seen + [x])
      case Cancelled => sent <= Deframed(seen + [x])
    }
  }

  /** The inner loop: the frames that follow the first one in the buffer. */
  method NextFrames(cancellable: bool, payload0: Slice, length0: nat, out0: seq<Sent>, ghost sent0: seq<Item>,
                    ghost seen: seq<Item>, ghost residual: seq<Byte>, ghost x: Item, ghost bodies0: seq<seq<Byte>>)
    returns (status: Status, payload: Slice, length: nat, out: seq<Sent>, ghost sent: seq<Item>)
    requires payload0.Valid() && length0 == payload0.len && Apart(out0, payload0) && Shows(out0, sent0)
    requires Holding(seen, residual) && x.Packet?
    requires Within(residual + x.payload, bodies0, payload0.Contents())
    requires sent0 == Deframed(seen) + Packets(bodies0)
    ensures payload.arr == payload0.arr && Arrays(out) <= Arrays(out0) + {payload0.arr}
    ensures length == payload.len && (status == Cancelled ==> cancellable)
    ensures Outcome(seen, x, status, payload, out, sent)
  {
    hide ParseFrames, Deframed, LengthField, Within, Holding, DataOf, Shows, Apart;
    payload, length, out, sent := payload0, length0, out0, sent0;
    ghost var bodies := bodies0;
    ghost var buffered := residual + x.payload;
    while true
      invariant payload.arr == payload0.arr && Arrays(out) <= Arrays(out0) + {payload0.arr}
      invariant payload.Valid() && Apart(out, payload) && Shows(out, sent)
      invariant length == payload.len
      invariant Within(buffered, bodies, payload.Contents())
      invariant sent == Deframed(seen) + Packets(bodies)
      decreases length
    {
      ChunkPartial(seen, residual, x, bodies, payload.Contents());
      if length < HEADER_LENGTH {
        break;
      }
      var payloadLength := ReadLength(payload);
      if payloadLength > MAX_PAYLOAD_LENGTH {
        var taken := TakesDone(cancellable);
        if taken {
          return Cancelled, payload, length, out, sent;
        }
        ChunkTooLarge(seen, residual, x, bodies, payload.Contents());
        FaultKeeps(out, sent, payload, PayloadTooLarge(payloadLength));
        out, sent := out + [Fault(PayloadTooLarge(payloadLength))], sent + [Failure(PayloadTooLarge(payloadLength))];
        return Stopped, payload, length, out, sent;
      }
      if length < HEADER_LENGTH + payloadLength {
        break;
      }
      var taken := TakesDone(cancellable);
      if taken {
        return Cancelled, payload, length, out, sent;
      }
      FrameSent(seen, buffered, bodies, payload.Contents(), sent);
      SendKeeps(out, sent, payload, payloadLength);
      ghost var body := payload.Contents()[HEADER_LENGTH..HEADER_LENGTH + payloadLength];
      out, sent := out + [Data(payload.From(HEADER_LENGTH).To(payloadLength))], sent + [Packet(body, false)];
      bodies := bodies + [body];
      payload := payload.From(HEADER_LENGTH + payloadLength);
      length := payload.len;
    }
    ChunkDone(seen, residual, x, bodies, payload.Contents());
    status := More;
  }

  /** The first pass over a buffer that a chunk has just been appended to. */
  method FirstFrame(cancellable: bool, payload0: Slice, length0: nat, out0: seq<Sent>, ghost sent0: seq<Item>,
                    ghost seen: seq<Item>, ghost residual: seq<Byte>, ghost x: Item)
    returns (status: Status, payload: Slice, length: nat, out: seq<Sent>, ghost sent: seq<Item>)
    requires payload0.Valid() && length0 == payload0.len && Apart(out0, payload0) && Shows(out0, sent0)
    requires Holding(seen, residual) && x.Packet?
    requires payload0.Contents() == residual + x.payload
    requires sent0 == Deframed(seen)
    ensures payload.arr == payload0.arr && Arrays(out) <= Arrays(out0) + {payload0.arr}
    ensures length == payload.len && (status == Cancelled ==> cancellable)
    ensures Outcome(seen, x, status, payload, out, sent)
  {
    hide ParseFrames, Deframed, LengthField, Within, Holding, DataOf;
    payload, length, out, sent := payload0, length0, out0, sent0;
    ghost var bodies: seq<seq<Byte>> := [];
    ghost var buffered := residual + x.payload;
    WithinStart(buffered);
    ChunkPartial(seen, residual, x, bodies, buffered);
    assert sent == Deframed(seen) + Packets(bodies);

    if length < HEADER_LENGTH {
      ChunkDone(seen, residual, x, bodies, payload.Contents());
      return More, payload, length, out, sent;
    }
    var payloadLength := ReadLength(payload);
    if payloadLength > MAX_PAYLOAD_LENGTH {
      var taken := TakesDone(cancellable);
      if taken {
        return Cancelled, payload, length, out, sent;
      }
      ChunkTooLarge(seen, residual, x, bodies, payload.Contents());
      FaultKeeps(out, sent, payload, PayloadTooLarge(payloadLength));
      out, sent := out + [Fault(PayloadTooLarge(payloadLength))], sent + [Failure(PayloadTooLarge(payloadLength))];
      return Stopped, payload, length, out, sent;
    }
    if length < HEADER_LENGTH + payloadLength {
      ChunkDone(seen, residual, x, bodies, payload.Contents());
      return More, payload, length, out, sent;
    }
    var taken := TakesDone(cancellable);
    if taken {
      return Cancelled, payload, length, out, sent;
    }
    FrameSent(seen, buffered, bodies, payload.Contents(), sent);
    SendKeeps(out, sent, payload, payloadLength);
    ghost var body := payload.Contents()[HEADER_LENGTH..HEADER_LENGTH + payloadLength];
    out, sent := out + [Data(payload.From(HEADER_LENGTH).To(payloadLength))], sent + [Packet(body, false)];
    bodies := bodies + [body];
    payload := payload.From(HEADER_LENGTH + payloadLength);
    length := payload.len;
    if length == 0 {
      ChunkDone(seen, residual, x, bodies, payload.Contents());
      return More, payload, length, out, sent;
    }
    status, payload, length, out, sent :=
      NextFrames(cancellable, payload, length, out, sent, seen, residual, x, bodies);
  }

  /** The option's goroutine. The input channel is closed after `input`; `cancelled` says that
      the context ended the run early.

      Every slice sent still holds its frame when the run ends, at any point of the input, so no
      later append has written to it. */
  method ReadPacketWithHeader(cancellable: bool, input: seq<Item>)
    returns (out: seq<Sent>, ghost sent: seq<Item>, cancelled: bool)
    ensures Shows(out, sent)
    ensures sent <= Deframed(input)
    ensures !cancelled ==> sent == Deframed(input)
    ensures cancelled ==> cancellable
  {
    hide ParseFrames, Deframed, Holding, DataOf, FirstError;
    var empty := new Byte[0];
    var payload := Slice(empty, 0, 0);
    var length := 0;
    out, sent, cancelled := [], [], false;
    HoldingNothing();
    assert input[..0] == [];
    for n := 0 to |input|
      invariant fresh(payload.arr) && payload.Valid() && Apart(out, payload)
      invariant fresh(Arrays(out)) && Shows(out, sent)
      invariant length == payload.len < HEADER_LENGTH + MAX_PAYLOAD_LENGTH
      invariant Holding(input[..n], payload.Contents())
      invariant sent == Deframed(input[..n])
    {
      var x := input[n];
      ghost var seen := input[..n];
      ghost var residual := payload.Contents();
      NextItem(input, n);
      var taken := TakesDone(cancellable);
      if taken {
        cancelled := true;
        return;
      }
      if x.Failure? {
        var taken := TakesDone(cancellable);
        if taken {
          cancelled := true;
          return;
        }
        FailureEnds(seen, residual, x, input[n + 1..]);
        FaultKeeps(out, sent, payload, x.err);
        out, sent := out + [Fault(x.err)], sent + [Failure(x.err)];
        return;
      }
      payload := AppendApart(out, sent, payload, x.payload);
      length := length + |x.payload|;
      var status;
      status, payload, length, out, sent := FirstFrame(cancellable, payload, length, out, sent, seen, residual, x);
      match status {
        case More =>
          var _ := Buffered(seen + [x], payload.Contents());
        case Stopped =>
          StoppedForGood(seen + [x], input[n + 1..]);
          return;
        case Cancelled =>
          cancelled := true;
          return;
      }
    }
    assert input[..|input|] == input;
  }
}
