/** The items that travel through the audio channels, and the framing of the client's byte stream:
    each frame is a 64-bit timestamp, a 64-bit sequence number, a 32-bit length and a payload. */
module Framing {
  import opened Bytes
  import opened Weights

  const HEADER_LENGTH := 20
  const MAX_PAYLOAD_LENGTH := 0xffffff

  datatype Err = Eof | Canceled | ReadFailed(code: int) | PayloadTooLarge(length: nat)

  /** One element of an audio channel. `silent` marks the packets the silent option creates; the
      program has no such mark, and no step depends on it. */
  datatype Item = Packet(payload: seq<Byte>, silent: bool) | Failure(err: Err)

  datatype Option<+T> = None | Some(value: T)

  /** Whether a select on the context and a ready channel takes the context's case. It may do so
      only once the context is done, which never happens in a run that is not `cancellable`. */
  method TakesDone(cancellable: bool) returns (taken: bool)
    ensures taken ==> cancellable
  {
    taken := *;
    taken := taken && cancellable;
  }

  // ---------------------------------------------------------------------------------
  // The wire format
  // ---------------------------------------------------------------------------------

  /** A frame: timestamp and sequence number as sixteen bytes, then the payload. */
  datatype Frame = Frame(stamp: seq<Byte>, body: seq<Byte>) {
    predicate Valid() {
      |stamp| == 16 && |body| <= MAX_PAYLOAD_LENGTH
    }
  }

  predicate AllValid(frames: seq<Frame>)
  {
    forall i :: 0 <= i < |frames| ==> frames[i].Valid()
  }

  function Wire(f: Frame): seq<Byte>
  {
    f.stamp + BigEndian(|f.body|, 4) + f.body
  }

  function WireAll(frames: seq<Frame>): seq<Byte>
  {
    if frames == [] then [] else Wire(frames[0]) + WireAll(frames[1..])
  }

  function Bodies(frames: seq<Frame>): (b: seq<seq<Byte>>)
    ensures |b| == |frames|
  {
    if frames == [] then [] else [frames[0].body] + Bodies(frames[1..])
  }

  // ---------------------------------------------------------------------------------
  // One-shot parsing
  // ---------------------------------------------------------------------------------

  function LengthField(s: seq<Byte>): nat
    requires |s| >= HEADER_LENGTH
  {
    FromBigEndian(s[16..HEADER_LENGTH])
  }

  predicate Oversized(s: seq<Byte>)
  {
    |s| >= HEADER_LENGTH && LengthField(s) > MAX_PAYLOAD_LENGTH
  }

  predicate HasFrame(s: seq<Byte>)
  {
    |s| >= HEADER_LENGTH && LengthField(s) <= MAX_PAYLOAD_LENGTH && |s| >= HEADER_LENGTH + LengthField(s)
  }

  /** The header by offset: the length is in bytes 16 to 19, most significant first. It announces
      too much exactly if the first of them is not zero. */
  lemma HeaderLayout(s: seq<Byte>)
    ensures |s| < 20 ==> !HasFrame(s) && !Oversized(s)
    ensures |s| >= 20 ==>
      var n := Value32([s[19], s[18], s[17], s[16]]);
      && LengthField(s) == n
      && (Oversized(s) <==> s[16] != 0)
      && (HasFrame(s) <==> s[16] == 0 && |s| - 20 >= n)
  {
    if |s| >= 20 {
      BigEndianWeights(s[16..20]);
      assert s[16..20] == [s[16], s[17], s[18], s[19]];
    }
  }

  datatype Tail = Incomplete(rest: seq<Byte>) | TooLarge(length: nat)

  /** The payloads of the complete frames, and what stopped the parse. */
  datatype Parse = Parse(bodies: seq<seq<Byte>>, tail: Tail)

  /** Greedy parse of a whole byte string. What remains is less than one largest frame. */
  function ParseFrames(s: seq<Byte>): (p: Parse)
    ensures p.tail.Incomplete? ==>
      && |p.tail.rest| < HEADER_LENGTH + MAX_PAYLOAD_LENGTH
      && !HasFrame(p.tail.rest) && !Oversized(p.tail.rest)
    ensures p.tail.TooLarge? ==> p.tail.length > MAX_PAYLOAD_LENGTH
    decreases |s|
  {
    if HasFrame(s) then
      var n := HEADER_LENGTH + LengthField(s);
      Then([s[HEADER_LENGTH..n]], ParseFrames(s[n..]))
    else if Oversized(s) then Parse([], TooLarge(LengthField(s)))
    else Parse([], Incomplete(s))
  }

  function Then(bodies: seq<seq<Byte>>, p: Parse): (r: Parse)
  {
    Parse(bodies + p.bodies, p.tail)
  }

  lemma ThenTwice(a: seq<seq<Byte>>, b: seq<seq<Byte>>, p: Parse)
    ensures Then(a, Then(b, p)) == Then(a + b, p)
  {
    SeqAssociative(a, b, p.bodies);
  }

  lemma ThenNothing(p: Parse)
    ensures Then([], p) == p
  {
    assert [] + p.bodies == p.bodies;
  }

  lemma LengthFieldOfPrefix(a: seq<Byte>, b: seq<Byte>)
    requires |a| >= HEADER_LENGTH
    ensures LengthField(a + b) == LengthField(a)
  {
    SliceOfPrefix(a, b, 16, HEADER_LENGTH);
  }

  /** Parsing can stop anywhere and go on with more bytes: only the unparsed rest matters. */
  lemma {:induction false} ParseExtends(a: seq<Byte>, b: seq<Byte>)
    ensures var p := ParseFrames(a);
      ParseFrames(a + b) ==
        match p.tail {
          case TooLarge(_) => p
          case Incomplete(rest) => Then(p.bodies, ParseFrames(rest + b))
        }
    decreases |a|
  {
    if HasFrame(a) {
      var n := HEADER_LENGTH + LengthField(a);
      LengthFieldOfPrefix(a, b);
      assert (a + b)[HEADER_LENGTH..n] == a[HEADER_LENGTH..n] && (a + b)[n..] == a[n..] + b;
      ParseExtends(a[n..], b);
      var q := ParseFrames(a[n..]);
      if q.tail.Incomplete? {
        ThenTwice([a[HEADER_LENGTH..n]], q.bodies, ParseFrames(q.tail.rest + b));
      }
    } else if Oversized(a) {
      LengthFieldOfPrefix(a, b);
    } else {
      ThenNothing(ParseFrames(a + b));
    }
  }

  /** A frame by offset: 16 bytes for timestamp and sequence number, the length of the payload
      with its most significant byte first, the payload. */
  lemma WireLayout(f: Frame)
    requires f.Valid()
    ensures var s := Wire(f);
      && |s| == 20 + |f.body| && |f.body| <= 16777215
      && s[..16] == f.stamp && Value32([s[19], s[18], s[17], s[16]]) == |f.body| && s[20..] == f.body
  {
    var s := Wire(f);
    WireFields(f, []);
    assert s + [] == s;
    HeaderLayout(s);
  }

  lemma WireFields(f: Frame, rest: seq<Byte>)
    requires f.Valid()
    ensures var s := Wire(f) + rest; var n := HEADER_LENGTH + |f.body|;
      HasFrame(s) && LengthField(s) == |f.body| && s[HEADER_LENGTH..n] == f.body && s[n..] == rest
  {
    var s, n := Wire(f) + rest, HEADER_LENGTH + |f.body|;
    assert s[16..HEADER_LENGTH] == BigEndian(|f.body|, 4);
    Pow256Values();
    BigEndianRoundTrip(|f.body|, 4);
    assert s[HEADER_LENGTH..n] == f.body && s[n..] == rest;
  }

  /** Parsing undoes framing, and goes on behind the frames. */
  lemma {:induction false} ParseWire(frames: seq<Frame>, rest: seq<Byte>)
    requires AllValid(frames)
    ensures ParseFrames(WireAll(frames) + rest) == Then(Bodies(frames), ParseFrames(rest))
    decreases |frames|
  {
    if frames == [] {
      assert WireAll(frames) + rest == rest;
      ThenNothing(ParseFrames(rest));
    } else {
      var more := WireAll(frames[1..]) + rest;
      SeqAssociative(Wire(frames[0]), WireAll(frames[1..]), rest);
      WireFields(frames[0], more);
      ParseWire(frames[1..], rest);
      ThenTwice([frames[0].body], Bodies(frames[1..]), ParseFrames(rest));
    }
  }

  /** Whatever the bytes are, the parse accounts for all of them: they are the frames found,
      followed by bytes that hold no further frame. */
  lemma {:induction false} ParseSound(s: seq<Byte>) returns (frames: seq<Frame>, rest: seq<Byte>)
    ensures AllValid(frames) && s == WireAll(frames) + rest
    ensures ParseFrames(s).bodies == Bodies(frames)
    ensures ParseFrames(s).tail == if Oversized(rest) then TooLarge(LengthField(rest)) else Incomplete(rest)
    ensures !HasFrame(rest)
    decreases |s|
  {
    if HasFrame(s) {
      var n := HEADER_LENGTH + LengthField(s);
      var f := Frame(s[..16], s[HEADER_LENGTH..n]);
      var more;
      more, rest := ParseSound(s[n..]);
      frames := [f] + more;
      LengthFieldInverse(s[16..HEADER_LENGTH]);
      assert s[..n] == Wire(f);
      assert s == s[..n] + s[n..];
      assert frames[1..] == more;
      SeqAssociative(Wire(f), WireAll(more), rest);
    } else {
      frames, rest := [], s;
      assert WireAll(frames) + rest == rest;
    }
  }

  lemma OneByteMore(v: nat, b: Byte)
    ensures (256 * v + b) / 256 == v && (256 * v + b) % 256 == b
  {
  }

  lemma {:induction false} LengthFieldInverse(s: seq<Byte>)
    ensures BigEndian(FromBigEndian(s), |s|) == s
  {
    if s != [] {
      var init, b := s[..|s| - 1], s[|s| - 1];
      LengthFieldInverse(init);
      assert s == init + [b];
      OneByteMore(FromBigEndian(init), b);
    }
  }

  // ---------------------------------------------------------------------------------
  // What the header option is to emit
  // ---------------------------------------------------------------------------------

  /** The bytes that arrive before the first error. */
  function DataOf(items: seq<Item>): seq<Byte>
  {
    if items == [] || items[0].Failure? then [] else items[0].payload + DataOf(items[1..])
  }

  function FirstError(items: seq<Item>): Option<Err>
  {
    if items == [] then None
    else if items[0].Failure? then Some(items[0].err)
    else FirstError(items[1..])
  }

  function Packets(bodies: seq<seq<Byte>>): (items: seq<Item>)
    ensures |items| == |bodies|
    ensures forall i :: 0 <= i < |items| ==> items[i] == Packet(bodies[i], false)
  {
    seq(|bodies|, i requires 0 <= i < |bodies| => Packet(bodies[i], false))
  }

  /** The frames of the concatenated input, whatever its chunking; then one error if a header
      announces too much, or else the error of the input, if there is one. */
  function Deframed(input: seq<Item>): seq<Item>
  {
    var p := ParseFrames(DataOf(input));
    Packets(p.bodies) + Ending(p.tail, FirstError(input))
  }

  function Ending(tail: Tail, err: Option<Err>): seq<Item>
  {
    match tail
    case TooLarge(n) => [Failure(PayloadTooLarge(n))]
    case Incomplete(_) => if err.Some? then [Failure(err.value)] else []
  }

  lemma PacketsAppend(a: seq<seq<Byte>>, b: seq<seq<Byte>>)
    ensures Packets(a + b) == Packets(a) + Packets(b)
  {
  }

  predicate NoFailure(items: seq<Item>)
  {
    forall i :: 0 <= i < |items| ==> items[i].Packet?
  }

  lemma {:induction false} DataOfSnoc(items: seq<Item>, x: Item)
    requires NoFailure(items)
    ensures DataOf(items + [x]) == DataOf(items) + if x.Packet? then x.payload else []
    ensures FirstError(items + [x]) == if x.Packet? then None else Some(x.err)
    ensures FirstError(items) == None
  {
    var all := items + [x];
    if items == [] {
      assert all[1..] == [];
      assert DataOf(all[1..]) == [];
    } else {
      assert all[0] == items[0] && all[1..] == items[1..] + [x];
      DataOfSnoc(items[1..], x);
      SeqAssociative(items[0].payload, DataOf(items[1..]), if x.Packet? then x.payload else []);
    }
  }
}
