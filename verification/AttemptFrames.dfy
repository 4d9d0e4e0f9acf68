/** The audio pages of all attempts against the frames of the request body. */
module AttemptFrames {
  import opened Bytes
  import opened Framing
  import opened Opus
  import opened Pipeline
  import opened PipelineRuns
  import Attempts

  predicate IsSilent(x: Item)
  {
    x == Packet(SILENT_PACKET, true)
  }

  /** The channel has delivered nothing but what the stages in front of it make of the body, and
      packets of the timer. */
  predicate FromBody(received: seq<Item>, script: seq<ReadResult>)
  {
    Erase(received) <= Reference(true, script)
  }

  /** It is so for what passes out of the pipeline, in every reachable state. */
  lemma PipelineFromBody(noSilent: bool, s: State, script: seq<ReadResult>)
    requires Reachable(true, noSilent, s) && s.feed <= script
    ensures s.Shaped() && FromBody(s.passed[s.Last()], script)
  {
    hide Reference, Erase, Reachable;
    SilenceIsTransparent(true, noSilent, s);
    ReferenceGrows(true, s.feed, script);
  }

  /** Which frame of the body a packet in the channel is. */
  function FrameIndex(received: seq<Item>, p: nat): nat
    requires p <= |received|
  {
    |Erase(received[..p])|
  }

  lemma FrameAt(received: seq<Item>, p: nat)
    requires p < |received| && !IsSilent(received[p])
    ensures FrameIndex(received, p) < |Erase(received)|
    ensures Erase(received)[FrameIndex(received, p)] == received[p]
  {
    var before, x, after := received[..p], received[p], received[p + 1..];
    assert received == before + [x] + after;
    EraseAppend(before + [x], after);
    EraseAppend(before, [x]);
    EraseOne(x);
  }

  lemma FrameIndexGrows(received: seq<Item>, p: nat, q: nat)
    requires p < q <= |received| && !IsSilent(received[p])
    ensures FrameIndex(received, p) < FrameIndex(received, q)
  {
    var before, x, after := received[..p], received[p], received[p + 1..q];
    assert received[..q] == before + [x] + after;
    EraseAppend(before + [x], after);
    EraseAppend(before, [x]);
    EraseOne(x);
  }

  /** Every page of every attempt that is not the timer's carries the payload of a frame of the
      body, in every interleaving. */
  lemma EveryPageIsAFrame(s: Attempts.State, script: seq<ReadResult>, a: nat, i: nat)
    requires Attempts.Reachable(s) && IsScript(script) && FromBody(s.received, script)
    requires a < |s.attempts| && i < |s.attempts[a].pages|
    ensures s.attempts[a].pages[i] < |s.received|
    ensures var p := s.attempts[a].pages[i]; var bodies := ParseFrames(BodyBytes(script)).bodies;
      var n := FrameIndex(s.received, p);
      IsSilent(s.received[p]) ||
      (n < |bodies| && s.received[p].Packet? && s.received[p].payload == bodies[n] == Attempts.PayloadAt(s.received, p))
  {
    hide ParseFrames, BodyBytes, Erase, Reference;
    Attempts.PagesInOrder(s, a);
    BodyArrives(script);
    var p := s.attempts[a].pages[i];
    if !IsSilent(s.received[p]) {
      FrameAt(s.received, p);
    }
  }

  /** No frame of the body becomes a page twice: not in two attempts, however they overlap, and
      not in one, whose pages are in the order of the frames. */
  lemma EveryFrameOnce(s: Attempts.State, a: nat, i: nat, b: nat, j: nat)
    requires Attempts.Reachable(s) && a < |s.attempts| && b < |s.attempts|
    requires i < |s.attempts[a].pages| && j < |s.attempts[b].pages|
    ensures var p, q := s.attempts[a].pages[i], s.attempts[b].pages[j];
      p < |s.received| && q < |s.received|
    ensures var p, q := s.attempts[a].pages[i], s.attempts[b].pages[j];
      !IsSilent(s.received[p]) && !IsSilent(s.received[q]) && (a != b || i != j) ==>
        && FrameIndex(s.received, p) != FrameIndex(s.received, q)
        && (a == b && i < j ==> FrameIndex(s.received, p) < FrameIndex(s.received, q))
  {
    hide Erase;
    Attempts.PagesInOrder(s, a);
    Attempts.PagesInOrder(s, b);
    var p, q := s.attempts[a].pages[i], s.attempts[b].pages[j];
    assert s.attempts[a].got[i] == p && s.attempts[b].got[j] == q;
    if a < b {
      Attempts.AttemptsDisjoint(s, a, b, p);
    } else if b < a {
      Attempts.AttemptsDisjoint(s, b, a, p);
    }
    if !IsSilent(s.received[p]) && !IsSilent(s.received[q]) {
      if p < q {
        FrameIndexGrows(s.received, p, q);
      } else if q < p {
        FrameIndexGrows(s.received, q, p);
      }
    }
  }
}
