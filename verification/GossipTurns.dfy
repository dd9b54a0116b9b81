/**
  Whose turn it is: which frame a broadcast sends, and which foreign frames are forwarded, told from the messages
  and arrivals alone.
 */
module GossipTurns {
  import opened Prelude
  import opened Frame
  import opened FrameQueue
  import FrameCuts
  import opened Gossip

  // ---------- What a broadcast sends ----------

  predicate Finished(q: Queue) { q.offset >= |q.bytes| }

  predicate AllFinished(queue: seq<Queue>) { forall i :: 0 <= i < |queue| ==> Finished(queue[i]) }

  /** The message at k is the first with something left. */
  ghost predicate FirstUnfinished(queue: seq<Queue>, k: nat) { k < |queue| && AllFinished(queue[..k]) && !Finished(queue[k]) }

  /** The message can be cut once more: it is short of 64 frames, and the MTU has room. */
  ghost predicate CanGoOn(crc: FrameCuts.Checksum, q: Queue, mtu: int) {
    q.frameNumber < 64 && mtu > FrameCuts.Bare(crc, q.id, q.source)
  }

  lemma NextGoesOn(zip: seq<byte> -> seq<byte>, crc: FrameCuts.Checksum, q: Queue, mtu: nat)
    requires !Finished(q)
    ensures
      var (q', f) := NextStep(zip, q, mtu);
      if CanGoOn(crc, q, mtu) then
        f.Ok? && f.value.streamId == q.id && f.value.frameNumber == q.frameNumber && f.value.source == q.source &&
        q'.id == q.id && q'.source == q.source && q'.frameNumber == q.frameNumber + 1
      else
        f.Err? && !f.error.EndOfQueue?
  {
    MarshalledLength(crc, Frame(false, q.id, 0, false, q.source, []));
  }

  lemma {:induction false} PopServesFirst(zip: seq<byte> -> seq<byte>, queue: seq<Queue>, k: nat, mtu: nat)
    requires FirstUnfinished(queue, k)
    ensures
      var (q', f) := NextStep(zip, queue[k], mtu);
      PopFrame(zip, queue, mtu) ==
      if f.Ok? then Popped([q'] + queue[k + 1..], Some(f.value), false) else Popped(queue[k + 1..], None, true)
  {
    if k > 0 {
      assert queue[..k][0] == queue[0];
      assert queue[1..][..k - 1] == queue[..k][1..];
      PopServesFirst(zip, queue[1..], k - 1, mtu);
      assert queue[1..][k..] == queue[k + 1..];
    }
  }

  lemma {:induction false} PopFindsNothing(zip: seq<byte> -> seq<byte>, queue: seq<Queue>, mtu: nat)
    requires AllFinished(queue)
    ensures PopFrame(zip, queue, mtu) == Popped([], None, false)
  {
    if queue != [] {
      PopFindsNothing(zip, queue[1..], mtu);
    }
  }

  /**
    The first message with something left has its turn: its next frame is sent, and queued to be sent again if
    it is to be sent more than once; or the message is dropped, because it is too long or the MTU too small,
    and nothing is sent.
   */
  lemma OwnMessagesFirst(zip: seq<byte> -> seq<byte>, crc: FrameCuts.Checksum, times: int, s: Scheduler, k: nat, mtu: int)
    requires mtu >= 1 && FirstUnfinished(s.messageQueue, k)
    ensures
      var (s', sent) := BroadcastStep(zip, times, s, mtu);
      var q := s.messageQueue[k];
      if CanGoOn(crc, q, mtu) then
        sent.Some? && sent.value.streamId == q.id && sent.value.frameNumber == q.frameNumber && sent.value.source == q.source &&
        |s'.messageQueue| > 0 && s'.messageQueue[0].id == q.id && s'.messageQueue[0].frameNumber == q.frameNumber + 1 &&
        s'.messageQueue[1..] == s.messageQueue[k + 1..] &&
        s'.retransmitQueue == s.retransmitQueue + if times > 1 then [Retransmission(sent.value, 1)] else []
      else
        sent.None? && s'.messageQueue == s.messageQueue[k + 1..] && s'.retransmitQueue == s.retransmitQueue
  {
    PopServesFirst(zip, s.messageQueue, k, mtu);
    NextGoesOn(zip, crc, s.messageQueue[k], mtu);
  }

  /** Only when no message has anything left is a frame sent again: the one queued longest. */
  lemma RetransmissionsWait(zip: seq<byte> -> seq<byte>, times: int, s: Scheduler, mtu: int)
    requires mtu >= 1 && AllFinished(s.messageQueue)
    ensures
      var (s', sent) := BroadcastStep(zip, times, s, mtu);
      s'.messageQueue == [] && sent == if s.retransmitQueue == [] then None else Some(s.retransmitQueue[0].frame)
  {
    PopFindsNothing(zip, s.messageQueue, mtu);
  }

  // ---------- Which foreign frames are forwarded ----------

  ghost predicate Arrives(steps: seq<Step>, i: nat, stream: Uuid) {
    i < |steps| && steps[i].Inbound? && steps[i].frame.streamId == stream
  }

  ghost predicate StreamArrived(steps: seq<Step>, stream: Uuid) { exists i: nat :: Arrives(steps, i, stream) }

  ghost predicate NumberArrived(steps: seq<Step>, stream: Uuid, n: uint16) {
    exists i: nat :: Arrives(steps, i, stream) && steps[i].frame.frameNumber == n
  }

  lemma ArrivedLast(steps: seq<Step>, stream: Uuid, n: uint16)
    requires steps != []
    ensures
      var before, last := steps[..|steps| - 1], steps[|steps| - 1];
      (StreamArrived(steps, stream) <==> StreamArrived(before, stream) || (last.Inbound? && last.frame.streamId == stream)) &&
      (NumberArrived(steps, stream, n) <==>
        NumberArrived(before, stream, n) || (last.Inbound? && last.frame.streamId == stream && last.frame.frameNumber == n))
  {
    var before, last := steps[..|steps| - 1], steps[|steps| - 1];
    forall i: nat ensures Arrives(before, i, stream) <==> Arrives(steps, i, stream) && i < |before| {}
    if last.Inbound? && last.frame.streamId == stream {
      assert Arrives(steps, |before|, stream);
    }
    if NumberArrived(before, stream, n) {
      var i: nat :| Arrives(before, i, stream) && before[i].frame.frameNumber == n;
      assert Arrives(steps, i, stream) && steps[i] == before[i];
    }
  }

  /** What the delegate remembers of a stream are the frames that arrived. */
  ghost predicate Remembers(seen: map<Uuid, set<uint16>>, steps: seq<Step>, stream: Uuid, n: uint16) {
    (stream in seen <==> StreamArrived(steps, stream)) &&
    (stream in seen ==> (n in seen[stream] <==> NumberArrived(steps, stream, n)))
  }

  lemma ArrivalIsNoted(s: Scheduler, f: Frame)
    ensures
      var seen := InboundStep(s, f).0.framesSeen;
      seen == s.framesSeen[f.streamId := (if f.streamId in s.framesSeen then s.framesSeen[f.streamId] else {}) + {f.frameNumber}]
  {
    if f.streamId in s.framesSeen && f.frameNumber in s.framesSeen[f.streamId] {
      assert s.framesSeen[f.streamId] + {f.frameNumber} == s.framesSeen[f.streamId];
    } else {
      assert {} + {f.frameNumber} == {f.frameNumber};
    }
  }

  lemma OthersNoteNothing(zip: seq<byte> -> seq<byte>, times: int, t: Traced, step: Step)
    requires !step.Inbound?
    ensures TracedStep(zip, times, t, step).s.framesSeen == t.s.framesSeen && TracedStep(zip, times, t, step).queued == t.queued
  {
    if step.Broadcast? && step.mtu >= 1 {
      BroadcastShape(zip, times, t.s, step.mtu);
    }
  }

  lemma {:induction false} SeenIsArrived(zip: seq<byte> -> seq<byte>, times: int, steps: seq<Step>, stream: Uuid, n: uint16)
    ensures Remembers(Execute(zip, times, steps).s.framesSeen, steps, stream, n)
  {
    if steps != [] {
      var before, last := steps[..|steps| - 1], steps[|steps| - 1];
      SeenIsArrived(zip, times, before, stream, n);
      ArrivedLast(steps, stream, n);
      if last.Inbound? {
        ArrivalIsNoted(Execute(zip, times, before).s, last.frame);
        NumberNeedsStream(before, stream, n);
      } else {
        OthersNoteNothing(zip, times, Execute(zip, times, before), last);
      }
    }
  }

  lemma NumberNeedsStream(steps: seq<Step>, stream: Uuid, n: uint16)
    ensures NumberArrived(steps, stream, n) ==> StreamArrived(steps, stream)
  {
  }

  /** An arrival that is forwarded: another frame of its stream came before, and this one did not. */
  ghost predicate IsForwarded(steps: seq<Step>, i: nat) {
    i < |steps| && steps[i].Inbound? &&
    var f := steps[i].frame;
    StreamArrived(steps[..i], f.streamId) && !NumberArrived(steps[..i], f.streamId, f.frameNumber)
  }

  ghost predicate Forwarded(steps: seq<Step>, f: Frame) { exists i: nat :: IsForwarded(steps, i) && steps[i].frame == f }

  lemma ForwardedLast(steps: seq<Step>, f: Frame)
    requires steps != []
    ensures
      var n := |steps| - 1;
      Forwarded(steps, f) <==> Forwarded(steps[..n], f) || (IsForwarded(steps, n) && steps[n].frame == f)
  {
    var n := |steps| - 1;
    forall i: nat | i < n ensures IsForwarded(steps, i) <==> IsForwarded(steps[..n], i) {
      assert steps[..n][..i] == steps[..i];
    }
    if Forwarded(steps[..n], f) {
      var i: nat :| IsForwarded(steps[..n], i) && steps[..n][i].frame == f;
      assert IsForwarded(steps, i);
    }
    if Forwarded(steps, f) {
      var i: nat :| IsForwarded(steps, i) && steps[i].frame == f;
      assert i < n ==> IsForwarded(steps[..n], i);
    }
  }

  /** What arrives is queued at once, never sent yet, exactly when it is to be forwarded. */
  lemma ArrivalIsQueued(zip: seq<byte> -> seq<byte>, times: int, steps: seq<Step>, f: Frame)
    ensures
      var t, t' := Execute(zip, times, steps), Execute(zip, times, steps + [Inbound(f)]);
      var forwarded := IsForwarded(steps + [Inbound(f)], |steps|);
      t'.s.retransmitQueue == t.s.retransmitQueue + (if forwarded then [Retransmission(f, 0)] else []) &&
      t'.queued == (if forwarded then t.queued + multiset{f} else t.queued)
  {
    var more := steps + [Inbound(f)];
    assert more[..|steps|] == steps;
    SeenIsArrived(zip, times, steps, f.streamId, f.frameNumber);
  }

  lemma {:induction false} QueuedIsForwarded(zip: seq<byte> -> seq<byte>, times: int, steps: seq<Step>, f: Frame)
    ensures f in Execute(zip, times, steps).queued <==> Forwarded(steps, f)
  {
    if steps != [] {
      var n := |steps| - 1;
      QueuedIsForwarded(zip, times, steps[..n], f);
      ForwardedLast(steps, f);
      if steps[n].Inbound? {
        assert steps == steps[..n] + [Inbound(steps[n].frame)];
        ArrivalIsQueued(zip, times, steps[..n], steps[n].frame);
      } else {
        OthersNoteNothing(zip, times, Execute(zip, times, steps[..n]), steps[n]);
      }
    }
  }

  /**
    Once the queue is empty, a foreign frame has been sent the full number of times if, when it first arrived,
    another frame of its stream had arrived before; and otherwise not at all.
   */
  lemma ForeignFramesForwardedExactly(zip: seq<byte> -> seq<byte>, times: int, steps: seq<Step>, f: Frame)
    requires UniqueStreams(steps) && f.streamId !in SentIds(steps)
    requires Execute(zip, times, steps).s.retransmitQueue == []
    ensures Execute(zip, times, steps).sent[f] == if Forwarded(steps, f) then AtLeastOne(times) else 0
  {
    var t := Execute(zip, times, steps);
    SentAtMostExactlyWhenDrained(zip, times, steps, f);
    QueuedIsForwarded(zip, times, steps, f);
    FramesIntroducedOnce(zip, times, steps, SentIds(steps));
    if f in t.cut {
      assert CutBefore(t.s.messageQueue, SentIds(steps), f);
    }
  }
}
