/**
  The gossip delegate's scheduler: own messages are cut and sent frame by frame, and every frame, own or
  forwarded, is sent again until it has been sent the cluster's transmission count.

  The transmission count is fixed here; the code recomputes it from the member count at every send. Message
  queues belong to the delegate alone, so they are kept as values.
 */
module Gossip {
  import opened Prelude
  import opened Frame
  import opened FrameQueue

  datatype Retransmission = Retransmission(frame: Frame, transmitCount: nat)

  datatype Scheduler = Scheduler(
    messageQueue: seq<Queue>, retransmitQueue: seq<Retransmission>, framesSeen: map<Uuid, set<uint16>>)

  const IDLE := Scheduler([], [], map[])

  datatype Popped = Popped(queue: seq<Queue>, frame: Option<Frame>, gaveUp: bool)

  /** Takes the next frame from the first unfinished message; a message that cannot be cut further is dropped. */
  function PopFrame(zip: seq<byte> -> seq<byte>, queue: seq<Queue>, mtu: nat): (p: Popped)
    ensures p.frame.Some? ==> !p.gaveUp
  {
    if queue == [] then Popped([], None, false)
    else
      match NextStep(zip, queue[0], mtu)
      case (q, Ok(f)) => Popped([q] + queue[1..], Some(f), false)
      case (_, Err(EndOfQueue)) => PopFrame(zip, queue[1..], mtu)
      case (_, Err(_)) => Popped(queue[1..], None, true)
  }

  function BroadcastStep(zip: seq<byte> -> seq<byte>, times: int, s: Scheduler, mtu: int): (Scheduler, Option<Frame>) {
    if (s.messageQueue == [] && s.retransmitQueue == []) || mtu < 1 then (s, None)
    else
      var p := PopFrame(zip, s.messageQueue, mtu);
      var s := s.(messageQueue := p.queue);
      if p.gaveUp then (s, None)
      else if p.frame.Some? then
        (if times > 1 then s.(retransmitQueue := s.retransmitQueue + [Retransmission(p.frame.value, 1)]) else s, p.frame)
      else if s.retransmitQueue == [] then (s, None)
      else
        (s.(retransmitQueue := AfterRetransmit(times, s.retransmitQueue)), Some(s.retransmitQueue[0].frame))
  }

  /** Another node's frame: the first frame of a stream is only noted, later unseen ones are queued. */
  function InboundStep(s: Scheduler, f: Frame): (Scheduler, bool) {
    if f.streamId !in s.framesSeen then (s.(framesSeen := s.framesSeen[f.streamId := {f.frameNumber}]), false)
    else if f.frameNumber in s.framesSeen[f.streamId] then (s, false)
    else
      (s.(framesSeen := s.framesSeen[f.streamId := s.framesSeen[f.streamId] + {f.frameNumber}],
          retransmitQueue := s.retransmitQueue + [Retransmission(f, 0)]), true)
  }

  class Delegate {
    const zip: seq<byte> -> seq<byte>
    const sourceName: seq<byte>
    const transmissionCount: int
    var messageQueue: seq<Queue>
    var retransmitQueue: seq<Retransmission>
    var framesSeen: map<Uuid, set<uint16>>

    ghost function State(): Scheduler
      reads this
    {
      Scheduler(messageQueue, retransmitQueue, framesSeen)
    }

    constructor (zip: seq<byte> -> seq<byte>, sourceName: seq<byte>, transmissionCount: int)
      ensures State() == IDLE
    {
      this.zip, this.sourceName, this.transmissionCount := zip, sourceName, transmissionCount;
      messageQueue, retransmitQueue, framesSeen := [], [], map[];
    }

    method Send(id: Uuid, msg: seq<byte>)
      modifies this
      ensures State() == old(State()).(messageQueue := old(messageQueue) + [NewQueue(id, sourceName, msg)])
    {
      messageQueue := messageQueue + [NewQueue(id, sourceName, msg)];
    }

    method GetBroadcasts(overhead: int, limit: int) returns (sent: Option<Frame>)
      modifies this
      ensures (State(), sent) == BroadcastStep(zip, transmissionCount, old(State()), limit - overhead)
    {
      if |messageQueue| == 0 && |retransmitQueue| == 0 {
        return None;
      }
      var mtu := limit - overhead;
      if mtu < 1 {
        return None;
      }
      var frame: Option<Frame> := None;
      while frame.None? && |messageQueue| > 0
        invariant retransmitQueue == old(retransmitQueue) && framesSeen == old(framesSeen)
        invariant frame.None? ==> PopFrame(zip, old(messageQueue), mtu) == PopFrame(zip, messageQueue, mtu)
        invariant frame.Some? ==> PopFrame(zip, old(messageQueue), mtu) == Popped(messageQueue, frame, false)
        decreases frame.None?, |messageQueue|
      {
        var (q, r) := NextStep(zip, messageQueue[0], mtu);
        if r.Err? {
          messageQueue := messageQueue[1..];
          if r.error.EndOfQueue? {
            continue;
          }
          return None;
        }
        messageQueue := [q] + messageQueue[1..];
        frame := Some(r.value);
      }
      if frame.None? {
        if |retransmitQueue| == 0 {
          return None;
        }
        var head := retransmitQueue[0].(transmitCount := retransmitQueue[0].transmitCount + 1);
        if head.transmitCount >= transmissionCount {
          retransmitQueue := retransmitQueue[1..];
          assert retransmitQueue == [] + old(retransmitQueue)[1..];
        } else {
          retransmitQueue := [head] + retransmitQueue[1..];
        }
        return Some(head.frame);
      }
      if transmissionCount > 1 {
        retransmitQueue := retransmitQueue + [Retransmission(frame.value, 1)];
      }
      return frame;
    }

    /** The part of the inbound handler that queues a foreign frame for forwarding. */
    method EnqueueInbound(f: Frame)
      modifies this
      ensures State() == if f.source != sourceName then InboundStep(old(State()), f).0 else old(State())
    {
      if f.source != sourceName {
        if f.streamId in framesSeen {
          if f.frameNumber !in framesSeen[f.streamId] {
            framesSeen := framesSeen[f.streamId := framesSeen[f.streamId] + {f.frameNumber}];
            retransmitQueue := retransmitQueue + [Retransmission(f, 0)];
          }
        } else {
          framesSeen := framesSeen[f.streamId := {f.frameNumber}];
        }
      }
    }
  }

  // ---------- Conservation of transmissions ----------

  function AtLeastOne(times: int): nat { if times < 1 then 1 else times }

  /** How often a queued entry will still be sent. */
  function EntryOwes(times: int, r: Retransmission): nat {
    if times - r.transmitCount < 1 then 1 else times - r.transmitCount
  }

  /** How often frame f will still be sent from the retransmission queue. */
  function Owed(times: int, queue: seq<Retransmission>, f: Frame): nat {
    if queue == [] then 0 else (if queue[0].frame == f then EntryOwes(times, queue[0]) else 0) + Owed(times, queue[1..], f)
  }

  lemma {:induction false} OwedConcat(times: int, a: seq<Retransmission>, b: seq<Retransmission>, f: Frame)
    ensures Owed(times, a + b, f) == Owed(times, a, f) + Owed(times, b, f)
  {
    if a == [] {
      assert a + b == b;
    } else {
      assert (a + b)[1..] == a[1..] + b;
      OwedConcat(times, a[1..], b, f);
    }
  }

  lemma OwedOne(times: int, r: Retransmission, f: Frame)
    ensures Owed(times, [r], f) == if r.frame == f then EntryOwes(times, r) else 0
  {
    assert [r][1..] == [];
  }

  /** The queue after one retransmission of its head. */
  function AfterRetransmit(times: int, queue: seq<Retransmission>): seq<Retransmission>
    requires queue != []
  {
    var head := queue[0].(transmitCount := queue[0].transmitCount + 1);
    (if head.transmitCount >= times then [] else [head]) + queue[1..]
  }

  lemma RetransmitOwes(times: int, queue: seq<Retransmission>, f: Frame)
    requires queue != []
    ensures Owed(times, AfterRetransmit(times, queue), f) + (if queue[0].frame == f then 1 else 0) == Owed(times, queue, f)
  {
    var head := queue[0].(transmitCount := queue[0].transmitCount + 1);
    OwedConcat(times, [head], queue[1..], f);
    OwedOne(times, head, f);
    assert [] + queue[1..] == queue[1..];
  }

  lemma EnqueueOwes(times: int, queue: seq<Retransmission>, r: Retransmission, f: Frame)
    ensures Owed(times, queue + [r], f) == Owed(times, queue, f) + (if r.frame == f then EntryOwes(times, r) else 0)
  {
    OwedConcat(times, queue, [r], f);
    OwedOne(times, r, f);
  }

  datatype Step =
    | SendMessage(id: Uuid, source: seq<byte>, message: seq<byte>)
    | Broadcast(mtu: int)
    | Inbound(frame: Frame)

  /** The scheduler with its history: frames cut from own messages, foreign frames queued, frames sent. */
  datatype Traced = Traced(s: Scheduler, cut: multiset<Frame>, queued: multiset<Frame>, sent: multiset<Frame>)

  const START := Traced(IDLE, multiset{}, multiset{}, multiset{})

  function IsFresh(zip: seq<byte> -> seq<byte>, s: Scheduler, mtu: int): bool {
    mtu >= 1 && PopFrame(zip, s.messageQueue, mtu).frame.Some?
  }

  function TracedStep(zip: seq<byte> -> seq<byte>, times: int, t: Traced, step: Step): Traced {
    match step
    case SendMessage(id, source, message) =>
      t.(s := t.s.(messageQueue := t.s.messageQueue + [NewQueue(id, source, message)]))
    case Broadcast(mtu) =>
      var (s, sent) := BroadcastStep(zip, times, t.s, mtu);
      if sent.None? then t.(s := s)
      else
        t.(s := s, sent := t.sent + multiset{sent.value},
           cut := if IsFresh(zip, t.s, mtu) then t.cut + multiset{sent.value} else t.cut)
    case Inbound(f) =>
      var (s, queued) := InboundStep(t.s, f);
      t.(s := s, queued := if queued then t.queued + multiset{f} else t.queued)
  }

  function Execute(zip: seq<byte> -> seq<byte>, times: int, steps: seq<Step>): Traced {
    if steps == [] then START
    else TracedStep(zip, times, Execute(zip, times, steps[..|steps| - 1]), steps[|steps| - 1])
  }

  /** Sent so far plus still owed is the transmission count for every time a frame was introduced. */
  ghost predicate Conserved(times: int, t: Traced) {
    forall f :: Balanced(times, t, f)
  }

  ghost predicate Balanced(times: int, t: Traced, f: Frame) {
    t.sent[f] + Owed(times, t.s.retransmitQueue, f) == AtLeastOne(times) * (t.cut[f] + t.queued[f])
  }

  lemma BroadcastBalances(zip: seq<byte> -> seq<byte>, times: int, t: Traced, mtu: int, f: Frame)
    requires Balanced(times, t, f)
    ensures Balanced(times, TracedStep(zip, times, t, Broadcast(mtu)), f)
  {
    var (s, sent) := BroadcastStep(zip, times, t.s, mtu);
    var t', q := TracedStep(zip, times, t, Broadcast(mtu)), t.s.retransmitQueue;
    if sent.None? {
      assert s.retransmitQueue == q;
    } else if IsFresh(zip, t.s, mtu) {
      EnqueueOwes(times, q, Retransmission(sent.value, 1), f);
      DistributeOne(AtLeastOne(times), t.cut[f] + t.queued[f]);
      assert t'.sent[f] == t.sent[f] + (if f == sent.value then 1 else 0);
      assert t'.cut[f] == t.cut[f] + (if f == sent.value then 1 else 0);
    } else {
      RetransmitOwes(times, q, f);
      assert s.retransmitQueue == AfterRetransmit(times, q) && sent.value == q[0].frame;
      assert t'.sent[f] == t.sent[f] + (if f == sent.value then 1 else 0);
    }
  }

  lemma InboundBalances(zip: seq<byte> -> seq<byte>, times: int, t: Traced, g: Frame, f: Frame)
    requires Balanced(times, t, f)
    ensures Balanced(times, TracedStep(zip, times, t, Inbound(g)), f)
  {
    var t' := TracedStep(zip, times, t, Inbound(g));
    EnqueueOwes(times, t.s.retransmitQueue, Retransmission(g, 0), f);
    DistributeOne(AtLeastOne(times), t.cut[f] + t.queued[f]);
    if InboundStep(t.s, g).1 {
      assert t'.queued[f] == t.queued[f] + (if f == g then 1 else 0);
    }
  }

  lemma DistributeOne(a: nat, b: nat)
    ensures a * (b + 1) == a * b + a
  {
  }

  /** In every run, whatever the order of sends, broadcasts and arrivals. */
  lemma {:induction false} TransmissionsConserved(zip: seq<byte> -> seq<byte>, times: int, steps: seq<Step>)
    ensures Conserved(times, Execute(zip, times, steps))
  {
    if steps == [] {
    } else {
      var t, step := Execute(zip, times, steps[..|steps| - 1]), steps[|steps| - 1];
      TransmissionsConserved(zip, times, steps[..|steps| - 1]);
      forall f ensures Balanced(times, TracedStep(zip, times, t, step), f) {
        assert Balanced(times, t, f);
        match step
        case SendMessage(_, _, _) =>
        case Broadcast(mtu) => BroadcastBalances(zip, times, t, mtu, f);
        case Inbound(g) => InboundBalances(zip, times, t, g, f);
      }
    }
  }

  // ---------- Every frame is introduced once ----------

  ghost function SentIds(steps: seq<Step>): set<Uuid> { set s | s in steps && s.SendMessage? :: s.id }

  /** Stream ids are fresh UUIDs: no two sends share one, and no other node uses it. */
  ghost predicate UniqueStreams(steps: seq<Step>) {
    (forall i, j :: 0 <= i < j < |steps| && steps[i].SendMessage? && steps[j].SendMessage? ==> steps[i].id != steps[j].id) &&
    (forall i :: 0 <= i < |steps| && steps[i].Inbound? ==> steps[i].frame.streamId !in SentIds(steps))
  }

  /** Frame f was cut from a stream that has moved past it. */
  ghost predicate CutBefore(queue: seq<Queue>, sent: set<Uuid>, f: Frame) {
    f.streamId in sent && forall k :: 0 <= k < |queue| && queue[k].id == f.streamId ==> f.frameNumber < queue[k].frameNumber
  }

  ghost predicate Noted(seen: map<Uuid, set<uint16>>, own: set<Uuid>, f: Frame) {
    f.streamId !in own && f.streamId in seen && f.frameNumber in seen[f.streamId]
  }

  ghost predicate DistinctQueues(queue: seq<Queue>, sent: set<Uuid>) {
    (forall k :: 0 <= k < |queue| ==> queue[k].id in sent) &&
    (forall j, k :: 0 <= j < k < |queue| ==> queue[j].id != queue[k].id)
  }

  ghost predicate CutOnce(queue: seq<Queue>, cut: multiset<Frame>, sent: set<Uuid>) {
    DistinctQueues(queue, sent) && forall f :: f in cut ==> cut[f] == 1 && CutBefore(queue, sent, f)
  }

  ghost predicate QueuedOnce(seen: map<Uuid, set<uint16>>, queued: multiset<Frame>, own: set<Uuid>) {
    forall f :: f in queued ==> queued[f] == 1 && Noted(seen, own, f)
  }

  /** The popped queue drops some finished messages and moves at most its head forward by the popped frame. */
  lemma {:induction false} PopFrameFacts(zip: seq<byte> -> seq<byte>, queue: seq<Queue>, mtu: nat) returns (k: nat)
    ensures
      var p := PopFrame(zip, queue, mtu);
      if p.frame.Some? then
        k < |queue| && p.queue != [] && p.queue[1..] == queue[k + 1..] &&
        p.queue[0].id == queue[k].id && p.queue[0].frameNumber == queue[k].frameNumber + 1 &&
        p.frame.value.streamId == queue[k].id && p.frame.value.frameNumber == queue[k].frameNumber
      else
        k <= |queue| && p.queue == queue[k..]
  {
    if queue == [] {
      k := 0;
    } else {
      match NextStep(zip, queue[0], mtu)
      case (q, Ok(f)) => k := 0;
      case (_, Err(EndOfQueue)) =>
        var m := PopFrameFacts(zip, queue[1..], mtu);
        k := m + 1;
        if PopFrame(zip, queue, mtu).frame.Some? {
          assert queue[1..][m + 1..] == queue[k + 1..];
        } else {
          assert queue[1..][m..] == queue[k..];
        }
      case (_, Err(_)) => k := 1;
    }
  }

  lemma MoveOnKeepsOnce(queue: seq<Queue>, k: nat, q: Queue, cut: multiset<Frame>, sent: set<Uuid>, f: Frame)
    requires CutOnce(queue, cut, sent) && k < |queue|
    requires q.id == queue[k].id == f.streamId && q.frameNumber == queue[k].frameNumber + 1 == f.frameNumber + 1
    ensures CutOnce([q] + queue[k + 1..], cut + multiset{f}, sent)
  {
    assert !CutBefore(queue, sent, f);
    assert f !in cut;
  }

  lemma PopKeepsOnce(zip: seq<byte> -> seq<byte>, queue: seq<Queue>, cut: multiset<Frame>, sent: set<Uuid>, mtu: nat)
    requires CutOnce(queue, cut, sent)
    ensures
      var p := PopFrame(zip, queue, mtu);
      CutOnce(p.queue, if p.frame.Some? then cut + multiset{p.frame.value} else cut, sent)
  {
    var p := PopFrame(zip, queue, mtu);
    var k := PopFrameFacts(zip, queue, mtu);
    if p.frame.Some? {
      MoveOnKeepsOnce(queue, k, p.queue[0], cut, sent, p.frame.value);
      assert p.queue == [p.queue[0]] + p.queue[1..];
    }
  }

  lemma SendKeepsOnce(queue: seq<Queue>, cut: multiset<Frame>, sent: set<Uuid>, q: Queue)
    requires CutOnce(queue, cut, sent) && q.id !in sent
    ensures CutOnce(queue + [q], cut, sent + {q.id})
  {
  }

  lemma InboundKeepsOnce(s: Scheduler, queued: multiset<Frame>, own: set<Uuid>, g: Frame)
    requires QueuedOnce(s.framesSeen, queued, own) && g.streamId !in own
    ensures
      var (s', q) := InboundStep(s, g);
      s'.messageQueue == s.messageQueue &&
      QueuedOnce(s'.framesSeen, if q then queued + multiset{g} else queued, own)
  {
    if g in queued { assert Noted(s.framesSeen, own, g); }
  }

  lemma BroadcastKeepsOnce(zip: seq<byte> -> seq<byte>, times: int, t: Traced, sent: set<Uuid>, mtu: int)
    requires CutOnce(t.s.messageQueue, t.cut, sent)
    ensures
      var t' := TracedStep(zip, times, t, Broadcast(mtu));
      CutOnce(t'.s.messageQueue, t'.cut, sent) && t'.s.framesSeen == t.s.framesSeen && t'.queued == t.queued
  {
    if mtu >= 1 {
      PopKeepsOnce(zip, t.s.messageQueue, t.cut, sent, mtu);
      BroadcastShape(zip, times, t.s, mtu);
    }
  }

  lemma BroadcastShape(zip: seq<byte> -> seq<byte>, times: int, s: Scheduler, mtu: int)
    requires mtu >= 1
    ensures
      var p, (s', sent) := PopFrame(zip, s.messageQueue, mtu), BroadcastStep(zip, times, s, mtu);
      s'.messageQueue == p.queue && s'.framesSeen == s.framesSeen && (p.frame.Some? ==> sent == p.frame)
  {
  }

  lemma {:induction false} FramesIntroducedOnce(zip: seq<byte> -> seq<byte>, times: int, steps: seq<Step>, own: set<Uuid>)
    requires UniqueStreams(steps)
    requires forall i :: 0 <= i < |steps| && steps[i].Inbound? ==> steps[i].frame.streamId !in own
    ensures
      var t := Execute(zip, times, steps);
      CutOnce(t.s.messageQueue, t.cut, SentIds(steps)) && QueuedOnce(t.s.framesSeen, t.queued, own)
  {
    if steps != [] {
      var n := |steps| - 1;
      var before, step := steps[..n], steps[n];
      SplitLast(steps);
      FramesIntroducedOnce(zip, times, before, own);
      var t := Execute(zip, times, before);
      match step
      case SendMessage(id, source, message) =>
        SendKeepsOnce(t.s.messageQueue, t.cut, SentIds(before), NewQueue(id, source, message));
      case Broadcast(mtu) => BroadcastKeepsOnce(zip, times, t, SentIds(before), mtu);
      case Inbound(g) => InboundKeepsOnce(t.s, t.queued, own, g);
    }
  }

  lemma SplitLast(steps: seq<Step>)
    requires steps != [] && UniqueStreams(steps)
    ensures
      var before, step := steps[..|steps| - 1], steps[|steps| - 1];
      UniqueStreams(before) &&
      SentIds(steps) == SentIds(before) + (if step.SendMessage? then {step.id} else {}) &&
      (step.SendMessage? ==> step.id !in SentIds(before))
  {
    var before, step := steps[..|steps| - 1], steps[|steps| - 1];
    assert steps == before + [step];
    assert forall i :: 0 <= i < |before| ==> before[i] == steps[i];
    assert SentIds(before) <= SentIds(steps);
  }

  /**
    With fresh stream ids, no own frame and no queued foreign frame is ever sent more often than the
    transmission count, and once the retransmission queue is empty each was sent exactly that often.
   */
  lemma SentAtMostExactlyWhenDrained(zip: seq<byte> -> seq<byte>, times: int, steps: seq<Step>, f: Frame)
    requires UniqueStreams(steps)
    ensures
      var t := Execute(zip, times, steps);
      t.sent[f] <= AtLeastOne(times) &&
      (t.s.retransmitQueue == [] && (f in t.cut || f in t.queued) ==> t.sent[f] == AtLeastOne(times)) &&
      (f !in t.cut && f !in t.queued ==> t.sent[f] == 0)
  {
    var t := Execute(zip, times, steps);
    IntroducedAtMostOnce(zip, times, steps, f);
    assert Balanced(times, t, f) by { TransmissionsConserved(zip, times, steps); }
    OneOrNothing(t.sent[f], Owed(times, t.s.retransmitQueue, f), AtLeastOne(times), t.cut[f] + t.queued[f]);
  }

  lemma OneOrNothing(sent: nat, owed: nat, a: nat, n: nat)
    requires sent + owed == a * n && n <= 1
    ensures sent <= a && (owed == 0 && n == 1 ==> sent == a) && (n == 0 ==> sent == 0)
  {
  }

  lemma IntroducedAtMostOnce(zip: seq<byte> -> seq<byte>, times: int, steps: seq<Step>, f: Frame)
    requires UniqueStreams(steps)
    ensures Execute(zip, times, steps).cut[f] + Execute(zip, times, steps).queued[f] <= 1
  {
    var t := Execute(zip, times, steps);
    FramesIntroducedOnce(zip, times, steps, SentIds(steps));
    if f in t.queued {
      assert Noted(t.s.framesSeen, SentIds(steps), f);
    }
    if f in t.cut {
      assert CutBefore(t.s.messageQueue, SentIds(steps), f);
    }
  }

  // ---------- The queues drain ----------

  /** An upper bound on the broadcasts a message can still cause. */
  function FrameWork(times: int, frameNumber: nat): nat
    decreases MAX_FRAME_COUNT - frameNumber
  {
    if frameNumber >= MAX_FRAME_COUNT then 1 else AtLeastOne(times) + FrameWork(times, frameNumber + 1)
  }

  function MessageWork(times: int, queue: seq<Queue>): nat {
    if queue == [] then 0 else FrameWork(times, queue[0].frameNumber) + MessageWork(times, queue[1..])
  }

  function RetransmitWork(times: int, queue: seq<Retransmission>): nat {
    if queue == [] then 0 else EntryOwes(times, queue[0]) + RetransmitWork(times, queue[1..])
  }

  function Work(times: int, s: Scheduler): nat {
    MessageWork(times, s.messageQueue) + RetransmitWork(times, s.retransmitQueue)
  }

  lemma {:induction false} RetransmitWorkAppend(times: int, queue: seq<Retransmission>, r: Retransmission)
    ensures RetransmitWork(times, queue + [r]) == RetransmitWork(times, queue) + EntryOwes(times, r)
  {
    if queue == [] {
      assert [] + [r] == [r] && [r][1..] == [];
    } else {
      assert (queue + [r])[1..] == queue[1..] + [r];
      RetransmitWorkAppend(times, queue[1..], r);
    }
  }

  lemma {:induction false} PopReducesWork(zip: seq<byte> -> seq<byte>, times: int, queue: seq<Queue>, mtu: nat)
    ensures
      var p := PopFrame(zip, queue, mtu);
      if p.frame.Some? then MessageWork(times, p.queue) + AtLeastOne(times) <= MessageWork(times, queue)
      else if p.gaveUp then MessageWork(times, p.queue) < MessageWork(times, queue)
      else p.queue == []
  {
    if queue != [] {
      match NextStep(zip, queue[0], mtu)
      case (q, Ok(f)) =>
        assert ([q] + queue[1..])[1..] == queue[1..];
      case (_, Err(EndOfQueue)) => PopReducesWork(zip, times, queue[1..], mtu);
      case (_, Err(_)) =>
    }
  }

  /** Every broadcast with room for a frame brings a busy scheduler strictly closer to idle. */
  lemma BroadcastReducesWork(zip: seq<byte> -> seq<byte>, times: int, s: Scheduler, mtu: int)
    requires mtu >= 1 && !(s.messageQueue == [] && s.retransmitQueue == [])
    ensures Work(times, BroadcastStep(zip, times, s, mtu).0) < Work(times, s)
  {
    PopReducesWork(zip, times, s.messageQueue, mtu);
    var p, q := PopFrame(zip, s.messageQueue, mtu), s.retransmitQueue;
    if p.frame.Some? {
      RetransmitWorkAppend(times, q, Retransmission(p.frame.value, 1));
    } else if !p.gaveUp && q != [] {
      var head := q[0].(transmitCount := q[0].transmitCount + 1);
      assert ([head] + q[1..])[1..] == q[1..];
      assert [] + q[1..] == q[1..];
    }
  }

  function BroadcastAll(zip: seq<byte> -> seq<byte>, times: int, s: Scheduler, mtus: seq<int>): Scheduler
    decreases |mtus|
  {
    if mtus == [] then s else BroadcastAll(zip, times, BroadcastStep(zip, times, s, mtus[0]).0, mtus[1..])
  }

  /** With no new traffic, both queues are empty after at most Work(s) broadcasts, whatever their MTUs. */
  lemma {:induction false} QueuesDrain(zip: seq<byte> -> seq<byte>, times: int, s: Scheduler, mtus: seq<int>)
    requires forall i :: 0 <= i < |mtus| ==> mtus[i] >= 1
    requires |mtus| >= Work(times, s)
    ensures
      var e := BroadcastAll(zip, times, s, mtus);
      e.messageQueue == [] && e.retransmitQueue == []
    decreases |mtus|
  {
    if s.messageQueue == [] && s.retransmitQueue == [] {
      if mtus != [] { QueuesDrain(zip, times, s, mtus[1..]); }
    } else {
      BroadcastReducesWork(zip, times, s, if mtus == [] then 1 else mtus[0]);
      QueuesDrain(zip, times, BroadcastStep(zip, times, s, mtus[0]).0, mtus[1..]);
    }
  }
}
