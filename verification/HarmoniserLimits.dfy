/**
  Two promises of the harmoniser that hold only under a condition: the retry limit on the requests sent for one
  marking, and the storing of genuine answers to backfill requests.
 */
module HarmoniserLimits {
  import opened Prelude
  import opened MissingEventCodec
  import opened EventIntake
  import opened EventBacklog
  import opened HarmoniserRuns

  // ---------- The retry limit ----------

  ghost predicate Marks(step: Step, id: EventId) { step.At? && step.id == id && step.step.Mark? }

  ghost predicate Refuses(step: Step, id: EventId) { step.At? && step.id == id && step.step.Count? && step.step.refused }

  /** What may follow a marking until the next, with or without counts that the store refuses. */
  ghost predicate Follows(id: EventId, refusals: bool, steps: seq<Step>) {
    forall i :: 0 <= i < |steps| ==> !Marks(steps[i], id) && (refusals || !Refuses(steps[i], id))
  }

  /** The requests sent since the last marking are within the limit. */
  ghost predicate WithinLimit(cfg: Config, w: World, id: EventId) { Modest(Limit(cfg), Of(w, id).log.wire) }

  /** Nothing late or uncounted was sent or is about to be. */
  ghost predicate Quiet(l: Life) {
    l.log.carried.None? && l.log.uncounted == [] && (l.inFlight.Some? ==> !l.inFlight.value.late && !l.inFlight.value.refused)
  }

  lemma LocalStaysQuiet(cfg: Config, id: EventId, l: Life, step: Local)
    requires Quiet(l) && !step.Mark? && !(step.Count? && step.refused)
    ensures Quiet(Lived(cfg, id, l, step))
  {
  }

  lemma StepStaysQuiet(c: Crypto, cfg: Config, w: World, step: Step, id: EventId)
    requires Quiet(Of(w, id)) && !Marks(step, id) && !Refuses(step, id)
    ensures Quiet(Of(Stepped(c, cfg, w, step), id))
  {
    if step.At? && step.id == id {
      LocalStaysQuiet(cfg, id, Of(w, id), step.step);
    }
  }

  lemma {:induction false} RunStaysQuiet(c: Crypto, cfg: Config, w: World, steps: seq<Step>, id: EventId)
    requires Quiet(Of(w, id)) && Follows(id, false, steps)
    ensures Quiet(Of(Run(c, cfg, w, steps), id))
  {
    if steps != [] {
      var n := |steps| - 1;
      RunStaysQuiet(c, cfg, w, steps[..n], id);
      StepStaysQuiet(c, cfg, Run(c, cfg, w, steps[..n]), steps[n], id);
    }
  }

  /** Marked while no request is in flight, and no count refused since: the limit holds. So does a limit of zero. */
  lemma LimitHolds(c: Crypto, cfg: Config, w: World, id: EventId, refusals: bool, steps: seq<Step>)
    requires Good(c, cfg, w, id) && Follows(id, refusals, steps)
    requires Limit(cfg) == 0 || (Quiet(Of(w, id)) && !refusals)
    ensures WithinLimit(cfg, Run(c, cfg, w, steps), id)
  {
    GoodStays(c, cfg, w, steps, id);
    if Limit(cfg) > 0 {
      RunStaysQuiet(c, cfg, w, steps, id);
    }
  }

  // ---------- Request after request ----------

  /** What the loop asks with next. */
  function NextKind(cfg: Config, m: MissingEvent): Kind {
    if cfg.tryUnicastFirst && !m.retriedUnicast then ByUnicast else ByMulticast
  }

  /** A moment by which an event is due. */
  function DueBy(cfg: Config, received: Time): int {
    received + if cfg.newEventIgnoreThreshold > cfg.eventRetryInterval then cfg.newEventIgnoreThreshold else cfg.eventRetryInterval
  }

  /** A marked event the loop may take up, `left` requests short of the limit. */
  ghost predicate Ready(cfg: Config, l: Life, left: nat) {
    Idle(l) && l.stored.None? && l.marker.Some? && Tells(l.marker.value, l.counted) && |l.counted| + left <= Limit(cfg) &&
    l.marker.value.lastRetryTime == l.marker.value.receivedTime
  }

  function OneRequest(cfg: Config, received: Time, refused: bool): seq<Local> {
    [Read, Handle(DueBy(cfg, received)), Count(received, refused), Send]
  }

  function Requests(cfg: Config, received: Time, refused: bool, k: nat): seq<Local> {
    if k == 0 then [] else Requests(cfg, received, refused, k - 1) + OneRequest(cfg, received, refused)
  }

  lemma LivesNext(cfg: Config, id: EventId, l: Life, steps: seq<Local>, step: Local)
    ensures Lives(cfg, id, l, steps + [step]) == Lived(cfg, id, Lives(cfg, id, l, steps), step)
  {
    assert (steps + [step])[..|steps|] == steps;
  }

  lemma {:induction false} LivesConcat(cfg: Config, id: EventId, l: Life, a: seq<Local>, b: seq<Local>)
    ensures Lives(cfg, id, l, a + b) == Lives(cfg, id, Lives(cfg, id, l, a), b)
    decreases |b|
  {
    if b == [] {
      assert a + b == a;
    } else {
      var rest, step := b[..|b| - 1], b[|b| - 1];
      LivesConcat(cfg, id, l, a, rest);
      LivesNext(cfg, id, l, a + rest, step);
      assert a + b == a + rest + [step];
    }
  }

  lemma TwoSteps(cfg: Config, id: EventId, l: Life, a: Local, b: Local)
    ensures Lives(cfg, id, l, [a, b]) == Lived(cfg, id, Lived(cfg, id, l, a), b)
  {
    assert [a, b][..1] == [a] && [a][..0] == [];
    assert Lives(cfg, id, l, [a]) == Lived(cfg, id, l, a);
  }

  lemma FourSteps(cfg: Config, id: EventId, l: Life, a: Local, b: Local, c: Local, d: Local)
    ensures Lives(cfg, id, l, [a, b, c, d]) ==
            Lived(cfg, id, Lived(cfg, id, Lived(cfg, id, Lived(cfg, id, l, a), b), c), d)
  {
    TwoSteps(cfg, id, l, a, b);
    TwoSteps(cfg, id, Lives(cfg, id, l, [a, b]), c, d);
    LivesConcat(cfg, id, l, [a, b], [c, d]);
    assert [a, b] + [c, d] == [a, b, c, d];
  }

  lemma ReadAndHandle(cfg: Config, id: EventId, l: Life, left: nat)
    requires Ready(cfg, l, left) && left > 0
    ensures
      var now := DueBy(cfg, l.marker.value.receivedTime);
      Lived(cfg, id, Lived(cfg, id, l, Read), Handle(now)) == l.(request := Some(NextKind(cfg, l.marker.value)))
  {
    assert Lived(cfg, id, l, Read) == l.(copy := l.marker);
  }

  lemma CountAndSend(cfg: Config, id: EventId, l: Life, left: nat, kind: Kind, refused: bool)
    requires Ready(cfg, l, left) && left > 0
    ensures
      var received := l.marker.value.receivedTime;
      var r := Lived(cfg, id, Lived(cfg, id, l.(request := Some(kind)), Count(received, refused)), Send);
      Ready(cfg, r, if refused then left else left - 1) && r.marker.value.receivedTime == received &&
      r.log.wire == l.log.wire + [kind] && (refused ==> r.marker == l.marker)
  {
  }

  /** Reading, judging, counting and sending is one more request sent; a refused one leaves the marker as it is. */
  lemma OneRequestSends(cfg: Config, id: EventId, l: Life, left: nat, refused: bool)
    requires Ready(cfg, l, left) && left > 0
    ensures
      var received := l.marker.value.receivedTime;
      var r := Lives(cfg, id, l, OneRequest(cfg, received, refused));
      Ready(cfg, r, if refused then left else left - 1) && r.marker.value.receivedTime == received &&
      r.log.wire == l.log.wire + [NextKind(cfg, l.marker.value)] && (refused ==> r.marker == l.marker)
  {
    var received := l.marker.value.receivedTime;
    FourSteps(cfg, id, l, Read, Handle(DueBy(cfg, received)), Count(received, refused), Send);
    ReadAndHandle(cfg, id, l, left);
    CountAndSend(cfg, id, l, left, NextKind(cfg, l.marker.value), refused);
  }

  lemma {:induction false} RequestsSend(cfg: Config, id: EventId, l: Life, received: Time, left: nat, refused: bool, k: nat)
    requires Ready(cfg, l, left) && received == l.marker.value.receivedTime && if refused then left > 0 else k <= left
    ensures
      var r := Lives(cfg, id, l, Requests(cfg, received, refused, k));
      Ready(cfg, r, if refused then left else left - k) && r.marker.value.receivedTime == received &&
      |r.log.wire| == |l.log.wire| + k && (refused ==> r.marker == l.marker) &&
      (refused ==> forall i :: |l.log.wire| <= i < |r.log.wire| ==> r.log.wire[i] == NextKind(cfg, l.marker.value))
  {
    if k > 0 {
      RequestsSend(cfg, id, l, received, left, refused, k - 1);
      LivesConcat(cfg, id, l, Requests(cfg, received, refused, k - 1), OneRequest(cfg, received, refused));
      OneRequestSends(cfg, id, Lives(cfg, id, l, Requests(cfg, received, refused, k - 1)),
                      if refused then left else left - k + 1, refused);
    }
  }

  // ---------- The exact condition ----------

  /** Steps on one event, as steps of the node. */
  function Ats(id: EventId, steps: seq<Local>): (r: seq<Step>)
    ensures |r| == |steps|
  {
    seq(|steps|, i requires 0 <= i < |steps| => At(id, steps[i]))
  }

  lemma {:induction false} RunAts(c: Crypto, cfg: Config, w: World, id: EventId, steps: seq<Local>)
    ensures Of(Run(c, cfg, w, Ats(id, steps)), id) == Lives(cfg, id, Of(w, id), steps)
  {
    if steps != [] {
      var n := |steps| - 1;
      RunAts(c, cfg, w, id, steps[..n]);
      assert Ats(id, steps)[..n] == Ats(id, steps[..n]);
    }
  }

  /**
    One request more than the limit: with one in flight, that one and then as many as the limit allows;
    otherwise one after the other that the store refuses to count.
   */
  function Excess(cfg: Config, received: Time, inFlight: bool): seq<Local> {
    [if inFlight then Send else Abandon, Expire] + Requests(cfg, received, !inFlight, if inFlight then Limit(cfg) else Limit(cfg) + 1)
  }

  lemma {:induction false} RequestsFollow(cfg: Config, id: EventId, received: Time, refused: bool, k: nat)
    ensures forall i :: 0 <= i < |Requests(cfg, received, refused, k)| ==>
              var step := Requests(cfg, received, refused, k)[i]; !step.Mark? && (step.Count? ==> step.refused == refused)
  {
    if k > 0 {
      RequestsFollow(cfg, id, received, refused, k - 1);
    }
  }

  lemma ExcessFollows(cfg: Config, id: EventId, received: Time, inFlight: bool)
    ensures Follows(id, !inFlight, Ats(id, Excess(cfg, received, inFlight)))
  {
    RequestsFollow(cfg, id, received, !inFlight, if inFlight then Limit(cfg) else Limit(cfg) + 1);
  }

  lemma ExcessExceeds(cfg: Config, id: EventId, l: Life, received: Time, height: int64)
    requires Bounded(cfg, l) && Limit(cfg) > 0
    ensures
      |Lives(cfg, id, Marked(id, l, received, height), Excess(cfg, received, l.inFlight.Some?)).log.wire| == Limit(cfg) + 1
  {
    var first := if l.inFlight.Some? then Send else Abandon;
    var m := Marked(id, l, received, height);
    var m2 := Lived(cfg, id, Lived(cfg, id, m, first), Expire);
    var k := if l.inFlight.Some? then Limit(cfg) else Limit(cfg) + 1;
    assert m2.marker == Some(NewMarker(id, received, height)) && Ready(cfg, m2, Limit(cfg));
    TwoSteps(cfg, id, m, first, Expire);
    LivesConcat(cfg, id, m, [first, Expire], Requests(cfg, received, l.inFlight.None?, k));
    RequestsSend(cfg, id, m2, received, Limit(cfg), l.inFlight.None?, k);
  }

  /** Otherwise some continuation exceeds it. */
  lemma LimitFails(c: Crypto, cfg: Config, w: World, id: EventId, received: Time, height: int64) returns (after: seq<Step>)
    requires Good(c, cfg, w, id) && Limit(cfg) > 0
    ensures Follows(id, Of(w, id).inFlight.None?, after)
    ensures !WithinLimit(cfg, Run(c, cfg, Put(w, id, Marked(id, Of(w, id), received, height)), after), id)
  {
    var l := Of(w, id);
    var steps := Excess(cfg, received, l.inFlight.Some?);
    after := Ats(id, steps);
    ExcessFollows(cfg, id, received, l.inFlight.Some?);
    ExcessExceeds(cfg, id, l, received, height);
    RunAts(c, cfg, Put(w, id, Marked(id, l, received, height)), id, steps);
  }

  /**
    The exact condition, in every run: once an event is marked, the requests sent stay within the limit,
    whatever the node does until the event is marked again, exactly when no request for it was in flight and
    the store refuses no count; or when the limit is zero, and nothing is ever requested.
   */
  lemma LimitHoldsExactly(c: Crypto, cfg: Config, before: seq<Step>, id: EventId, received: Time, height: int64, refusals: bool)
    ensures
      var w := Run(c, cfg, START, before);
      var m := Stepped(c, cfg, w, At(id, Mark(received, height)));
      Limit(cfg) == 0 || (Of(w, id).inFlight.None? && !refusals) <==>
      forall after :: Follows(id, refusals, after) ==> WithinLimit(cfg, Run(c, cfg, m, after), id)
  {
    var w := Run(c, cfg, START, before);
    var m := Stepped(c, cfg, w, At(id, Mark(received, height)));
    ReachableIsGood(c, cfg, before, id);
    if Limit(cfg) == 0 || (Of(w, id).inFlight.None? && !refusals) {
      StepKeepsGood(c, cfg, w, At(id, Mark(received, height)), id);
      forall after | Follows(id, refusals, after) ensures WithinLimit(cfg, Run(c, cfg, m, after), id) {
        LimitHolds(c, cfg, m, id, refusals, after);
      }
    } else {
      var after := LimitFails(c, cfg, w, id, received, height);
      assert Follows(id, refusals, after) && !WithinLimit(cfg, Run(c, cfg, m, after), id);
    }
  }

  /** An event whose requests the store refuses to count is asked for by unicast again and again, without end. */
  lemma UnicastsWithoutEnd(cfg: Config, id: EventId, t: Time, k: nat)
    requires cfg.eventMaxRetries > 0 && cfg.tryUnicastFirst
    ensures
      var r := Lives(cfg, id, UNSEEN, [Mark(t, 0), Expire] + Requests(cfg, t, true, k));
      |r.log.wire| == k && (forall i :: 0 <= i < k ==> r.log.wire[i].ByUnicast?) && r.marker == Some(NewMarker(id, t, 0))
  {
    var m := Lived(cfg, id, Lived(cfg, id, UNSEEN, Mark(t, 0)), Expire);
    TwoSteps(cfg, id, UNSEEN, Mark(t, 0), Expire);
    LivesConcat(cfg, id, UNSEEN, [Mark(t, 0), Expire], Requests(cfg, t, true, k));
    RequestsSend(cfg, id, m, t, 1, true, k);
  }

  function CountedOnce(t: Time): seq<Local> { [Mark(t, 0), Read, Handle(t), Count(t, false)] }

  function MarkedAgain(t: Time): seq<Local> { [Mark(t, 0), Send] + [Read, Handle(t), Count(t, false), Send] }

  /** Delays that make an event due at once. */
  ghost predicate Immediate(cfg: Config) { cfg.newEventIgnoreThreshold <= 0 && cfg.eventRetryInterval <= 0 }

  lemma CountedOnceIsInFlight(cfg: Config, id: EventId, l: Life, t: Time)
    requires cfg.eventMaxRetries == 1 && cfg.tryUnicastFirst && Immediate(cfg) && Idle(l) && l.stored.None?
    ensures
      var r := Lives(cfg, id, l, CountedOnce(t));
      r.inFlight == Some(Flight(ByUnicast, false, false)) && r.stored.None? && r.copy.None? && r.request.None?
  {
    var l1 := Lived(cfg, id, Lived(cfg, id, l, Mark(t, 0)), Read);
    assert l1.copy == Some(NewMarker(id, t, 0));
    assert Lived(cfg, id, l1, Handle(t)).request == Some(ByUnicast);
    FourSteps(cfg, id, l, Mark(t, 0), Read, Handle(t), Count(t, false));
  }

  lemma MarkedAgainSendsTwo(cfg: Config, id: EventId, l: Life, t: Time)
    requires cfg.eventMaxRetries == 1 && cfg.tryUnicastFirst && Immediate(cfg)
    requires l.inFlight == Some(Flight(ByUnicast, false, false)) && l.stored.None? && l.copy.None? && l.request.None?
    ensures Lives(cfg, id, l, MarkedAgain(t)).log.wire == [ByUnicast, ByUnicast]
  {
    var l3 := Lived(cfg, id, Lived(cfg, id, l, Mark(t, 0)), Send);
    assert l3.log.wire == [ByUnicast] && l3.marker == Some(NewMarker(id, t, 0)) && Idle(l3);
    var l4 := Lived(cfg, id, Lived(cfg, id, l3, Read), Handle(t));
    assert l4.request == Some(ByUnicast) && l4.log == l3.log;
    TwoSteps(cfg, id, l, Mark(t, 0), Send);
    FourSteps(cfg, id, l3, Read, Handle(t), Count(t, false), Send);
    LivesConcat(cfg, id, l, [Mark(t, 0), Send], [Read, Handle(t), Count(t, false), Send]);
  }

  /** With one retry allowed, an event marked again between count and send is requested twice, by unicast both times. */
  lemma TwoUnicastsForOneRetry(cfg: Config, id: EventId, t: Time)
    requires cfg.eventMaxRetries == 1 && cfg.tryUnicastFirst && Immediate(cfg)
    ensures Limit(cfg) == 1 && Lives(cfg, id, UNSEEN, CountedOnce(t) + MarkedAgain(t)).log.wire == [ByUnicast, ByUnicast]
  {
    CountedOnceIsInFlight(cfg, id, UNSEEN, t);
    LivesConcat(cfg, id, UNSEEN, CountedOnce(t), MarkedAgain(t));
    MarkedAgainSendsTwo(cfg, id, Lives(cfg, id, UNSEEN, CountedOnce(t)), t);
  }

  // ---------- The backfill handler ----------

  ghost predicate WentThroughAt(c: Crypto, cfg: Config, steps: seq<Step>, k: nat)
    requires k < |steps|
  {
    steps[k].Backfill? ==> WentThrough(c, Run(c, cfg, START, steps[..k]), steps[k])
  }

  /** Every answer so far was genuine by the chain of its moment, and was stored and cleared. */
  ghost predicate AllWentThrough(c: Crypto, cfg: Config, steps: seq<Step>) {
    forall k :: 0 <= k < |steps| ==> WentThroughAt(c, cfg, steps, k)
  }

  lemma WentThroughLast(c: Crypto, cfg: Config, steps: seq<Step>)
    requires steps != []
    ensures AllWentThrough(c, cfg, steps) <==>
            AllWentThrough(c, cfg, steps[..|steps| - 1]) && WentThroughAt(c, cfg, steps, |steps| - 1)
  {
    var before := steps[..|steps| - 1];
    forall k | 0 <= k < |before| ensures WentThroughAt(c, cfg, steps, k) <==> WentThroughAt(c, cfg, before, k) {
      assert steps[..k] == before[..k];
    }
    if AllWentThrough(c, cfg, steps) {
      forall k | 0 <= k < |before| ensures WentThroughAt(c, cfg, before, k) {
        assert WentThroughAt(c, cfg, steps, k);
      }
    }
  }

  lemma OnlyBackfillsStopBackfills(c: Crypto, cfg: Config, w: World, step: Step)
    ensures Stepped(c, cfg, w, step).backfillAlive == (w.backfillAlive && (step.Backfill? ==> WentThrough(c, w, step)))
  {
  }

  /** In every run, the handler is alive exactly while every answer has gone through. */
  lemma {:induction false} AliveExactlyWhenAllWentThrough(c: Crypto, cfg: Config, steps: seq<Step>)
    ensures Run(c, cfg, START, steps).backfillAlive <==> AllWentThrough(c, cfg, steps)
  {
    if steps != [] {
      var before, step := steps[..|steps| - 1], steps[|steps| - 1];
      AliveExactlyWhenAllWentThrough(c, cfg, before);
      WentThroughLast(c, cfg, steps);
      OnlyBackfillsStopBackfills(c, cfg, Run(c, cfg, START, before), step);
    }
  }

  /** A genuine answer is stored exactly when every answer before it went through; otherwise it changes nothing. */
  lemma GenuineAnswerStoredExactly(c: Crypto, cfg: Config, steps: seq<Step>, answer: Step)
    requires answer.Backfill? && !answer.storeFails && AnswerHolds(c, Run(c, cfg, START, steps), answer)
    ensures
      var w, r := Run(c, cfg, START, steps), Run(c, cfg, START, steps + [answer]);
      r.lives == if AllWentThrough(c, cfg, steps) then StoreAnswer(c, w, answer).lives else w.lives
  {
    AliveExactlyWhenAllWentThrough(c, cfg, steps);
    assert (steps + [answer])[..|steps|] == steps;
  }

  /** One bad answer is enough: the good one after it is not stored, though it would have been without. */
  lemma OneBadAnswerIsEnough(c: Crypto, cfg: Config, steps: seq<Step>, bad: Step, good: Step)
    requires bad.Backfill? && !AnswerHolds(c, Run(c, cfg, START, steps), bad)
    requires good.Backfill? && !good.storeFails && AnswerHolds(c, Run(c, cfg, START, steps), good)
    requires AllWentThrough(c, cfg, steps)
    ensures
      var id := good.msg.eventId;
      Of(Run(c, cfg, START, steps + [good]), id).stored.Some? &&
      Of(Run(c, cfg, START, steps + [bad] + [good]), id) == Of(Run(c, cfg, START, steps), id)
  {
    GenuineAnswerStoredExactly(c, cfg, steps, good);
    AliveExactlyWhenAllWentThrough(c, cfg, steps);
    assert (steps + [bad])[..|steps|] == steps && (steps + [bad] + [good])[..|steps| + 1] == steps + [bad];
  }
}
