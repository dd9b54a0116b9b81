/**
  What the steps of a run come down to, told from the inputs: what the loop decides about an event, on what
  evidence data is stored, and that storing leads to the marker's removal.
 */
module HarmoniserEvidence {
  import opened Prelude
  import opened EventIntake
  import opened EventBacklog
  import opened HarmoniserRuns

  // ---------- What the loop decides ----------

  /** The loop asks for an event that is not stored and due, and drops the marker of one that is stored or hopeless. */
  lemma HandleDecides(cfg: Config, id: EventId, l: Life, now: int)
    requires l.copy.Some?
    ensures
      var r, m := Lived(cfg, id, l, Handle(now)), l.copy.value;
      r == l.(
        copy := None,
        request :=
          if l.stored.None? && Due(cfg, m, now) then Some(if UnicastIsNext(cfg, m) then ByUnicast else ByMulticast) else l.request,
        marker := if l.stored.Some? || Hopeless(cfg, m, now) then None else l.marker,
        givenUp := l.givenUp || (l.stored.None? && Hopeless(cfg, m, now)))
  {
  }

  /** In every run, an event that is stored is not asked for when its turn comes, and its marker goes, whatever the copy says. */
  lemma StoredIsNotAskedFor(c: Crypto, cfg: Config, steps: seq<Step>, id: EventId, now: int)
    requires
      var l := Of(Run(c, cfg, START, steps), id);
      l.copy.Some? && l.stored.Some?
    ensures
      var r := Of(Run(c, cfg, START, steps + [At(id, Handle(now))]), id);
      r.request.None? && r.inFlight.None? && r.marker.None?
  {
    ReachableIsGood(c, cfg, steps, id);
    assert (steps + [At(id, Handle(now))])[..|steps|] == steps;
    HandleDecides(cfg, id, Of(Run(c, cfg, START, steps), id), now);
  }

  // ---------- On what evidence data is stored ----------

  /** The chain has promised this data for this event under this transaction. */
  ghost predicate Promised(c: Crypto, w: World, id: EventId, tx: TxHash, data: Data) {
    tx in w.chain && w.chain[tx].eventId == id && w.chain[tx].offChainHash == c.hash(data)
  }

  /** The author of a submission is the event's, and signed the data's hash with the key on chain. */
  ghost predicate SignedByAuthor(c: Crypto, w: World, req: SubmitRequest) {
    req.txHash in w.chain && w.chain[req.txHash].principal == req.principal && req.principal in w.keys &&
    req.signature.Some? && c.verify(w.keys[req.principal], c.hash(req.data), req.signature.value)
  }

  /** A submission with both lookups working. */
  ghost predicate GoodSubmission(c: Crypto, w: World, step: Step) {
    step.Submit? && !step.keyFails && !step.eventFails &&
    Promised(c, w, step.req.eventId, step.req.txHash, step.req.data) && SignedByAuthor(c, w, step.req)
  }

  ghost predicate GoodAnswer(c: Crypto, w: World, step: Step) {
    step.Backfill? && !step.eventFails && Promised(c, w, step.msg.eventId, step.msg.txHash, step.msg.data)
  }

  /** The step stores this data for this event. */
  ghost predicate Stores(c: Crypto, w: World, step: Step, id: EventId, s: StoredEvent) {
    (GoodSubmission(c, w, step) && !step.storeFails && step.req.eventId == id &&
     s == StoredEvent(w.chain[step.req.txHash], step.req.data, step.req.txHash)) ||
    (GoodAnswer(c, w, step) && w.backfillAlive && !step.storeFails && step.msg.eventId == id &&
     s == StoredEvent(w.chain[step.msg.txHash], step.msg.data, step.msg.txHash))
  }

  lemma SubmissionIsGood(c: Crypto, w: World, step: Step)
    requires step.Submit?
    ensures GoodSubmission(c, w, step) <==>
            Genuine(c, step.req, Answer(w.keys, step.req.principal, step.keyFails), Answer(w.chain, step.req.txHash, step.eventFails))
  {
  }

  lemma AnswerIsGood(c: Crypto, w: World, step: Step)
    requires step.Backfill?
    ensures GoodAnswer(c, w, step) <==> AnswerHolds(c, w, step)
  {
  }

  /** A step leaves the data of an event as it was, expires it, or stores it on evidence where there was none. */
  lemma StepStores(c: Crypto, cfg: Config, w: World, step: Step, id: EventId)
    ensures
      var before, after := Of(w, id).stored, Of(Stepped(c, cfg, w, step), id).stored;
      if before.None? && exists s :: Stores(c, w, step, id, s) then after.Some? && Stores(c, w, step, id, after.value)
      else if step == At(id, Expire) then after.None?
      else after == before
  {
    match step
    case Submit(req, _, _, _, _) =>
      SubmissionIsGood(c, w, step);
      if GoodSubmission(c, w, step) && !step.storeFails && req.eventId == id {
        assert Stores(c, w, step, id, StoredEvent(w.chain[req.txHash], req.data, req.txHash));
      }
    case Backfill(msg, _, _, _) =>
      AnswerIsGood(c, w, step);
      if GoodAnswer(c, w, step) && w.backfillAlive && !step.storeFails && msg.eventId == id {
        assert Stores(c, w, step, id, StoredEvent(w.chain[msg.txHash], msg.data, msg.txHash));
      }
    case At(at, local) => if at == id { LocalKeepsStored(cfg, id, Of(w, id), local); }
    case _ =>
  }

  lemma LocalKeepsStored(cfg: Config, id: EventId, l: Life, local: Local)
    ensures Lived(cfg, id, l, local).stored == if local.Expire? then None else l.stored
  {
  }

  ghost predicate StoredAt(c: Crypto, cfg: Config, steps: seq<Step>, k: nat, id: EventId, s: StoredEvent) {
    k < |steps| && Stores(c, Run(c, cfg, START, steps[..k]), steps[k], id, s)
  }

  /**
    In every run, whatever data is stored for an event came from one step of it: a submission signed by the
    event's author or an answer to a backfill request, and the chain of that moment had promised it.
   */
  lemma {:induction false} StoredOnEvidence(c: Crypto, cfg: Config, steps: seq<Step>, id: EventId) returns (k: nat)
    ensures
      var s := Of(Run(c, cfg, START, steps), id).stored;
      s.Some? ==> StoredAt(c, cfg, steps, k, id, s.value)
  {
    if steps == [] {
      k := 0;
    } else {
      var n := |steps| - 1;
      var w := Run(c, cfg, START, steps[..n]);
      k := StoredOnEvidence(c, cfg, steps[..n], id);
      StepStores(c, cfg, w, steps[n], id);
      if Of(w, id).stored.None? {
        k := n;
      } else if k < n {
        assert steps[..n][..k] == steps[..k];
      }
    }
  }

  // ---------- Storing and clearing ----------

  /** The step stores or confirms the data, and sets about removing the marker. */
  ghost predicate Delivers(c: Crypto, w: World, step: Step, id: EventId) {
    (GoodSubmission(c, w, step) && step.req.eventId == id && !step.storeFails && !step.clearFails) ||
    (GoodAnswer(c, w, step) && w.backfillAlive && step.msg.eventId == id && !step.storeFails && !step.clearFails)
  }

  /**
    A submission or an answer that goes through, followed by the removal it sets about: the data is stored,
    that which was there before if there was any, and the marker is gone.
   */
  lemma DeliveredThenCleared(c: Crypto, cfg: Config, w: World, step: Step, id: EventId)
    requires Delivers(c, w, step, id)
    ensures
      var before, after := Of(w, id), Of(Run(c, cfg, w, [step, At(id, Clear)]), id);
      after.marker.None? && after.stored.Some? &&
      (if before.stored.Some? then after.stored == before.stored else Stores(c, w, step, id, after.stored.value))
  {
    var w1 := Stepped(c, cfg, w, step);
    if step.Submit? {
      SubmissionIsGood(c, w, step);
    } else {
      AnswerIsGood(c, w, step);
    }
    RunTwo(c, cfg, w, step, At(id, Clear));
  }

  lemma RunTwo(c: Crypto, cfg: Config, w: World, a: Step, b: Step)
    ensures Run(c, cfg, w, [a, b]) == Stepped(c, cfg, Stepped(c, cfg, w, a), b)
  {
    assert [a, b][..1] == [a] && [a][..0] == [];
    assert Run(c, cfg, w, []) == w;
    assert Run(c, cfg, w, [a]) == Stepped(c, cfg, w, a);
  }
}
