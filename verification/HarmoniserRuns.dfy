/**
  The life of missing-event markers over whole runs. Markers are set from the chain, read and judged by copies
  that may be out of date, counted and then requested, and cleared by two intake paths, all interleaved at
  will. Every store operation concerns one event id, so the shared state is kept by event id.
 */
module HarmoniserRuns {
  import opened Prelude
  import opened MissingEventCodec
  import opened EventIntake
  import opened EventBacklog

  datatype Kind = ByUnicast | ByMulticast

  /**
    A request about to be sent. It was counted before that, unless the store refused to; it is late once its id
    has been marked anew.
   */
  datatype Flight = Flight(kind: Kind, refused: bool, late: bool)

  /**
    The requests sent since an id was last marked, in order (`wire`): at most one late one (`carried`), those
    that the store had counted (`sent`), and those it had refused to count (`uncounted`).
   */
  datatype Log = Log(carried: Option<Kind>, sent: seq<Kind>, uncounted: seq<Kind>, wire: seq<Kind>)

  const NOTHING_SENT: Log := Log(None, [], [], [])

  function Logged(log: Log, f: Flight): Log {
    var log := log.(wire := log.wire + [f.kind]);
    if f.late then log.(carried := Some(f.kind))
    else if f.refused then log.(uncounted := log.uncounted + [f.kind])
    else log.(sent := log.sent + [f.kind])
  }

  /**
    One event id: its marker, its data in the repository, the marker removals under way, the backfill loop's
    copy of the marker, the request it has decided on and the one it is about to send. And what has happened
    to it: whether it was ever marked, stored or given up; the requests counted since it was last marked, and
    the most for one marking; and the log of the requests sent.
   */
  datatype Life = Life(
    marker: Option<MissingEvent>,
    stored: Option<StoredEvent>,
    clearing: nat,
    copy: Option<MissingEvent>,
    request: Option<Kind>,
    inFlight: Option<Flight>,
    everMarked: bool,
    everStored: bool,
    givenUp: bool,
    counted: seq<Kind>,
    most: nat,
    log: Log)

  const UNSEEN: Life := Life(None, None, 0, None, None, None, false, false, false, [], 0, NOTHING_SENT)

  datatype World = World(
    chain: map<TxHash, ChainEvent>, keys: map<Principal, seq<byte>>, backfillAlive: bool, lives: map<EventId, Life>)

  const START: World := World(map[], map[], true, map[])

  function Of(w: World, id: EventId): Life { if id in w.lives then w.lives[id] else UNSEEN }

  // ---------- Steps on one event ----------

  datatype Local =
    | Mark(received: Time, height: int64)
    | Clear
    | Expire
    | Read
    | Handle(now: int)
    | Count(at: Time, refused: bool)
    | Send
    | Abandon

  function NewMarker(id: EventId, received: Time, height: int64): MissingEvent {
    MissingEvent(id, received, height, received, false, 0)
  }

  function Lived(cfg: Config, id: EventId, l: Life, step: Local): Life {
    match step
    case Mark(received, height) => Marked(id, l, received, height)
    case Clear => if l.clearing > 0 then l.(marker := None, clearing := l.clearing - 1) else l
    case Expire => l.(stored := None)
    case Read => if l.marker.Some? && Idle(l) then l.(copy := l.marker) else l
    case Handle(now) => if l.copy.Some? then Handled(cfg, l, now) else l
    case Count(at, refused) => if l.request.Some? then Counted(l, at, refused) else l
    case Send => if l.inFlight.Some? then Sent(l) else l
    case Abandon => Abandoned(l)
  }

  /** A lookup, a removal or a broadcast fails: the loop lets go of the event. */
  function Abandoned(l: Life): Life { l.(copy := None, request := None, inFlight := None) }

  /** The loop has no business with the event. */
  predicate Idle(l: Life) { l.copy.None? && l.request.None? && l.inFlight.None? }

  function Marked(id: EventId, l: Life, received: Time, height: int64): Life {
    l.(marker := Some(NewMarker(id, received, height)), everMarked := true, counted := [], log := NOTHING_SENT,
       inFlight := if l.inFlight.Some? then Some(l.inFlight.value.(late := true)) else None)
  }

  /** The loop's decision, by its copy. */
  function Handled(cfg: Config, l: Life, now: int): Life
    requires l.copy.Some?
  {
    match Judge(cfg, l.copy.value, l.stored.Some?, now)
    case AlreadyStored => l.(copy := None, marker := None)
    case GiveUp => l.(copy := None, marker := None, givenUp := true)
    case Unicast => l.(copy := None, request := Some(ByUnicast))
    case Multicast => l.(copy := None, request := Some(ByMulticast))
    case _ => l.(copy := None)
  }

  /**
    The store counts the request, on the marker if that is still there, or refuses; the request goes out
    either way.
   */
  function Counted(l: Life, now: Time, refused: bool): Life
    requires l.request.Some?
  {
    var l := l.(request := None, inFlight := Some(Flight(l.request.value, refused, false)));
    if refused then l else Tallied(l, l.inFlight.value.kind, now)
  }

  function Tallied(l: Life, kind: Kind, now: Time): Life {
    l.(marker := if l.marker.Some? then Some(Requested(l.marker.value, now)) else None,
       counted := l.counted + [kind],
       most := if l.most > |l.counted| then l.most else |l.counted| + 1)
  }

  function Sent(l: Life): Life
    requires l.inFlight.Some?
  {
    l.(inFlight := None, log := Logged(l.log, l.inFlight.value))
  }

  /** Data is stored unless there is some already; clearing the marker, if it works, is a second step. */
  function Keep(l: Life, s: StoredEvent, clears: bool): Life {
    l.(stored := if l.stored.Some? then l.stored else Some(s), everStored := true,
       clearing := if clears then l.clearing + 1 else l.clearing)
  }

  function Lives(cfg: Config, id: EventId, l: Life, steps: seq<Local>): Life {
    if steps == [] then l else Lived(cfg, id, Lives(cfg, id, l, steps[..|steps| - 1]), steps[|steps| - 1])
  }

  // ---------- Steps of the node ----------

  datatype Step =
    | Commit(tx: TxHash, event: ChainEvent)
    | Register(principal: Principal, key: seq<byte>)
    | Submit(req: SubmitRequest, keyFails: bool, eventFails: bool, storeFails: bool, clearFails: bool)
    | Backfill(msg: BackfillData, eventFails: bool, storeFails: bool, clearFails: bool)
    | At(id: EventId, step: Local)

  function Answer<K, V>(m: map<K, V>, k: K, fails: bool): Lookup<V> {
    if fails then Failed else if k in m then Found(m[k]) else NotFound
  }

  /** Event ids are never used twice on the chain. */
  ghost predicate Fresh(chain: map<TxHash, ChainEvent>, tx: TxHash, event: ChainEvent) {
    tx !in chain && forall t :: t in chain ==> chain[t].eventId != event.eventId
  }

  function Put(w: World, id: EventId, l: Life): World { w.(lives := w.lives[id := l]) }

  /** The answer is genuine by the chain as it is. */
  ghost predicate AnswerHolds(c: Crypto, w: World, step: Step)
    requires step.Backfill?
  {
    GenuineAnswer(c, step.msg, Answer(w.chain, step.msg.txHash, step.eventFails))
  }

  /** The answer is genuine, stored and cleared: what the handler needs to go on. */
  ghost predicate WentThrough(c: Crypto, w: World, step: Step)
    requires step.Backfill?
  {
    AnswerHolds(c, w, step) && !step.storeFails && !step.clearFails
  }

  ghost function StoreAnswer(c: Crypto, w: World, step: Step): World
    requires step.Backfill? && AnswerHolds(c, w, step)
  {
    var event, msg := Answer(w.chain, step.msg.txHash, step.eventFails), step.msg;
    Put(w, msg.eventId, Keep(Of(w, msg.eventId), StoredEvent(event.value, msg.data, msg.txHash), !step.clearFails))
  }

  ghost function Backfilled(c: Crypto, w: World, step: Step): World
    requires step.Backfill?
  {
    if !w.backfillAlive then w
    else if !AnswerHolds(c, w, step) || step.storeFails then w.(backfillAlive := false)
    else StoreAnswer(c, w, step).(backfillAlive := !step.clearFails)
  }

  ghost function Submitted(c: Crypto, w: World, step: Step): World
    requires step.Submit?
  {
    var req, event := step.req, Answer(w.chain, step.req.txHash, step.eventFails);
    if !Genuine(c, req, Answer(w.keys, req.principal, step.keyFails), event) || step.storeFails then w
    else Put(w, req.eventId, Keep(Of(w, req.eventId), StoredEvent(event.value, req.data, req.txHash), !step.clearFails))
  }

  ghost function Stepped(c: Crypto, cfg: Config, w: World, step: Step): World {
    match step
    case Commit(tx, event) => if Fresh(w.chain, tx, event) then w.(chain := w.chain[tx := event]) else w
    case Register(p, key) => if p in w.keys then w else w.(keys := w.keys[p := key])
    case Submit(_, _, _, _, _) => Submitted(c, w, step)
    case Backfill(_, _, _, _) => Backfilled(c, w, step)
    case At(id, local) => Put(w, id, Lived(cfg, id, Of(w, id), local))
  }

  ghost function Run(c: Crypto, cfg: Config, w: World, steps: seq<Step>): World {
    if steps == [] then w else Stepped(c, cfg, Run(c, cfg, w, steps[..|steps| - 1]), steps[|steps| - 1])
  }

  // ---------- No marker is lost ----------

  /** An id once marked is still marked, or has been stored, or was given up at the retry limit. */
  ghost predicate NotLost(l: Life) {
    (l.everMarked ==> l.marker.Some? || l.everStored || l.givenUp) &&
    (l.stored.Some? || l.clearing > 0 ==> l.everStored)
  }

  // ---------- What is stored is what the chain promised ----------

  ghost predicate UniqueIds(chain: map<TxHash, ChainEvent>) {
    forall s, t :: s in chain && t in chain && chain[s].eventId == chain[t].eventId ==> s == t
  }

  ghost predicate MatchesChain(c: Crypto, chain: map<TxHash, ChainEvent>, id: EventId, l: Life) {
    l.stored.Some? ==> Matches(c, chain, id, l.stored.value)
  }

  // ---------- Requests are bounded ----------

  function Limit(cfg: Config): nat { if cfg.eventMaxRetries > 0 then cfg.eventMaxRetries else 0 }

  /** A unicast only as the first. */
  ghost predicate UnicastFirst(kinds: seq<Kind>) { forall i :: 0 < i < |kinds| ==> kinds[i].ByMulticast? }

  /** At most `limit` requests, a unicast only as the first. */
  ghost predicate Modest(limit: nat, kinds: seq<Kind>) { |kinds| <= limit && UnicastFirst(kinds) }

  /** A marker, or a copy of it, tells how often its event was requested. */
  ghost predicate Tells(m: MissingEvent, kinds: seq<Kind>) {
    m.retryCount == |kinds| && m.retriedUnicast == (kinds != [])
  }

  /** The loop does one thing with an event at a time. */
  ghost predicate OneAtATime(l: Life) {
    (l.copy.Some? ==> l.request.None? && l.inFlight.None?) && (l.request.Some? ==> l.inFlight.None?)
  }

  /**
    The marker tells the requests counted; a copy does too, unless the marker was set anew since and nothing
    has been counted for it yet; a decided request leaves room for itself, and is a unicast only if first.
   */
  ghost predicate CountsRight(cfg: Config, l: Life) {
    Modest(Limit(cfg), l.counted) && OneAtATime(l) &&
    (l.marker.Some? ==> Tells(l.marker.value, l.counted) && l.marker.value.lastRetryTime == l.marker.value.receivedTime) &&
    (l.copy.Some? ==> l.copy.value.retryCount >= 0 && (l.counted == [] || Tells(l.copy.value, l.counted))) &&
    (l.request.Some? ==> Limit(cfg) > 0 && (l.counted == [] || (|l.counted| < Limit(cfg) && l.request.value.ByMulticast?)))
  }

  /** Giving up takes a full count. */
  ghost predicate GivesUpLate(cfg: Config, l: Life) {
    |l.counted| <= l.most <= Limit(cfg) && (l.copy.Some? ==> l.copy.value.retryCount <= l.most) &&
    (l.givenUp ==> l.most == Limit(cfg))
  }

  /**
    Requests are sent as they were counted, but for the late one, which goes before all others, and the
    refused ones; and none at all when the limit is zero.
   */
  ghost predicate SendsCounted(cfg: Config, l: Life) {
    UnicastFirst(l.log.sent) && |l.log.sent| <= |l.counted| && (l.inFlight.Some? || l.log.wire != [] ==> Limit(cfg) > 0) &&
    (l.inFlight.Some? && l.inFlight.value.late ==> l.counted == [] && l.log.wire == []) &&
    (l.inFlight.Some? && !l.inFlight.value.late && !l.inFlight.value.refused ==>
      |l.log.sent| < |l.counted| && l.inFlight.value.kind == l.counted[|l.counted| - 1])
  }

  function Late(log: Log): seq<Kind> { if log.carried.Some? then [log.carried.value] else [] }

  /** What was sent is the late request, the counted and the uncounted ones, no more and no less. */
  ghost predicate Accounted(log: Log) {
    multiset(log.wire) == multiset(Late(log)) + multiset(log.sent) + multiset(log.uncounted) &&
    (log.uncounted == [] ==> log.wire == Late(log) + log.sent)
  }

  lemma OneMore(kinds: seq<Kind>, kind: Kind)
    ensures multiset(kinds + [kind]) == multiset(kinds) + multiset{kind}
  {
  }

  lemma LateIsAccounted(log: Log, f: Flight)
    requires Accounted(log) && f.late && log.wire == []
    ensures Accounted(Logged(log, f))
  {
    WireHoldsAll(log);
    assert log.wire + [f.kind] == [f.kind] && Late(Logged(log, f)) == [f.kind] && log.sent == [] && log.uncounted == [];
  }

  lemma LoggedIsAccounted(log: Log, f: Flight)
    requires Accounted(log) && (f.late ==> log.wire == [])
    ensures Accounted(Logged(log, f))
  {
    OneMore(log.wire, f.kind);
    if f.late {
      LateIsAccounted(log, f);
    } else if f.refused {
      OneMore(log.uncounted, f.kind);
    } else {
      OneMore(log.sent, f.kind);
    }
  }

  lemma WireHoldsAll(log: Log)
    requires Accounted(log)
    ensures |log.wire| == |Late(log)| + |log.sent| + |log.uncounted|
  {
    assert |multiset(log.wire)| == |multiset(Late(log))| + |multiset(log.sent)| + |multiset(log.uncounted)|;
  }

  ghost predicate Bounded(cfg: Config, l: Life) {
    CountsRight(cfg, l) && GivesUpLate(cfg, l) && SendsCounted(cfg, l) && Accounted(l.log)
  }

  lemma DecideRequest(cfg: Config, l: Life, kind: Kind)
    requires Bounded(cfg, l) && l.copy.Some? && l.copy.value.retryCount < cfg.eventMaxRetries
    requires kind.ByUnicast? ==> !l.copy.value.retriedUnicast
    ensures Bounded(cfg, l.(copy := None, request := Some(kind)))
  {
  }

  lemma DropMarker(cfg: Config, l: Life, givenUp: bool)
    requires Bounded(cfg, l) && l.copy.Some? && (givenUp ==> l.givenUp || l.copy.value.retryCount >= cfg.eventMaxRetries)
    ensures Bounded(cfg, l.(copy := None, marker := None, givenUp := givenUp))
  {
  }

  lemma HandleBounded(cfg: Config, l: Life, now: int)
    requires Bounded(cfg, l) && l.copy.Some?
    ensures Bounded(cfg, Handled(cfg, l, now))
  {
    match Judge(cfg, l.copy.value, l.stored.Some?, now)
    case AlreadyStored => DropMarker(cfg, l, l.givenUp);
    case GiveUp => DropMarker(cfg, l, true);
    case Unicast => DecideRequest(cfg, l, ByUnicast);
    case Multicast => DecideRequest(cfg, l, ByMulticast);
    case _ =>
  }

  lemma CountBounded(cfg: Config, l: Life, now: Time, refused: bool)
    requires Bounded(cfg, l) && l.request.Some?
    ensures Bounded(cfg, Counted(l, now, refused))
  {
    if !refused {
      var r := Counted(l, now, refused);
      assert r.counted[|r.counted| - 1] == l.request.value;
      assert CountsRight(cfg, r);
    }
  }

  lemma SendBounded(cfg: Config, l: Life)
    requires Bounded(cfg, l) && l.inFlight.Some?
    ensures Bounded(cfg, Sent(l))
  {
    LoggedIsAccounted(l.log, l.inFlight.value);
  }

  lemma MarkBounded(cfg: Config, id: EventId, l: Life, received: Time, height: int64)
    requires Bounded(cfg, l)
    ensures Bounded(cfg, Marked(id, l, received, height))
  {
  }

  lemma OtherBounded(cfg: Config, id: EventId, l: Life, step: Local)
    requires Bounded(cfg, l) && (step.Clear? || step.Expire? || step.Read? || step.Abandon?)
    ensures Bounded(cfg, Lived(cfg, id, l, step))
  {
    var r := Lived(cfg, id, l, step);
    assert r.log == l.log && r.counted == l.counted && r.most == l.most;
  }

  lemma LocalBounded(cfg: Config, id: EventId, l: Life, step: Local)
    requires Bounded(cfg, l)
    ensures Bounded(cfg, Lived(cfg, id, l, step))
  {
    match step
    case Mark(received, height) => MarkBounded(cfg, id, l, received, height);
    case Handle(now) => if l.copy.Some? { HandleBounded(cfg, l, now); }
    case Count(at, refused) => if l.request.Some? { CountBounded(cfg, l, at, refused); }
    case Send => if l.inFlight.Some? { SendBounded(cfg, l); }
    case _ => OtherBounded(cfg, id, l, step);
  }

  lemma LocalLosesNothing(cfg: Config, id: EventId, l: Life, step: Local)
    requires NotLost(l)
    ensures NotLost(Lived(cfg, id, l, step))
  {
  }

  // ---------- Every reachable state ----------

  ghost predicate Good(c: Crypto, cfg: Config, w: World, id: EventId) {
    UniqueIds(w.chain) && NotLost(Of(w, id)) && MatchesChain(c, w.chain, id, Of(w, id)) && Bounded(cfg, Of(w, id))
  }

  lemma CommitKeepsGood(c: Crypto, cfg: Config, w: World, tx: TxHash, event: ChainEvent, id: EventId)
    requires Good(c, cfg, w, id) && Fresh(w.chain, tx, event)
    ensures Good(c, cfg, w.(chain := w.chain[tx := event]), id)
  {
  }

  lemma KeepKeepsGood(c: Crypto, cfg: Config, w: World, s: StoredEvent, clears: bool, at: EventId, id: EventId)
    requires Good(c, cfg, w, id) && Matches(c, w.chain, at, s)
    ensures Good(c, cfg, Put(w, at, Keep(Of(w, at), s, clears)), id)
  {
  }

  lemma LocalKeepsGood(c: Crypto, cfg: Config, w: World, at: EventId, local: Local, id: EventId)
    requires Good(c, cfg, w, id)
    ensures Good(c, cfg, Put(w, at, Lived(cfg, at, Of(w, at), local)), id)
  {
    var l := Lived(cfg, at, Of(w, at), local);
    if at == id {
      LocalBounded(cfg, id, Of(w, id), local);
      LocalLosesNothing(cfg, id, Of(w, id), local);
      LocalStores(cfg, id, Of(w, id), local);
      assert Of(Put(w, id, l), id) == l;
    } else {
      assert Of(Put(w, at, l), id) == Of(w, id);
    }
  }

  /** Only the intake paths store. */
  lemma LocalStores(cfg: Config, id: EventId, l: Life, local: Local)
    ensures Lived(cfg, id, l, local).stored.Some? ==> Lived(cfg, id, l, local).stored == l.stored
  {
  }

  lemma SubmitKeepsGood(c: Crypto, cfg: Config, w: World, step: Step, id: EventId)
    requires Good(c, cfg, w, id) && step.Submit?
    ensures Good(c, cfg, Submitted(c, w, step), id)
  {
    var req, event := step.req, Answer(w.chain, step.req.txHash, step.eventFails);
    if Genuine(c, req, Answer(w.keys, req.principal, step.keyFails), event) {
      KeepKeepsGood(c, cfg, w, StoredEvent(event.value, req.data, req.txHash), !step.clearFails, req.eventId, id);
    }
  }

  lemma BackfillKeepsGood(c: Crypto, cfg: Config, w: World, step: Step, id: EventId)
    requires Good(c, cfg, w, id) && step.Backfill?
    ensures Good(c, cfg, Backfilled(c, w, step), id)
  {
    var msg, event := step.msg, Answer(w.chain, step.msg.txHash, step.eventFails);
    if AnswerHolds(c, w, step) {
      KeepKeepsGood(c, cfg, w, StoredEvent(event.value, msg.data, msg.txHash), !step.clearFails, msg.eventId, id);
    }
  }

  lemma StepKeepsGood(c: Crypto, cfg: Config, w: World, step: Step, id: EventId)
    requires Good(c, cfg, w, id)
    ensures Good(c, cfg, Stepped(c, cfg, w, step), id)
  {
    match step
    case Commit(tx, event) => if Fresh(w.chain, tx, event) { CommitKeepsGood(c, cfg, w, tx, event, id); }
    case Register(_, _) =>
    case Submit(_, _, _, _, _) => SubmitKeepsGood(c, cfg, w, step, id);
    case Backfill(_, _, _, _) => BackfillKeepsGood(c, cfg, w, step, id);
    case At(at, local) => LocalKeepsGood(c, cfg, w, at, local, id);
  }

  lemma {:induction false} GoodStays(c: Crypto, cfg: Config, w: World, steps: seq<Step>, id: EventId)
    requires Good(c, cfg, w, id)
    ensures Good(c, cfg, Run(c, cfg, w, steps), id)
  {
    if steps != [] {
      var n := |steps| - 1;
      GoodStays(c, cfg, w, steps[..n], id);
      StepKeepsGood(c, cfg, Run(c, cfg, w, steps[..n]), steps[n], id);
    }
  }

  lemma ReachableIsGood(c: Crypto, cfg: Config, steps: seq<Step>, id: EventId)
    ensures Good(c, cfg, Run(c, cfg, START, steps), id)
  {
    GoodStays(c, cfg, START, steps, id);
  }

  /**
    Every id ever marked missing is still marked, or has been stored, or was given up, and that only after as
    many requests were counted for one marking as the retry limit allows. Counted requests may have been
    abandoned before they were sent.
   */
  lemma MarkersAreNeverLost(c: Crypto, cfg: Config, steps: seq<Step>, id: EventId)
    ensures
      var l := Of(Run(c, cfg, START, steps), id);
      (l.everMarked ==> l.marker.Some? || l.everStored || l.givenUp) && (l.givenUp ==> l.most == Limit(cfg))
  {
    ReachableIsGood(c, cfg, steps, id);
  }

  /**
    The data stored for an event hashes to the off-chain hash that the chain records for that event, under
    whichever transaction names it.
   */
  lemma StoredDataMatchesChain(c: Crypto, cfg: Config, steps: seq<Step>, id: EventId, tx: TxHash)
    ensures
      var w := Run(c, cfg, START, steps);
      var s := Of(w, id).stored;
      (s.Some? ==> s.value.txHash in w.chain && w.chain[s.value.txHash].eventId == id) &&
      (s.Some? && tx in w.chain && w.chain[tx].eventId == id ==> c.hash(s.value.data) == w.chain[tx].offChainHash)
  {
    ReachableIsGood(c, cfg, steps, id);
  }

  /**
    Since an id was last marked, the requests that the store had counted number at most the retry limit, and
    only the first of them can have been a unicast. Besides those, what was sent is at most one late request,
    counted before the id was marked and sent after, and the requests that the store refused to count.
   */
  lemma RequestsAreBounded(c: Crypto, cfg: Config, steps: seq<Step>, id: EventId)
    ensures
      var log := Of(Run(c, cfg, START, steps), id).log;
      Modest(Limit(cfg), log.sent) && Accounted(log) && |log.wire| <= Limit(cfg) + 1 + |log.uncounted| &&
      (log.carried.None? && log.uncounted == [] ==> Modest(Limit(cfg), log.wire))
  {
    ReachableIsGood(c, cfg, steps, id);
    WireHoldsAll(Of(Run(c, cfg, START, steps), id).log);
  }
}
