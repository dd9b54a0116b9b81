/** Asking the network for missing events: which markers to drop, which to request, and how. */
module EventBacklog {
  import opened MissingEventCodec
  import opened StateStore
  import opened EventIntake

  datatype Config = Config(
    newEventIgnoreThreshold: int, eventMaxRetries: int64, eventRetryInterval: int, tryUnicastFirst: bool)

  datatype Verdict = AlreadyStored | TooNew | GiveUp | TooSoon | Unicast | Multicast

  /** What is to happen with a marker, judged by a copy of it. The clock's reading is only compared, so it is any number. */
  function Judge(cfg: Config, ev: MissingEvent, stored: bool, now: int): Verdict {
    if stored then AlreadyStored
    else if ev.receivedTime > now - cfg.newEventIgnoreThreshold then TooNew
    else if ev.retryCount >= cfg.eventMaxRetries then GiveUp
    else if now < ev.lastRetryTime + cfg.eventRetryInterval then TooSoon
    else if cfg.tryUnicastFirst && !ev.retriedUnicast then Unicast
    else Multicast
  }

  // ---------- When to ask, and when to stop ----------

  /** The event is old enough to be missed. */
  predicate OldEnough(cfg: Config, m: MissingEvent, now: int) { m.receivedTime + cfg.newEventIgnoreThreshold <= now }

  /** Asked for as often as allowed. */
  predicate Hopeless(cfg: Config, m: MissingEvent, now: int) { OldEnough(cfg, m, now) && cfg.eventMaxRetries <= m.retryCount }

  /** To be asked for, if it is not stored. */
  predicate Due(cfg: Config, m: MissingEvent, now: int) {
    OldEnough(cfg, m, now) && m.retryCount < cfg.eventMaxRetries && m.lastRetryTime + cfg.eventRetryInterval <= now
  }

  predicate UnicastIsNext(cfg: Config, m: MissingEvent) { cfg.tryUnicastFirst && !m.retriedUnicast }

  predicate AskedFor(cfg: Config, repo: Repository, faults: Faults, m: MissingEvent, now: int) {
    m.eventId !in repo && m.eventId !in faults.lookups && Due(cfg, m, now)
  }

  /** The marker goes: the event is stored or hopeless, and the calls work. */
  predicate Cleared(cfg: Config, repo: Repository, faults: Faults, m: MissingEvent, now: int) {
    m.eventId !in faults.lookups && m.eventId !in faults.removals && (m.eventId in repo || Hopeless(cfg, m, now))
  }

  lemma GoesIsCleared(cfg: Config, repo: Repository, faults: Faults, m: MissingEvent, now: Time)
    ensures Goes(cfg, repo, faults, m, now) <==> Cleared(cfg, repo, faults, m, now)
  {
  }

  predicate Drops(v: Verdict) { v.AlreadyStored? || v.GiveUp? }

  /** A marker after one more request, as the store gives it back. */
  function Requested(m: MissingEvent, now: Time): MissingEvent {
    Bumped(m, now).(lastRetryTime := m.receivedTime)
  }

  /** The events for which a call fails while a chunk is handled: the lookup, the removal or the count. */
  datatype Faults = Faults(lookups: set<EventId>, removals: set<EventId>, counts: set<EventId>)

  function Increment(markers: Markers, id: EventId, now: Time): Markers {
    if id in markers then markers[id := Requested(markers[id], now)] else markers
  }

  /** The requests are counted in order, except those that the store refuses to count. */
  function IncrementAll(markers: Markers, ids: seq<EventId>, refused: set<EventId>, now: Time): Markers {
    if ids == [] then markers
    else
      var last, rest := ids[|ids| - 1], IncrementAll(markers, ids[..|ids| - 1], refused, now);
      if last in refused then rest else Increment(rest, last, now)
  }

  /** The events of a chunk that are looked up and judged a certain way, in order. */
  function Judged(cfg: Config, repo: Repository, faults: Faults, chunk: seq<MissingEvent>, now: Time, v: Verdict): seq<EventId> {
    if chunk == [] then []
    else
      var last := chunk[|chunk| - 1];
      var rest := Judged(cfg, repo, faults, chunk[..|chunk| - 1], now, v);
      if last.eventId !in faults.lookups && Judge(cfg, last, last.eventId in repo, now) == v
      then rest + [last.eventId] else rest
  }

  /** A marker goes when its event is looked up and judged so, and the removal works. */
  predicate Goes(cfg: Config, repo: Repository, faults: Faults, ev: MissingEvent, now: Time) {
    ev.eventId !in faults.lookups && ev.eventId !in faults.removals && Drops(Judge(cfg, ev, ev.eventId in repo, now))
  }

  /** The events of a chunk whose markers go. */
  function Dropped(cfg: Config, repo: Repository, faults: Faults, chunk: seq<MissingEvent>, now: Time): set<EventId> {
    set i | 0 <= i < |chunk| && Goes(cfg, repo, faults, chunk[i], now) :: chunk[i].eventId
  }

  class EventBackfiller {
    const cfg: Config
    const repo: Repository
    var markers: Markers

    constructor (cfg: Config, repo: Repository, markers: Markers)
      ensures this.cfg == cfg && this.repo == repo && this.markers == markers
    {
      this.cfg, this.repo, this.markers := cfg, repo, markers;
    }

    method HandleMissingEvent(ev: MissingEvent, now: Time, faults: Faults)
      returns (shouldRequest: bool, useMulticast: bool, ok: bool)
      modifies this
      ensures markers == if Cleared(cfg, repo, faults, ev, now) then old(markers) - {ev.eventId} else old(markers)
      ensures ok <==>
              ev.eventId !in faults.lookups &&
              (ev.eventId in repo || Hopeless(cfg, ev, now) ==> ev.eventId !in faults.removals)
      ensures shouldRequest <==> AskedFor(cfg, repo, faults, ev, now)
      ensures useMulticast <==> shouldRequest && !UnicastIsNext(cfg, ev)
    {
      if ev.eventId in faults.lookups {
        return false, false, false;
      }
      var alreadyExists := ev.eventId in repo;
      if alreadyExists {
        ok := RemoveMarker(ev.eventId, faults);
        return false, false, ok;
      }
      if ev.receivedTime > now - cfg.newEventIgnoreThreshold {
        return false, false, true;
      }
      if ev.retryCount >= cfg.eventMaxRetries {
        ok := RemoveMarker(ev.eventId, faults);
        return false, false, ok;
      }
      if now < ev.lastRetryTime + cfg.eventRetryInterval {
        return false, false, true;
      }
      if cfg.tryUnicastFirst && !ev.retriedUnicast {
        return true, false, true;
      } else {
        return true, true, true;
      }
    }

    method RemoveMarker(id: EventId, faults: Faults) returns (ok: bool)
      modifies this
      ensures ok <==> id !in faults.removals
      ensures markers == if ok then old(markers) - {id} else old(markers)
    {
      ok := id !in faults.removals;
      if ok {
        markers := markers - {id};
      }
    }

    /**
      One chunk of markers: two buffers are filled, then every buffered event is counted, if the store can,
      before it is sent in any case. A failed broadcast ends the chunk: nothing is asked for by unicast.
     */
    method RequestChunk(chunk: seq<MissingEvent>, now: Time, faults: Faults, broadcasts: bool)
      returns (multicast: seq<EventId>, unicast: seq<EventId>)
      modifies this
      ensures multicast == Judged(cfg, repo, faults, chunk, now, Multicast)
      ensures unicast == if multicast == [] || broadcasts then Judged(cfg, repo, faults, chunk, now, Unicast) else []
      ensures
        var kept := old(markers) - Dropped(cfg, repo, faults, chunk, now);
        markers == IncrementAll(IncrementAll(kept, multicast, faults.counts, now), unicast, faults.counts, now)
      ensures RightOnesAsked(cfg, repo, faults, chunk, now, broadcasts, multicast, unicast)
      ensures Distinct(chunk) ==>
                MarkersFollow(cfg, repo, faults, chunk, now, old(markers), markers, multicast, unicast)
    {
      ghost var before := markers;
      multicast, unicast := [], [];
      for i := 0 to |chunk|
        invariant markers == before - Dropped(cfg, repo, faults, chunk[..i], now)
        invariant multicast == Judged(cfg, repo, faults, chunk[..i], now, Multicast)
        invariant unicast == Judged(cfg, repo, faults, chunk[..i], now, Unicast)
      {
        assert chunk[..i + 1][..i] == chunk[..i];
        DroppedNext(cfg, repo, faults, chunk, now, i);
        GoesIsCleared(cfg, repo, faults, chunk[i], now);
        var shouldRequest, useMulticast, _ := HandleMissingEvent(chunk[i], now, faults);
        if shouldRequest {
          if useMulticast {
            multicast := multicast + [chunk[i].eventId];
          } else {
            unicast := unicast + [chunk[i].eventId];
          }
        }
      }
      assert chunk[..|chunk|] == chunk;
      BuffersAreRight(cfg, repo, faults, chunk, now, broadcasts);
      if Distinct(chunk) {
        MarkersEndRight(cfg, repo, faults, chunk, now, before, if multicast == [] || broadcasts then unicast else []);
      }
      CountRequests(multicast, faults.counts, now);
      if |multicast| > 0 && !broadcasts {
        unicast := [];
        return;
      }
      CountRequests(unicast, faults.counts, now);
    }

    method CountRequests(ids: seq<EventId>, refused: set<EventId>, now: Time)
      modifies this
      ensures markers == IncrementAll(old(markers), ids, refused, now)
    {
      ghost var before := markers;
      for i := 0 to |ids|
        invariant markers == IncrementAll(before, ids[..i], refused, now)
      {
        assert ids[..i + 1][..i] == ids[..i];
        if ids[i] !in refused {
          markers := Increment(markers, ids[i], now);
        }
      }
      assert ids[..|ids|] == ids;
    }
  }

  lemma DroppedNext(cfg: Config, repo: Repository, faults: Faults, chunk: seq<MissingEvent>, now: Time, i: nat)
    requires i < |chunk|
    ensures
      Dropped(cfg, repo, faults, chunk[..i + 1], now) ==
      Dropped(cfg, repo, faults, chunk[..i], now) + if Goes(cfg, repo, faults, chunk[i], now) then {chunk[i].eventId} else {}
  {
    var a, b := Dropped(cfg, repo, faults, chunk[..i + 1], now), Dropped(cfg, repo, faults, chunk[..i], now);
    forall x | x in a ensures x in b || (x == chunk[i].eventId && Goes(cfg, repo, faults, chunk[i], now)) {
      var k :| 0 <= k < i + 1 && Goes(cfg, repo, faults, chunk[..i + 1][k], now) && x == chunk[..i + 1][k].eventId;
      if k < i {
        assert chunk[..i][k] == chunk[k];
      }
    }
    forall x | x in b ensures x in a {
      var k :| 0 <= k < i && Goes(cfg, repo, faults, chunk[..i][k], now) && x == chunk[..i][k].eventId;
      assert chunk[..i + 1][k] == chunk[k];
    }
    if Goes(cfg, repo, faults, chunk[i], now) {
      assert chunk[..i + 1][i] == chunk[i];
      assert chunk[i].eventId in a;
    }
  }

  // ---------- What a chunk leads to ----------

  /** The chunk has a marker for the event that is to be asked for in this way. */
  ghost predicate AskedIn(cfg: Config, repo: Repository, faults: Faults, chunk: seq<MissingEvent>, now: int, byUnicast: bool, id: EventId) {
    exists i :: 0 <= i < |chunk| && chunk[i].eventId == id && AskedFor(cfg, repo, faults, chunk[i], now) && UnicastIsNext(cfg, chunk[i]) == byUnicast
  }

  /** The buffers hold the events to be asked for, and no others; a failed broadcast leaves out the unicasts. */
  ghost predicate RightOnesAsked(cfg: Config, repo: Repository, faults: Faults, chunk: seq<MissingEvent>, now: int,
                                 broadcasts: bool, multicast: seq<EventId>, unicast: seq<EventId>) {
    (forall id :: id in multicast <==> AskedIn(cfg, repo, faults, chunk, now, false, id)) &&
    (forall id :: id in unicast <==> (multicast == [] || broadcasts) && AskedIn(cfg, repo, faults, chunk, now, true, id)) &&
    (forall id :: id in repo ==> id !in multicast && id !in unicast)
  }

  ghost predicate Distinct(chunk: seq<MissingEvent>) {
    forall i, j :: 0 <= i < j < |chunk| ==> chunk[i].eventId != chunk[j].eventId
  }

  /** What becomes of a marker that is asked for and counted. */
  function OneRequestMore(m: MissingEvent): MissingEvent {
    m.(retryCount := if m.retryCount == 0x7FFF_FFFF_FFFF_FFFF then -0x8000_0000_0000_0000 else m.retryCount + 1,
       retriedUnicast := true, lastRetryTime := m.receivedTime)
  }

  /** The marker of a stored or hopeless event is gone, one asked for and counted has one request more, others stay. */
  ghost predicate MarkerFollows(cfg: Config, repo: Repository, faults: Faults, chunk: seq<MissingEvent>, now: int,
                                before: Markers, after: Markers, asked: bool, id: EventId) {
    if ClearedIn(cfg, repo, faults, chunk, now, id) then id !in after
    else
      (id in after <==> id in before) &&
      (id in before ==> after[id] == if asked && id !in faults.counts then OneRequestMore(before[id]) else before[id])
  }

  ghost predicate MarkersFollow(cfg: Config, repo: Repository, faults: Faults, chunk: seq<MissingEvent>, now: int,
                                before: Markers, after: Markers, multicast: seq<EventId>, unicast: seq<EventId>) {
    forall id :: MarkerFollows(cfg, repo, faults, chunk, now, before, after, id in multicast || id in unicast, id)
  }

  ghost predicate ClearedIn(cfg: Config, repo: Repository, faults: Faults, chunk: seq<MissingEvent>, now: int, id: EventId) {
    exists i :: 0 <= i < |chunk| && chunk[i].eventId == id && Cleared(cfg, repo, faults, chunk[i], now)
  }

  lemma {:induction false} JudgedIsAsked(cfg: Config, repo: Repository, faults: Faults, chunk: seq<MissingEvent>, now: Time, v: Verdict)
    requires v.Unicast? || v.Multicast?
    ensures forall id :: id in Judged(cfg, repo, faults, chunk, now, v) <==> AskedIn(cfg, repo, faults, chunk, now, v.Unicast?, id)
  {
    if chunk != [] {
      var n := |chunk| - 1;
      JudgedIsAsked(cfg, repo, faults, chunk[..n], now, v);
      forall id ensures id in Judged(cfg, repo, faults, chunk, now, v) <==> AskedIn(cfg, repo, faults, chunk, now, v.Unicast?, id) {
        AskedInLast(cfg, repo, faults, chunk, now, v.Unicast?, id);
      }
    }
  }

  lemma AskedInLast(cfg: Config, repo: Repository, faults: Faults, chunk: seq<MissingEvent>, now: int, byUnicast: bool, id: EventId)
    requires chunk != []
    ensures
      var n := |chunk| - 1;
      AskedIn(cfg, repo, faults, chunk, now, byUnicast, id) <==>
      AskedIn(cfg, repo, faults, chunk[..n], now, byUnicast, id) ||
      (chunk[n].eventId == id && AskedFor(cfg, repo, faults, chunk[n], now) && UnicastIsNext(cfg, chunk[n]) == byUnicast)
  {
    var n := |chunk| - 1;
    assert forall i :: 0 <= i < n ==> chunk[..n][i] == chunk[i];
  }

  lemma BuffersAreRight(cfg: Config, repo: Repository, faults: Faults, chunk: seq<MissingEvent>, now: Time, broadcasts: bool)
    ensures
      var multicast := Judged(cfg, repo, faults, chunk, now, Multicast);
      var unicast := if multicast == [] || broadcasts then Judged(cfg, repo, faults, chunk, now, Unicast) else [];
      RightOnesAsked(cfg, repo, faults, chunk, now, broadcasts, multicast, unicast)
  {
    JudgedIsAsked(cfg, repo, faults, chunk, now, Unicast);
    JudgedIsAsked(cfg, repo, faults, chunk, now, Multicast);
  }

  ghost predicate NoRepeats(ids: seq<EventId>) { forall i, j :: 0 <= i < j < |ids| ==> ids[i] != ids[j] }

  lemma {:induction false} JudgedHasNoRepeats(cfg: Config, repo: Repository, faults: Faults, chunk: seq<MissingEvent>, now: Time, v: Verdict)
    requires Distinct(chunk) && (v.Unicast? || v.Multicast?)
    ensures NoRepeats(Judged(cfg, repo, faults, chunk, now, v))
  {
    if chunk != [] {
      var n := |chunk| - 1;
      JudgedHasNoRepeats(cfg, repo, faults, chunk[..n], now, v);
      JudgedIsAsked(cfg, repo, faults, chunk[..n], now, v);
      assert !AskedIn(cfg, repo, faults, chunk[..n], now, v.Unicast?, chunk[n].eventId);
    }
  }

  lemma {:induction false} IncrementAllAt(markers: Markers, ids: seq<EventId>, refused: set<EventId>, now: Time, id: EventId)
    requires NoRepeats(ids)
    ensures
      var r := IncrementAll(markers, ids, refused, now);
      (id in r <==> id in markers) &&
      (id in markers ==> r[id] == if id in ids && id !in refused then OneRequestMore(markers[id]) else markers[id])
  {
    if ids != [] {
      IncrementAllAt(markers, ids[..|ids| - 1], refused, now, id);
    }
  }

  lemma DroppedIsCleared(cfg: Config, repo: Repository, faults: Faults, chunk: seq<MissingEvent>, now: Time, id: EventId)
    ensures id in Dropped(cfg, repo, faults, chunk, now) <==> ClearedIn(cfg, repo, faults, chunk, now, id)
  {
    forall i | 0 <= i < |chunk| ensures Goes(cfg, repo, faults, chunk[i], now) <==> Cleared(cfg, repo, faults, chunk[i], now) {
      GoesIsCleared(cfg, repo, faults, chunk[i], now);
    }
  }

  /** No event is in both buffers. */
  lemma AskedOneWay(cfg: Config, repo: Repository, faults: Faults, chunk: seq<MissingEvent>, now: int, id: EventId)
    requires Distinct(chunk) && AskedIn(cfg, repo, faults, chunk, now, true, id)
    ensures !AskedIn(cfg, repo, faults, chunk, now, false, id)
  {
  }

  lemma MarkersEndRight(cfg: Config, repo: Repository, faults: Faults, chunk: seq<MissingEvent>, now: Time, before: Markers, unicast: seq<EventId>)
    requires Distinct(chunk) && (unicast == [] || unicast == Judged(cfg, repo, faults, chunk, now, Unicast))
    ensures
      var multicast, kept := Judged(cfg, repo, faults, chunk, now, Multicast), before - Dropped(cfg, repo, faults, chunk, now);
      var after := IncrementAll(IncrementAll(kept, multicast, faults.counts, now), unicast, faults.counts, now);
      MarkersFollow(cfg, repo, faults, chunk, now, before, after, multicast, unicast)
  {
    var multicast, kept := Judged(cfg, repo, faults, chunk, now, Multicast), before - Dropped(cfg, repo, faults, chunk, now);
    var after := IncrementAll(IncrementAll(kept, multicast, faults.counts, now), unicast, faults.counts, now);
    JudgedHasNoRepeats(cfg, repo, faults, chunk, now, Unicast);
    JudgedHasNoRepeats(cfg, repo, faults, chunk, now, Multicast);
    JudgedIsAsked(cfg, repo, faults, chunk, now, Unicast);
    JudgedIsAsked(cfg, repo, faults, chunk, now, Multicast);
    forall id ensures MarkerFollows(cfg, repo, faults, chunk, now, before, after, id in multicast || id in unicast, id) {
      DroppedIsCleared(cfg, repo, faults, chunk, now, id);
      IncrementAllAt(kept, multicast, faults.counts, now, id);
      IncrementAllAt(IncrementAll(kept, multicast, faults.counts, now), unicast, faults.counts, now, id);
      if AskedIn(cfg, repo, faults, chunk, now, true, id) {
        AskedOneWay(cfg, repo, faults, chunk, now, id);
      }
    }
  }

  // ---------- A marker's way through the loop ----------

  /** A marker after k requests. */
  function AfterRequests(m: MissingEvent, k: nat, now: Time): MissingEvent {
    if k == 0 then m else Requested(AfterRequests(m, k - 1, now), now)
  }

  lemma {:induction false} RequestsCount(m: MissingEvent, k: nat, now: Time)
    requires m.retryCount == 0 && !m.retriedUnicast && m.lastRetryTime == m.receivedTime && k <= 0x7FFF_FFFF_FFFF_FFFF
    ensures
      var r := AfterRequests(m, k, now);
      r.retryCount == k && r.retriedUnicast == (k > 0) && r.receivedTime == r.lastRetryTime == m.receivedTime
  {
    if k > 0 {
      RequestsCount(m, k - 1, now);
    }
  }

  /**
    An event that nobody delivers is requested exactly EventMaxRetries times, the first time by unicast if that
    is to be tried first and by multicast ever after, and is then given up. Once it is old enough nothing
    else delays it: not even the retry interval, which is measured from the time the event was received,
    because the store does not keep the last retry time.
   */
  lemma RequestedThenGivenUp(cfg: Config, m: MissingEvent, k: nat, now: Time, later: Time)
    requires m.retryCount == 0 && !m.retriedUnicast && m.lastRetryTime == m.receivedTime && k <= 0x7FFF_FFFF_FFFF_FFFF
    ensures
      var v := Judge(cfg, AfterRequests(m, k, now), false, later);
      if later < m.receivedTime + cfg.newEventIgnoreThreshold then v == TooNew
      else if k >= cfg.eventMaxRetries then v == GiveUp
      else if later < m.receivedTime + cfg.eventRetryInterval then v == TooSoon
      else v == if k == 0 && cfg.tryUnicastFirst then Unicast else Multicast
  {
    RequestsCount(m, k, now);
  }

  /** The interval between retries is measured from the time the event was received, whenever it was last requested. */
  lemma SpacingIgnoresLastRequest(cfg: Config, m: MissingEvent, requestedAt: Time, now: Time)
    requires m.retryCount < 0x7FFF_FFFF_FFFF_FFFF && m.receivedTime <= now - cfg.newEventIgnoreThreshold
    ensures
      var v := Judge(cfg, Requested(m, requestedAt), false, now);
      v.Multicast? <==> m.retryCount + 1 < cfg.eventMaxRetries && now >= m.receivedTime + cfg.eventRetryInterval
  {
  }
}
