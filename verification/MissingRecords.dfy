/**
  What the missing-event tables keep: index and records stay in one-to-one correspondence, ids are fresh and
  increasing, and so counting the index counts the records.
 */
module MissingRecords {
  import opened Prelude
  import opened Bytes
  import opened StateKeys
  import opened MissingEventCodec
  import opened StateStore

  // ---------- Adding, with the round trip applied ----------

  /** The record as it is read back: the last retry time is lost. */
  function Kept(e: MissingEvent): MissingEvent { e.(lastRetryTime := e.receivedTime) }

  ghost function InsertedOne(before: Records, t: Records, e: MissingEvent): Records {
    var id := Successor(t.counter);
    var kept := if e.eventId in before.index then t.events - {before.index[e.eventId]} else t.events;
    Records(id, t.index[e.eventId := id], kept[id := Some(Kept(e))])
  }

  ghost function Inserted(t: Records, es: seq<MissingEvent>): Records {
    if es == [] then t else InsertedOne(t, Inserted(t, es[..|es| - 1]), es[|es| - 1])
  }

  ghost predicate ShortIds(es: seq<MissingEvent>) { forall i :: 0 <= i < |es| ==> |es[i].eventId| < 0x8000 }

  lemma {:induction false} AddedIsInserted(tc: TimeCodec, t: Records, es: seq<MissingEvent>)
    requires Sound(tc) && ShortIds(es)
    ensures Added(tc, t, es) == Inserted(t, es)
  {
    if es != [] {
      var n := |es| - 1;
      AddedIsInserted(tc, t, es[..n]);
      RoundTrip(tc, es[n]);
    }
  }

  // ---------- Fresh ids ----------

  /** Room for n more ids before the counter wraps around. */
  ghost predicate Room(t: Records, n: nat) { BigEndian(t.counter) + n < Pow256(|t.counter|) }

  /** No record has an id the counter has not reached. */
  ghost predicate Covered(t: Records) {
    forall id :: id in t.events ==> |id| == 16 && BigEndian(id) <= BigEndian(t.counter)
  }

  lemma {:induction false} CounterMoves(t: Records, es: seq<MissingEvent>)
    requires Room(t, |es|)
    ensures BigEndian(Inserted(t, es).counter) == BigEndian(t.counter) + |es|
  {
    if es != [] {
      CounterMoves(t, es[..|es| - 1]);
      SuccessorAddsOne(Inserted(t, es[..|es| - 1]).counter);
    }
  }

  /** Before wrap-around the i-th id of a batch is the counter plus i: in insertion order, and unused so far. */
  lemma NewIds(t: Records, n: nat, i: nat)
    requires Covered(t) && Room(t, n) && 0 < i <= n
    ensures BigEndian(CounterAfter(t.counter, i)) == BigEndian(t.counter) + i
    ensures CounterAfter(t.counter, i) !in t.events
  {
    CounterAdds(t.counter, i);
  }

  lemma {:induction false} InsertedCovered(t: Records, es: seq<MissingEvent>)
    requires Covered(t) && Room(t, |es|)
    ensures Covered(Inserted(t, es))
  {
    CounterMoves(t, es);
    if es != [] {
      InsertedCovered(t, es[..|es| - 1]);
      CounterMoves(t, es[..|es| - 1]);
    }
  }

  // ---------- One-to-one ----------

  /** The index and the records name each other. */
  ghost predicate OneToOne(t: Records) {
    (forall e :: e in t.index ==> Names(t, t.index[e], e)) &&
    (forall id :: id in t.events ==> t.events[id].Some? && t.events[id].value.eventId in t.index &&
                                     t.index[t.events[id].value.eventId] == id)
  }

  ghost predicate Names(t: Records, id: seq<byte>, eventId: seq<byte>) {
    id in t.events && t.events[id].Some? && t.events[id].value.eventId == eventId
  }

  ghost predicate Distinct(es: seq<MissingEvent>) {
    forall i, j :: 0 <= i < j < |es| ==> es[i].eventId != es[j].eventId
  }

  /** An event id not in the batch keeps its index entry. */
  lemma {:induction false} IndexUntouched(t: Records, es: seq<MissingEvent>, e: seq<byte>)
    requires forall i :: 0 <= i < |es| ==> es[i].eventId != e
    ensures e in Inserted(t, es).index <==> e in t.index
    ensures e in t.index ==> Inserted(t, es).index[e] == t.index[e]
  {
    if es != [] {
      IndexUntouched(t, es[..|es| - 1], e);
    }
  }

  lemma {:induction false} DistinctKeepsOneToOne(t: Records, es: seq<MissingEvent>)
    requires OneToOne(t) && Covered(t) && Room(t, |es|) && Distinct(es)
    ensures OneToOne(Inserted(t, es))
  {
    if es != [] {
      var n := |es| - 1;
      DistinctKeepsOneToOne(t, es[..n]);
      IndexUntouched(t, es[..n], es[n].eventId);
      InsertedCovered(t, es[..n]);
      NextIdIsAbove(t, es);
      InsertOneKeeps(t, Inserted(t, es[..n]), es[n]);
    }
  }

  lemma NextIdIsAbove(t: Records, es: seq<MissingEvent>)
    requires Room(t, |es|) && es != []
    ensures
      var prev := Inserted(t, es[..|es| - 1]);
      BigEndian(Successor(prev.counter)) == BigEndian(prev.counter) + 1
  {
    CounterMoves(t, es[..|es| - 1]);
    CounterMoves(t, es);
  }

  lemma InsertOneKeeps(before: Records, t: Records, e: MissingEvent)
    requires OneToOne(t) && Covered(t) && BigEndian(Successor(t.counter)) > BigEndian(t.counter)
    requires e.eventId in before.index <==> e.eventId in t.index
    requires e.eventId in t.index ==> before.index[e.eventId] == t.index[e.eventId]
    ensures OneToOne(InsertedOne(before, t, e))
  {
    var id, r := Successor(t.counter), InsertedOne(before, t, e);
    assert id !in t.events;
    forall x | x in r.index ensures Names(r, r.index[x], x) {
      if x != e.eventId {
        assert Names(t, t.index[x], x);
      }
    }
    forall k | k in r.events
      ensures r.events[k].Some? && r.events[k].value.eventId in r.index && r.index[r.events[k].value.eventId] == k
    {
    }
  }

  lemma InsertOneLeaves(before: Records, t: Records, e: MissingEvent, id: seq<byte>, x: seq<byte>)
    requires Names(t, id, x) && id != Successor(t.counter)
    requires e.eventId in before.index ==> before.index[e.eventId] != id
    ensures Names(InsertedOne(before, t, e), id, x)
  {
  }

  /** No index entry points beyond the counter. */
  ghost predicate IndexCovered(t: Records) {
    forall e :: e in t.index ==> |t.index[e]| == 16 && BigEndian(t.index[e]) <= BigEndian(t.counter)
  }

  /** A record added by a batch is still there at the end of the batch, whatever the batch repeats. */
  lemma {:induction false} AddedRecordStays(t: Records, es: seq<MissingEvent>, i: nat)
    requires IndexCovered(t) && Room(t, |es|) && i < |es|
    ensures Names(Inserted(t, es), Inserted(t, es[..i + 1]).counter, es[i].eventId)
  {
    var n := |es| - 1;
    if i == n {
      assert es[..i + 1] == es;
    } else {
      AddedRecordStays(t, es[..n], i);
      assert es[..n][..i + 1] == es[..i + 1];
      CounterMoves(t, es[..i + 1]);
      CounterMoves(t, es);
      InsertOneLeaves(t, Inserted(t, es[..n]), es[n], Inserted(t, es[..i + 1]).counter, es[i].eventId);
    }
  }

  /**
    Adding a batch keeps index and records in one-to-one correspondence exactly when the batch names no event
    twice: earlier records are looked up before the batch, so a repeated id leaves an orphan record.
   */
  lemma AddKeepsExactlyWhenDistinct(tc: TimeCodec, t: Records, es: seq<MissingEvent>)
    requires Sound(tc) && ShortIds(es) && OneToOne(t) && Covered(t) && Room(t, |es|)
    ensures OneToOne(Added(tc, t, es)) <==> Distinct(es)
    ensures Covered(Added(tc, t, es))
  {
    AddedIsInserted(tc, t, es);
    InsertedCovered(t, es);
    if Distinct(es) {
      DistinctKeepsOneToOne(t, es);
    } else {
      var i, j :| 0 <= i < j < |es| && es[i].eventId == es[j].eventId;
      forall e | e in t.index ensures |t.index[e]| == 16 && BigEndian(t.index[e]) <= BigEndian(t.counter) {
        assert Names(t, t.index[e], e);
      }
      AddedRecordStays(t, es, i);
      AddedRecordStays(t, es, j);
      CounterMoves(t, es[..i + 1]);
      CounterMoves(t, es[..j + 1]);
    }
  }

  lemma IncrementKeeps(tc: TimeCodec, t: Records, eventId: seq<byte>, now: Time)
    requires Sound(tc) && OneToOne(t) && Covered(t) && |eventId| < 0x8000
    ensures OneToOne(Incremented(tc, t, eventId, now)) && Covered(Incremented(tc, t, eventId, now))
  {
    if Marked(t, eventId) {
      var e := Bumped(t.events[t.index[eventId]].value, now);
      assert Names(t, t.index[eventId], eventId);
      RoundTrip(tc, e);
      ReplaceKeeps(t, eventId, Kept(e));
    }
  }

  lemma ReplaceKeeps(t: Records, eventId: seq<byte>, e: MissingEvent)
    requires OneToOne(t) && eventId in t.index && e.eventId == eventId
    ensures OneToOne(t.(events := t.events[t.index[eventId] := Some(e)]))
  {
    var r := t.(events := t.events[t.index[eventId] := Some(e)]);
    forall x | x in r.index ensures Names(r, r.index[x], x) {
      assert Names(t, t.index[x], x);
    }
  }

  lemma RemoveKeeps(t: Records, eventId: seq<byte>)
    requires OneToOne(t)
    ensures OneToOne(Removed(t, eventId))
    ensures Covered(t) ==> Covered(Removed(t, eventId))
    ensures eventId in t.index ==>
              |Removed(t, eventId).index| == |t.index| - 1 && |Removed(t, eventId).events| == |t.events| - 1
  {
    var r := Removed(t, eventId);
    forall x | x in r.index ensures Names(r, r.index[x], x) {
      assert Names(t, t.index[x], x);
      if eventId in t.index {
        assert Names(t, t.index[eventId], eventId);
      }
    }
    if eventId in t.index {
      assert Names(t, t.index[eventId], eventId);
      assert r.index.Keys == t.index.Keys - {eventId} && r.events.Keys == t.events.Keys - {t.index[eventId]};
    }
  }

  /** Counting the index counts the records. */
  lemma {:induction false} CountIsRecords(t: Records)
    requires OneToOne(t)
    ensures |t.index| == |t.events|
    decreases |t.index|
  {
    if e :| e in t.index {
      RemoveKeeps(t, e);
      CountIsRecords(Removed(t, e));
    } else {
      assert t.index == map[];
      if id :| id in t.events {
        assert t.events[id].value.eventId in t.index;
      }
      assert t.events == map[];
    }
  }

  // ---------- Whole runs ----------

  datatype Operation =
    | Add(batch: seq<MissingEvent>)
    | Increment(eventId: seq<byte>, now: Time)
    | Remove(eventId: seq<byte>)

  ghost function Stepped(tc: TimeCodec, t: Records, op: Operation): Records {
    match op
    case Add(es) => Added(tc, t, es)
    case Increment(e, now) => Incremented(tc, t, e, now)
    case Remove(e) => Removed(t, e)
  }

  ghost function RunOf(tc: TimeCodec, t: Records, ops: seq<Operation>): Records {
    if ops == [] then t else Stepped(tc, RunOf(tc, t, ops[..|ops| - 1]), ops[|ops| - 1])
  }

  function TotalAdded(ops: seq<Operation>): nat {
    if ops == [] then 0 else TotalAdded(ops[..|ops| - 1]) + AddedBy(ops[|ops| - 1])
  }

  /** What callers pass: distinct ids per batch, ids shorter than 32768 bytes. */
  ghost predicate WellUsed(op: Operation) {
    match op
    case Add(es) => Distinct(es) && ShortIds(es)
    case Increment(e, _) => |e| < 0x8000
    case Remove(_) => true
  }

  function AddedBy(op: Operation): nat { if op.Add? then |op.batch| else 0 }

  lemma StepKeeps(tc: TimeCodec, t: Records, op: Operation)
    requires Sound(tc) && WellUsed(op) && OneToOne(t) && Covered(t) && Room(t, AddedBy(op))
    ensures OneToOne(Stepped(tc, t, op)) && Covered(Stepped(tc, t, op))
    ensures BigEndian(Stepped(tc, t, op).counter) == BigEndian(t.counter) + AddedBy(op)
  {
    match op {
      case Add(es) =>
        AddKeepsExactlyWhenDistinct(tc, t, es);
        AddedIsInserted(tc, t, es);
        CounterMoves(t, es);
      case Increment(e, now) => IncrementKeeps(tc, t, e, now);
      case Remove(e) => RemoveKeeps(t, e);
    }
  }

  const EMPTY: Records := Records(ZERO_ID, map[], map[])

  /**
    In every state reached from an empty store by well-used operations, before the counter wraps around,
    index and records correspond one to one and the count of the index is the number of records.
   */
  lemma {:induction false} EveryRunIsOneToOne(tc: TimeCodec, ops: seq<Operation>)
    requires Sound(tc) && TotalAdded(ops) < Pow256(16)
    requires forall i :: 0 <= i < |ops| ==> WellUsed(ops[i])
    ensures
      var t := RunOf(tc, EMPTY, ops);
      OneToOne(t) && Covered(t) && BigEndian(t.counter) == TotalAdded(ops) && |t.index| == |t.events|
  {
    if ops == [] {
      ZeroIsZero(ZERO_ID);
    } else {
      var n := |ops| - 1;
      EveryRunIsOneToOne(tc, ops[..n]);
      StepKeeps(tc, RunOf(tc, EMPTY, ops[..n]), ops[n]);
    }
    CountIsRecords(RunOf(tc, EMPTY, ops));
  }

  lemma {:induction false} ZeroIsZero(s: seq<byte>)
    requires forall i :: 0 <= i < |s| ==> s[i] == 0
    ensures BigEndian(s) == 0
  {
    if s != [] {
      ZeroIsZero(s[..|s| - 1]);
    }
  }
}
