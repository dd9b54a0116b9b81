/** The store's missing-event tables as one map of markers by event id. */
module MarkerTable {
  import opened Prelude
  import opened StateKeys
  import opened MissingEventCodec
  import opened StateStore
  import opened MissingRecords
  import opened EventIntake
  import opened EventBacklog

  ghost function MarkersOf(t: Records): Markers {
    map e | e in t.index && Names(t, t.index[e], e) :: t.events[t.index[e]].value
  }

  /** Adding an event sets its marker, retry count and flags as given, and touches no other. */
  lemma AddSetsMarker(tc: TimeCodec, t: Records, e: MissingEvent)
    requires Sound(tc) && |e.eventId| < 0x8000 && OneToOne(t) && Covered(t) && Room(t, 1)
    ensures MarkersOf(Added(tc, t, [e])) == MarkersOf(t)[e.eventId := Kept(e)]
  {
    AddedIsInserted(tc, t, [e]);
    assert [e][..0] == [];
    assert Inserted(t, []) == t;
    assert Inserted(t, [e]) == InsertedOne(t, t, e);
    CounterMoves(t, [e]);
    InsertSetsMarker(t, e);
  }

  lemma MarkerIs(t: Records, x: seq<byte>)
    requires OneToOne(t)
    ensures x in MarkersOf(t) <==> x in t.index
    ensures x in t.index ==> Names(t, t.index[x], x) && MarkersOf(t)[x] == t.events[t.index[x]].value
  {
    assert x in t.index ==> Names(t, t.index[x], x);
  }

  lemma OtherMarkersStay(t: Records, e: MissingEvent, x: seq<byte>)
    requires OneToOne(t) && Successor(t.counter) !in t.events && x in t.index && x != e.eventId
    ensures
      var r := InsertedOne(t, t, e);
      x in r.index && Names(r, r.index[x], x) && r.events[r.index[x]] == t.events[t.index[x]]
  {
    assert Names(t, t.index[x], x);
    if e.eventId in t.index {
      assert Names(t, t.index[e.eventId], e.eventId);
    }
  }

  lemma InsertSetsMarker(t: Records, e: MissingEvent)
    requires OneToOne(t) && Covered(t) && BigEndian(Successor(t.counter)) > BigEndian(t.counter)
    ensures MarkersOf(InsertedOne(t, t, e)) == MarkersOf(t)[e.eventId := Kept(e)]
  {
    assert Successor(t.counter) !in t.events;
    InsertedMarkers(t, InsertedOne(t, t, e), e);
  }

  lemma InsertedMarkers(t: Records, r: Records, e: MissingEvent)
    requires OneToOne(t) && Successor(t.counter) !in t.events && r == InsertedOne(t, t, e)
    ensures MarkersOf(r) == MarkersOf(t)[e.eventId := Kept(e)]
  {
    assert Names(r, r.index[e.eventId], e.eventId);
    forall x | x in t.index && x != e.eventId
      ensures x in MarkersOf(r) && x in MarkersOf(t) && MarkersOf(r)[x] == MarkersOf(t)[x]
    {
      MarkerIs(t, x);
      OtherMarkersStay(t, e, x);
    }
    assert MarkersOf(r).Keys == MarkersOf(t).Keys + {e.eventId};
  }

  /** Counting a request changes that marker alone: one more retry, unicast spent, last retry time lost. */
  lemma IncrementSetsMarker(tc: TimeCodec, t: Records, eventId: seq<byte>, now: Time)
    requires Sound(tc) && |eventId| < 0x8000 && OneToOne(t)
    ensures MarkersOf(Incremented(tc, t, eventId, now)) == EventBacklog.Increment(MarkersOf(t), eventId, now)
  {
    if eventId in t.index {
      assert Names(t, t.index[eventId], eventId);
      var e := Bumped(t.events[t.index[eventId]].value, now);
      RoundTrip(tc, e);
      assert Incremented(tc, t, eventId, now) == t.(events := t.events[t.index[eventId] := Some(Kept(e))]);
      ReplaceSetsMarker(t, eventId, Kept(e));
    }
  }

  lemma ReplaceSetsMarker(t: Records, eventId: seq<byte>, e: MissingEvent)
    requires OneToOne(t) && eventId in t.index && e.eventId == eventId
    ensures MarkersOf(t.(events := t.events[t.index[eventId] := Some(e)])) == MarkersOf(t)[eventId := e]
  {
    var r := t.(events := t.events[t.index[eventId] := Some(e)]);
    ReplaceKeeps(t, eventId, e);
    forall x | x in t.index ensures Names(t, t.index[x], x) && Names(r, r.index[x], x) {}
  }

  lemma RemoveClearsMarker(t: Records, eventId: seq<byte>)
    requires OneToOne(t)
    ensures MarkersOf(Removed(t, eventId)) == MarkersOf(t) - {eventId}
  {
    var r := Removed(t, eventId);
    RemoveKeeps(t, eventId);
    forall x | x in t.index ensures Names(t, t.index[x], x) {}
    forall x | x in r.index ensures Names(r, r.index[x], x) {}
  }
}
