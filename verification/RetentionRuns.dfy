/**
  The event collection under retention: storing events, dropping expired ones, and what any history of
  stores and scans leaves behind.
 */
module RetentionRuns {
  import opened Prelude
  import opened RetentionRule
  import opened MongoPipeline
  import opened RetentionCompiler

  datatype Op = Insert(event: Event) | Scan(now: int)

  /** The unique index refuses a second document with the same event hash. */
  ghost function Stored(c: set<Event>, e: Event): set<Event> {
    if exists x :: x in c && x.id == e.id then c else c + {e}
  }

  ghost function Step(p: Policy, op: Op, c: set<Event>): set<Event> {
    match op
    case Insert(e) => Stored(c, e)
    case Scan(now) => Kept(p, now, c)
  }

  /** The collection after a history of stores and scans, starting empty. */
  ghost function Exec(p: Policy, ops: seq<Op>): set<Event> {
    if ops == [] then {} else Step(p, ops[|ops| - 1], Exec(p, ops[..|ops| - 1]))
  }

  /** Every event the history ever tried to store. */
  ghost function Inserted(ops: seq<Op>): set<Event> {
    if ops == [] then {}
    else
      var last := ops[|ops| - 1];
      Inserted(ops[..|ops| - 1]) + (if last.Insert? then {last.event} else {})
  }

  ghost predicate ClockMovesForward(ops: seq<Op>) {
    forall i, j :: 0 <= i < j < |ops| && ops[i].Scan? && ops[j].Scan? ==> ops[i].now <= ops[j].now
  }

  // ---------- The collection ----------

  class EventCollection {
    var docs: seq<Event>

    ghost predicate Valid()
      reads this
    {
      UniqueIds(docs)
    }

    constructor ()
      ensures Valid() && docs == []
    {
      docs := [];
    }

    /** Stores a document, or reports that its event hash is already stored. */
    method Store(e: Event) returns (stored: bool)
      requires Valid()
      modifies this
      ensures Valid()
      ensures stored <==> forall x :: x in old(docs) ==> x.id != e.id
      ensures docs == if stored then old(docs) + [e] else old(docs)
      ensures forall p :: EventSet(docs) == Step(p, Insert(e), old(EventSet(docs)))
    {
      for i := 0 to |docs|
        invariant forall j :: 0 <= j < i ==> docs[j].id != e.id
        invariant docs == old(docs)
      {
        if docs[i].id == e.id {
          assert docs[i] in docs;
          return false;
        }
      }
      docs := docs + [e];
      assert EventSet(docs) == old(EventSet(docs)) + {e};
      return true;
    }

    /**
      Compiles the policy, runs the pipeline and deletes what it reports: afterwards the collection holds
      exactly what the plain rule keeps. An invalid policy deletes nothing.
     */
    method DropExpiredEvents(p: Policy, now: int) returns (err: Option<BuildError>)
      requires Valid()
      modifies this
      ensures Valid()
      ensures err.None? <==> RetentionRule.Valid(p)
      ensures err.Some? ==> docs == old(docs)
      ensures err.None? ==> EventSet(docs) == Step(p, Scan(now), old(EventSet(docs)))
    {
      var aggregate := BuildAggregate(p, now);
      if aggregate.Err? {
        return Some(aggregate.error);
      }
      var results := Run(aggregate.value, Docs(docs));
      ghost var ids := ExpiredIds(p, now, EventSet(docs));
      assert results.Some? && Reports(results.value, ids);
      if |results.value| == 0 {
        assert forall e :: e in docs && Expired(p, now, EventSet(docs), e) ==> e.id in ids;
        assert EventSet(docs) == Kept(p, now, EventSet(docs));
        return None;
      }
      var doomed := results.value[0].events.items;
      assert forall e :: e in docs ==> (Hash(e.id) in doomed <==> e.id in ids);
      docs := Without(docs, doomed);
      WithoutElements(old(docs), doomed);
      assert EventSet(docs) == Kept(p, now, old(EventSet(docs))) by {
        forall e | e in old(docs) ensures e.id in ids <==> Expired(p, now, old(EventSet(docs)), e) {
          if e.id in ids {
            var x :| x in old(docs) && Expired(p, now, old(EventSet(docs)), x) && x.id == e.id;
            var i :| 0 <= i < |old(docs)| && old(docs)[i] == e;
            var j :| 0 <= j < |old(docs)| && old(docs)[j] == x;
            assert old(docs)[i].id == old(docs)[j].id;
          }
        }
      }
      return None;
    }
  }

  function Without(es: seq<Event>, doomed: seq<Bson>): seq<Event> {
    if es == [] then []
    else (if Hash(es[0].id) in doomed then [] else [es[0]]) + Without(es[1..], doomed)
  }

  lemma {:induction false} WithoutElements(es: seq<Event>, doomed: seq<Bson>)
    requires UniqueIds(es)
    ensures UniqueIds(Without(es, doomed))
    ensures forall e :: e in Without(es, doomed) <==> e in es && Hash(e.id) !in doomed
  {
    if es != [] {
      assert UniqueIds(es[1..]);
      WithoutElements(es[1..], doomed);
      assert es == [es[0]] + es[1..];
      var rest := Without(es[1..], doomed);
      forall k | 0 <= k < |rest| ensures rest[k].id != es[0].id {
        assert rest[k] in es[1..];
      }
    }
  }

  // ---------- Histories ----------

  /** A filter that no longer keeps an event never keeps it again. */
  lemma RetentionOnlyEnds(p: Policy, e: Event, now: int, later: int)
    requires now <= later
    ensures Retained(p, e, later) ==> Retained(p, e, now)
  {
    if Retained(p, e, later) {
      var i :| 0 <= i < |p.filters| && Retains(p.filters[i], e, later);
      assert Retains(p.filters[i], e, now);
    }
  }

  lemma SubsetSize(a: set<Event>, b: set<Event>)
    requires a <= b
    ensures |a| <= |b|
  {
    assert b == a + (b - a);
  }

  /** Ahead grows with time and with the collection. */
  lemma AheadGrows(p: Policy, now: int, later: int, c: set<Event>, d: set<Event>, e: Event)
    requires now <= later && c <= d
    ensures Ahead(p, now, c, e) <= Ahead(p, later, d, e)
    ensures |Ahead(p, now, c, e)| <= |Ahead(p, later, d, e)|
  {
    forall x | x in Ahead(p, now, c, e) ensures x in Ahead(p, later, d, e) {
      RetentionOnlyEnds(p, x, now, later);
    }
    SubsetSize(Ahead(p, now, c, e), Ahead(p, later, d, e));
  }

  /** A full buffer stays full: a scan keeps at least a bufferful of the events ahead of e. */
  lemma {:induction false} ScanKeepsBuffer(p: Policy, now: int, c: set<Event>, e: Event)
    requires |Ahead(p, now, c, e)| >= Volume(p)
    ensures |Ahead(p, now, Kept(p, now, c), e)| >= Volume(p)
    decreases |Ahead(p, now, c, e)|
  {
    var ahead, kept := Ahead(p, now, c, e), Kept(p, now, c);
    if y :| y in ahead && Expired(p, now, c, y) {
      assert Ahead(p, now, c, y) <= ahead && y !in Ahead(p, now, c, y);
      SubsetSize(Ahead(p, now, c, y) + {y}, ahead);
      ScanKeepsBuffer(p, now, c, y);
      assert Ahead(p, now, kept, y) <= Ahead(p, now, kept, e);
      SubsetSize(Ahead(p, now, kept, y), Ahead(p, now, kept, e));
    } else {
      assert Ahead(p, now, kept, e) == ahead;
    }
  }

  /** Whatever is gone from c was rightly dropped: it stays behind a full buffer of what is left. */
  ghost predicate RightlyDropped(p: Policy, now: int, c: set<Event>, all: set<Event>) {
    c <= all &&
    forall x :: x in all && x !in c ==> !Retained(p, x, now) && |Ahead(p, now, c, x)| >= Volume(p)
  }

  lemma RightlyDroppedLater(p: Policy, now: int, later: int, c: set<Event>, all: set<Event>)
    requires now <= later && RightlyDropped(p, now, c, all)
    ensures RightlyDropped(p, later, c, all)
  {
    forall x | x in all && x !in c
      ensures !Retained(p, x, later) && |Ahead(p, later, c, x)| >= Volume(p)
    {
      RetentionOnlyEnds(p, x, now, later);
      AheadGrows(p, now, later, c, c, x);
    }
  }

  lemma RightlyDroppedStore(p: Policy, now: int, c: set<Event>, all: set<Event>, e: Event)
    requires RightlyDropped(p, now, c, all) && DistinctIds(all + {e})
    ensures RightlyDropped(p, now, Stored(c, e), all + {e})
  {
    forall x | x in all && x !in Stored(c, e)
      ensures |Ahead(p, now, Stored(c, e), x)| >= Volume(p)
    {
      AheadGrows(p, now, now, c, Stored(c, e), x);
    }
  }

  lemma RightlyDroppedScan(p: Policy, now: int, c: set<Event>, all: set<Event>)
    requires RightlyDropped(p, now, c, all)
    ensures RightlyDropped(p, now, Kept(p, now, c), all)
  {
    forall x | x in all && x !in Kept(p, now, c)
      ensures !Retained(p, x, now) && |Ahead(p, now, Kept(p, now, c), x)| >= Volume(p)
    {
      ScanKeepsBuffer(p, now, c, x);
    }
  }

  /** If only rightly dropped events are missing, a scan cannot tell. */
  lemma ScanCannotTell(p: Policy, now: int, c: set<Event>, all: set<Event>)
    requires RightlyDropped(p, now, c, all)
    ensures Kept(p, now, c) == Kept(p, now, all)
  {
    forall x | x in all
      ensures x in Kept(p, now, c) <==> x in Kept(p, now, all)
    {
      AheadGrows(p, now, now, c, all, x);
      if x in c && |Ahead(p, now, all, x)| >= Volume(p) > |Ahead(p, now, c, x)| {
        assert Ahead(p, now, all, x) != Ahead(p, now, c, x);
        var y :| y in Ahead(p, now, all, x) && y !in Ahead(p, now, c, x);
        SubsetSize(Ahead(p, now, c, y), Ahead(p, now, c, x));
      }
    }
  }

  lemma {:induction false} ExecInvariant(p: Policy, ops: seq<Op>, now: int)
    requires ClockMovesForward(ops) && DistinctIds(Inserted(ops))
    requires forall i :: 0 <= i < |ops| && ops[i].Scan? ==> ops[i].now <= now
    ensures RightlyDropped(p, now, Exec(p, ops), Inserted(ops))
  {
    if ops != [] {
      var before, last := ops[..|ops| - 1], ops[|ops| - 1];
      assert Inserted(before) <= Inserted(ops);
      match last
      case Insert(e) =>
        ExecInvariant(p, before, now);
        RightlyDroppedStore(p, now, Exec(p, before), Inserted(before), e);
      case Scan(t) =>
        ExecInvariant(p, before, t);
        RightlyDroppedScan(p, t, Exec(p, before), Inserted(before));
        RightlyDroppedLater(p, t, now, Exec(p, ops), Inserted(ops));
    }
  }

  /**
    After any history of stores and scans that ends in a scan, the collection is what one scan at that
    time leaves of everything ever stored: earlier scans never change the outcome.
   */
  lemma HistoryDoesNotMatter(p: Policy, ops: seq<Op>, now: int)
    requires ClockMovesForward(ops + [Scan(now)]) && DistinctIds(Inserted(ops))
    ensures Exec(p, ops + [Scan(now)]) == Kept(p, now, Inserted(ops))
  {
    var run := ops + [Scan(now)];
    assert run[..|run| - 1] == ops;
    assert forall i :: 0 <= i < |ops| ==> run[i] == ops[i];
    forall i | 0 <= i < |ops| && ops[i].Scan? ensures ops[i].now <= now {
      assert run[i].Scan? && run[|ops|].Scan?;
    }
    ExecInvariant(p, ops, now);
    ScanCannotTell(p, now, Exec(p, ops), Inserted(ops));
  }

  /** Scanning twice at the same time, or at an earlier time first, leaves what one scan leaves. */
  lemma ScansAreIdempotent(p: Policy, now: int, later: int, c: set<Event>)
    requires now <= later
    ensures Kept(p, later, Kept(p, now, c)) == Kept(p, later, c)
  {
    RightlyDroppedScan(p, now, c, c);
    RightlyDroppedLater(p, now, later, Kept(p, now, c), c);
    ScanCannotTell(p, later, Kept(p, now, c), c);
  }
}
