/**
  Working off a missing block range: page after page of the events the chain search holds in the range is
  recorded as missing, and the stored range shrinks on the way.
 */
module BlockBackfill {
  import opened Prelude
  import opened StateKeys
  import opened MissingEventCodec
  import opened StateStore

  // ---------- One chunk ----------

  /** The store's operation that records one missing event. */
  type AddOp = (Records, MissingEvent) -> Records

  /** Recording an event marks it and unmarks nothing. */
  ghost predicate Marks(add: AddOp) { forall t, e :: MarksOne(add, t, e) }

  ghost predicate MarksOne(add: AddOp, t: Records, e: MissingEvent) {
    add(t, e).index.Keys == t.index.Keys + {e.eventId}
  }

  /** The LevelDB store's operation is one. */
  lemma LevelDBMarks(tc: TimeCodec)
    ensures Marks((t, e) => Added(tc, t, [e]))
  {
    var add: AddOp := (t, e) => Added(tc, t, [e]);
    forall t: Records, e: MissingEvent ensures MarksOne(add, t, e) {
      assert [e][..0] == [];
      assert Added(tc, t, []) == t;
    }
  }

  /** Events recorded one by one. */
  function AddedEach(add: AddOp, t: Records, es: seq<MissingEvent>): Records {
    if es == [] then t else add(AddedEach(add, t, es[..|es| - 1]), es[|es| - 1])
  }

  /** What is left of a range once a chunk ending at this height is recorded. */
  function Shrunk(s: State, id: Id, range: BlockRange, maxHeight: int64): State {
    if maxHeight >= range.high - 1 then RemovedRange(s, id)
    else UpdatedRange(s, id, BlockRange(maxHeight, range.high))
  }

  function Handled(add: AddOp, s: State, id: Id, range: BlockRange, es: seq<MissingEvent>): State {
    var recorded := WithMissing(s, AddedEach(add, s.missing, es));
    if es == [] then recorded else Shrunk(recorded, id, range, es[|es| - 1].blockHeight)
  }

  // ---------- Pages ----------

  /** How many events come before page k. */
  function Start(k: nat, chunk: nat): nat { if k == 0 then 0 else Start(k - 1, chunk) + chunk }

  function Min(a: nat, b: nat): nat { if a < b then a else b }

  /** What the search answers for the page that starts at `retrieved`: results ascend by height. */
  function Search(found: seq<MissingEvent>, retrieved: nat, chunk: nat): seq<MissingEvent> {
    found[Min(retrieved, |found|)..Min(retrieved + chunk, |found|)]
  }

  /** The store after the first k pages. */
  function AfterPages(add: AddOp, s: State, id: Id, range: BlockRange, found: seq<MissingEvent>, chunk: nat, k: nat): State {
    if k == 0 then s
    else Handled(add, AfterPages(add, s, id, range, found, chunk, k - 1), id, range, Search(found, Start(k - 1, chunk), chunk))
  }

  lemma NextPage(add: AddOp, s: State, id: Id, range: BlockRange, found: seq<MissingEvent>, chunk: nat, k: nat)
    ensures Start(k + 1, chunk) == Start(k, chunk) + chunk
    ensures AfterPages(add, s, id, range, found, chunk, k + 1) ==
            Handled(add, AfterPages(add, s, id, range, found, chunk, k), id, range, Search(found, Start(k, chunk), chunk))
  {
  }

  /** The backfilling half of the harmoniser; its store is the store interface's abstract state. */
  class BlockBackfiller {
    const add: AddOp
    const chunk: nat
    var state: State

    constructor (add: AddOp, chunk: nat, state: State)
      ensures this.add == add && this.chunk == chunk && this.state == state
    {
      this.add, this.chunk, this.state := add, chunk, state;
    }

    method HandleBacklogChunk(id: Id, range: BlockRange, events: seq<MissingEvent>)
      modifies this
      ensures state == Handled(add, old(state), id, range, events)
    {
      ghost var s := state;
      for i := 0 to |events|
        invariant state == WithMissing(s, AddedEach(add, s.missing, events[..i]))
      {
        assert events[..i + 1][..i] == events[..i];
        state := WithMissing(state, add(state.missing, events[i]));
      }
      assert events[..|events|] == events;
      if |events| > 0 {
        var maxHeight := events[|events| - 1].blockHeight;
        if maxHeight >= range.high - 1 {
          state := RemovedRange(state, id);
        } else {
          state := UpdatedRange(state, id, BlockRange(maxHeight, range.high));
        }
      }
    }

    /**
      Scans one range. `answered(k)` says whether the k-th search request succeeds; the scan stops at the
      first that does not.
     */
    method BackfillRange(id: Id, range: BlockRange, found: seq<MissingEvent>, answered: nat -> bool)
      returns (completed: bool, pages: nat)
      requires chunk > 0
      modifies this
      ensures forall k :: 0 <= k < pages ==> answered(k)
      ensures completed ==> pages > 0 && Start(pages, chunk) >= |found|
      ensures !completed ==> !answered(pages) && (pages > 0 ==> Start(pages, chunk) < |found|)
      ensures state == ScanResult(add, old(state), id, range, found, chunk, pages, completed)
    {
      ghost var s := state;
      pages := 0;
      if !answered(pages) {
        return false, pages;
      }
      var retrieved := 0;
      HandleBacklogChunk(id, range, Search(found, retrieved, chunk));
      NextPage(add, s, id, range, found, chunk, pages);
      retrieved := retrieved + chunk;
      pages := pages + 1;
      while retrieved < |found|
        invariant pages > 0 && retrieved == Start(pages, chunk)
        invariant forall k :: 0 <= k < pages ==> answered(k)
        invariant state == AfterPages(add, s, id, range, found, chunk, pages)
        decreases |found| - retrieved
      {
        if !answered(pages) {
          return false, pages;
        }
        HandleBacklogChunk(id, range, Search(found, retrieved, chunk));
        NextPage(add, s, id, range, found, chunk, pages);
        retrieved := retrieved + chunk;
        pages := pages + 1;
      }
      state := RemovedRange(state, id);
      return true, pages;
    }
  }

  // ---------- What is recorded ----------

  /** The search answers events of the range, in ascending order of height. */
  ghost predicate Answer(range: BlockRange, found: seq<MissingEvent>) {
    (forall i :: 0 <= i < |found| ==> range.low <= found[i].blockHeight < range.high) &&
    (forall i, j :: 0 <= i < j < |found| ==> found[i].blockHeight <= found[j].blockHeight)
  }

  ghost function Ids(es: seq<MissingEvent>): set<seq<byte>> {
    if es == [] then {} else Ids(es[..|es| - 1]) + {es[|es| - 1].eventId}
  }

  lemma {:induction false} IdsHave(es: seq<MissingEvent>, i: nat)
    requires i < |es|
    ensures es[i].eventId in Ids(es)
  {
    if i < |es| - 1 {
      IdsHave(es[..|es| - 1], i);
    }
  }

  lemma {:induction false} AddedEachMarks(add: AddOp, t: Records, es: seq<MissingEvent>)
    requires Marks(add)
    ensures AddedEach(add, t, es).index.Keys == t.index.Keys + Ids(es)
  {
    if es != [] {
      var n := |es| - 1;
      AddedEachMarks(add, t, es[..n]);
      assert MarksOne(add, AddedEach(add, t, es[..n]), es[n]);
    }
  }

  /** After k pages the first k pages of events are marked missing. */
  lemma {:induction false} PagesAreRecorded(add: AddOp, s: State, id: Id, range: BlockRange,
                                            found: seq<MissingEvent>, chunk: nat, k: nat, i: nat)
    requires Marks(add) && i < Min(Start(k, chunk), |found|)
    ensures found[i].eventId in AfterPages(add, s, id, range, found, chunk, k).missing.index.Keys
  {
    var r := Start(k - 1, chunk);
    PageMarks(add, s, id, range, found, chunk, k);
    if i < Min(r, |found|) {
      PagesAreRecorded(add, s, id, range, found, chunk, k - 1, i);
    } else {
      IdsHave(Search(found, r, chunk), i - Min(r, |found|));
    }
  }

  lemma PageMarks(add: AddOp, s: State, id: Id, range: BlockRange, found: seq<MissingEvent>, chunk: nat, k: nat)
    requires Marks(add) && k > 0
    ensures
      AfterPages(add, s, id, range, found, chunk, k).missing.index.Keys ==
      AfterPages(add, s, id, range, found, chunk, k - 1).missing.index.Keys + Ids(Search(found, Start(k - 1, chunk), chunk))
  {
    AddedEachMarks(add, AfterPages(add, s, id, range, found, chunk, k - 1).missing, Search(found, Start(k - 1, chunk), chunk));
  }

  /** The stored range depends only on the last event recorded. */
  lemma RangeAfterPages(add: AddOp, s: State, id: Id, range: BlockRange, found: seq<MissingEvent>, chunk: nat, k: nat)
    requires k > 0 && chunk > 0 && Start(k - 1, chunk) < |found| && Answer(range, found)
    ensures
      var last := found[Min(Start(k, chunk), |found|) - 1].blockHeight;
      var ranges := AfterPages(add, s, id, range, found, chunk, k).ranges;
      if last >= range.high - 1 then id !in ranges
      else id in ranges && ranges[id] == Some(BlockRange(last, range.high))
  {
    var page := Search(found, Start(k - 1, chunk), chunk);
    assert page[|page| - 1] == found[Min(Start(k, chunk), |found|) - 1];
  }

  // ---------- Main results ----------

  /** When a scan completes, every event of the range has been marked missing and the range is gone. */
  lemma CompletedScanRecordsAll(add: AddOp, s: State, id: Id, range: BlockRange, found: seq<MissingEvent>, chunk: nat, pages: nat)
    requires Marks(add) && Start(pages, chunk) >= |found|
    ensures
      var r := RemovedRange(AfterPages(add, s, id, range, found, chunk, pages), id);
      id !in r.ranges && forall i :: 0 <= i < |found| ==> found[i].eventId in r.missing.index
  {
    forall i | 0 <= i < |found|
      ensures found[i].eventId in AfterPages(add, s, id, range, found, chunk, pages).missing.index
    {
      PagesAreRecorded(add, s, id, range, found, chunk, pages, i);
    }
  }

  ghost predicate CoveredBy(ranges: map<seq<byte>, Option<BlockRange>>, id: Id, e: MissingEvent) {
    id in ranges && ranges[id].Some? && ranges[id].value.low <= e.blockHeight < ranges[id].value.high
  }

  /**
    When a page after the first fails, the events before it are marked missing, and the range left in the
    store covers every event not yet recorded exactly when the last page before the failure did not reach
    the top of the range: a page that ends at height High - 1 drops the range with events still to come.
   */
  lemma FailedScanCoversRest(add: AddOp, s: State, id: Id, range: BlockRange, found: seq<MissingEvent>, chunk: nat, pages: nat)
    requires Marks(add) && chunk > 0 && pages > 0 && Start(pages, chunk) < |found| && Answer(range, found)
    ensures
      var r := AfterPages(add, s, id, range, found, chunk, pages);
      (forall i :: 0 <= i < Start(pages, chunk) ==> found[i].eventId in r.missing.index) &&
      ((forall i :: Start(pages, chunk) <= i < |found| ==> CoveredBy(r.ranges, id, found[i])) <==>
       found[Start(pages, chunk) - 1].blockHeight < range.high - 1)
  {
    forall i | 0 <= i < Start(pages, chunk)
      ensures found[i].eventId in AfterPages(add, s, id, range, found, chunk, pages).missing.index
    {
      PagesAreRecorded(add, s, id, range, found, chunk, pages, i);
    }
    RangeAfterPages(add, s, id, range, found, chunk, pages);
    LeftRangeCovers(AfterPages(add, s, id, range, found, chunk, pages).ranges, id, range, found, Start(pages, chunk));
  }

  lemma LeftRangeCovers(ranges: map<seq<byte>, Option<BlockRange>>, id: Id, range: BlockRange, found: seq<MissingEvent>, n: nat)
    requires 0 < n < |found| && Answer(range, found)
    requires
      var last := found[n - 1].blockHeight;
      if last >= range.high - 1 then id !in ranges else id in ranges && ranges[id] == Some(BlockRange(last, range.high))
    ensures (forall i :: n <= i < |found| ==> CoveredBy(ranges, id, found[i])) <==> found[n - 1].blockHeight < range.high - 1
  {
    if found[n - 1].blockHeight >= range.high - 1 {
      assert !CoveredBy(ranges, id, found[n]);
    }
  }

  /** The store after a scan of so many pages: a completed scan also removes the range. */
  function ScanResult(add: AddOp, s: State, id: Id, range: BlockRange, found: seq<MissingEvent>, chunk: nat, pages: nat, completed: bool): State {
    var after := AfterPages(add, s, id, range, found, chunk, pages);
    if completed then RemovedRange(after, id) else after
  }

  /**
    However a scan ends, at its first request, at a later one or complete: what it has retrieved is marked
    missing, and the store still accounts for the rest exactly when there is none, nothing was retrieved, or
    the last page retrieved did not reach the top of the range.
   */
  lemma ScanOutcome(add: AddOp, s: State, id: Id, range: BlockRange, found: seq<MissingEvent>, chunk: nat, pages: nat, completed: bool)
    requires Marks(add) && chunk > 0 && Answer(range, found) && id in s.ranges && s.ranges[id] == Some(range)
    requires if completed then Start(pages, chunk) >= |found| else pages > 0 ==> Start(pages, chunk) < |found|
    ensures
      var r := ScanResult(add, s, id, range, found, chunk, pages, completed);
      var done := Min(Start(pages, chunk), |found|);
      (forall i :: 0 <= i < done ==> found[i].eventId in r.missing.index) &&
      (completed ==> id !in r.ranges) &&
      ((forall i :: done <= i < |found| ==> CoveredBy(r.ranges, id, found[i])) <==>
       completed || pages == 0 || found[done - 1].blockHeight < range.high - 1)
  {
    if completed {
      CompletedScanRecordsAll(add, s, id, range, found, chunk, pages);
    } else if pages > 0 {
      StartGrows(pages, chunk);
      FailedScanCoversRest(add, s, id, range, found, chunk, pages);
    }
  }

  lemma StartGrows(k: nat, chunk: nat)
    requires k > 0 && chunk > 0
    ensures Start(k, chunk) > 0
  {
  }

  /** Two events in the last block of a range, one per page: if the second page fails, its event is lost. */
  lemma LastBlockCanBeLost(add: AddOp, s: State, id: Id, range: BlockRange, a: MissingEvent, b: MissingEvent)
    requires Marks(add) && a.eventId != b.eventId && b.eventId !in s.missing.index
    requires range.low < range.high && a.blockHeight == b.blockHeight == range.high - 1
    ensures
      var r := AfterPages(add, s, id, range, [a, b], 1, 1);
      id !in r.ranges && b.eventId !in r.missing.index
  {
    var found := [a, b];
    RangeAfterPages(add, s, id, range, found, 1, 1);
    PageMarks(add, s, id, range, found, 1, 1);
    assert Search(found, Start(0, 1), 1) == [a] && [a][..0] == [];
    assert Ids([a]) == Ids([]) + {a.eventId};
  }
}
