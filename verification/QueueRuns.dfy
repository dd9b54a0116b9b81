/** Whole runs of the disk queue: an iteration interleaved with pushes, removals and updates. */
module QueueRuns {
  import opened Prelude
  import opened OrderedScan
  import opened DiskQueue

  datatype Queue<T> = Queue(items: map<nat, T>, nextId: nat, maxSize: Option<nat>)

  datatype Op<T> = Push(item: T) | Remove(key: nat) | Update(key: nat, item: T) | Next

  ghost predicate Issued<T>(q: Queue<T>) { forall k :: k in q.items ==> k < q.nextId }

  ghost function Apply<T>(q: Queue<T>, op: Op<T>): Queue<T> {
    match op
    case Push(item) => q.(items := Pushed(q.items, q.maxSize, q.nextId, item), nextId := q.nextId + 1)
    case Remove(k) => q.(items := q.items - {k})
    case Update(k, item) => q.(items := q.items[k := item])
    case Next => q
  }

  /** The keys an iterator yields along a run, from its current key on. */
  ghost function Visited<T>(q: Queue<T>, ops: seq<Op<T>>, current: Option<nat>): seq<nat>
    decreases |ops|
  {
    if ops == [] then []
    else if !ops[0].Next? then Visited(Apply(q, ops[0]), ops[1..], current)
    else if Above(q.items.Keys, current) == {} then []
    else
      var k := Least(Above(q.items.Keys, current));
      [k] + Visited(q, ops[1..], Some(k))
  }

  /** The key sets the iterator meets: one for each of its steps. */
  ghost function Met<T>(q: Queue<T>, ops: seq<Op<T>>): seq<set<nat>>
    decreases |ops|
  {
    if ops == [] then []
    else if ops[0].Next? then [q.items.Keys] + Met(q, ops[1..])
    else Met(Apply(q, ops[0]), ops[1..])
  }

  lemma {:induction false} VisitedIsScan<T>(q: Queue<T>, ops: seq<Op<T>>, current: Option<nat>)
    ensures Visited(q, ops, current) == Scan(Met(q, ops), current)
    decreases |ops|
  {
    if ops != [] {
      if ops[0].Next? {
        if Above(q.items.Keys, current) != {} {
          VisitedIsScan(q, ops[1..], Some(Least(Above(q.items.Keys, current))));
        }
        assert Met(q, ops)[1..] == Met(q, ops[1..]);
      } else {
        VisitedIsScan(Apply(q, ops[0]), ops[1..], current);
      }
    }
  }

  /**
    A completed iteration, whatever is pushed, removed and updated in between, yields strictly increasing
    keys and each key that is present at all of its steps exactly once.
   */
  lemma IterationVisitsOnce<T>(q: Queue<T>, ops: seq<Op<T>>, x: nat)
    requires Ends(Met(q, ops), None) && forall s :: s in Met(q, ops) ==> x in s
    ensures
      var v := Visited(q, ops, None);
      Increasing(v) && exists i :: 0 <= i < |v| && v[i] == x && forall j :: 0 <= j < |v| && v[j] == x ==> j == i
  {
    VisitedIsScan(q, ops, None);
    ScanUnderMutation(Met(q, ops), x);
  }

  // ---------- Size ----------

  ghost function After<T>(q: Queue<T>, ops: seq<Op<T>>): Queue<T>
    decreases |ops|
  {
    if ops == [] then q else After(Apply(q, ops[0]), ops[1..])
  }

  /** Every update along the run finds its key. */
  ghost predicate UpdatesPresent<T>(q: Queue<T>, ops: seq<Op<T>>)
    decreases |ops|
  {
    ops != [] ==> (ops[0].Update? ==> ops[0].key in q.items) && UpdatesPresent(Apply(q, ops[0]), ops[1..])
  }

  /** Pushes, removals and updates of present keys never take a queue beyond max(maxSize, 1) items. */
  lemma {:induction false} SizeStaysBounded<T>(q: Queue<T>, ops: seq<Op<T>>)
    requires Issued(q) && q.maxSize.Some? && |q.items| <= Bound(q.maxSize.value) && UpdatesPresent(q, ops)
    ensures |After(q, ops).items| <= Bound(q.maxSize.value)
    decreases |ops|
  {
    if ops != [] {
      OpKeepsBound(q, ops[0]);
      SizeStaysBounded(Apply(q, ops[0]), ops[1..]);
    }
  }

  lemma OpKeepsBound<T>(q: Queue<T>, op: Op<T>)
    requires Issued(q) && q.maxSize.Some? && |q.items| <= Bound(q.maxSize.value) && (op.Update? ==> op.key in q.items)
    ensures Issued(Apply(q, op)) && |Apply(q, op).items| <= Bound(q.maxSize.value)
  {
    match op
    case Push(item) => PushKeepsBound(q.items, q.maxSize.value, q.nextId, item);
    case Remove(k) => RemoveKeepsBound(q.items, k);
    case Update(k, item) => UpdateKeepsBoundExactly(q.items, q.maxSize.value, k, item);
    case Next =>
  }

  /** An update of a key that was evicted meanwhile brings it back: one item too many. */
  lemma UpdateResurrects<T>(a: T, b: T)
    ensures
      var q := Queue(map[], 0, Some(1));
      |After(q, [Push(a), Push(b), Update(0, a)]).items| == 2
  {
    var q: Queue<T> := Queue(map[], 0, Some(1));
    var q1 := Apply(q, Push(a));
    assert q1.items == map[0 := a];
    assert MinKey(q1.items) == 0;
    var q2 := Apply(q1, Push(b));
    assert q2.items == map[1 := b];
    var q3 := Apply(q2, Update(0, a));
    assert q3.items == map[1 := b, 0 := a];
    assert q3.items.Keys == {0, 1};
    var ops: seq<Op<T>> := [Push(a), Push(b), Update(0, a)];
    assert ops[1..] == [Push(b), Update(0, a)] && ops[1..][1..] == [Update(0, a)] && ops[1..][1..][1..] == [];
    assert After(q, ops) == After(q1, ops[1..]) == After(q2, ops[1..][1..]) == After(q3, ops[1..][1..][1..]);
  }
}
