/** How far the retry queue can grow: items evicted while their handler runs come back when it fails. */
module RetryGrowth {
  import opened Prelude
  import opened OrderedScan
  import opened DiskQueue
  import opened RetryLoop

  ghost predicate Reaches<T(!new)>(backoff: seq<nat>, start: Loop<T>, s: Loop<T>) {
    exists steps :: Run(backoff, start, steps) == s
  }

  lemma ReachesStart<T(!new)>(backoff: seq<nat>, start: Loop<T>)
    ensures Reaches(backoff, start, start)
  {
    assert Run(backoff, start, []) == start;
  }

  lemma ReachesNext<T(!new)>(backoff: seq<nat>, start: Loop<T>, s: Loop<T>, step: Step<T>)
    requires Reaches(backoff, start, s)
    ensures Reaches(backoff, start, Stepped(backoff, s, step))
  {
    var steps :| Run(backoff, start, steps) == s;
    assert (steps + [step])[..|steps|] == steps;
    assert Run(backoff, start, steps + [step]) == Stepped(backoff, s, step);
  }

  ghost predicate Untried<T(!new)>(item: RetryItem<T>, t: Time) { item.attempts == 0 && item.lastAttempt == t }

  /** The keys from before an id. */
  ghost function Prior<T(!new)>(items: map<nat, RetryItem<T>>, first: nat): set<nat> { set k | k in items && k < first }

  /** A full queue of n items, `left` of them from before the id `first` and the others pushed at t. */
  ghost predicate Replaced<T(!new)>(s: Loop<T>, size: nat, n: nat, first: nat, left: nat, t: Time) {
    s.maxSize == Some(size) && |s.items| == n >= Bound(size) && first <= s.nextId &&
    (forall k :: k in s.items ==> k < s.nextId) && |Prior(s.items, first)| == left &&
    forall k :: k in s.items && k >= first ==> Untried(s.items[k], t)
  }

  /** A push into a full queue replaces its oldest item. */
  lemma PushReplaces<T(!new)>(backoff: seq<nat>, s: Loop<T>, size: nat, n: nat, first: nat, left: nat, item: T, t: Time)
    requires Replaced(s, size, n, first, left, t) && left > 0
    ensures
      var r := Stepped(backoff, s, PushItem(item, t));
      Replaced(r, size, n, first, left - 1, t) && r.inHand == s.inHand && r.current == s.current
  {
    var r := Stepped(backoff, s, PushItem(item, t));
    var prior := Prior(s.items, first);
    assert s.items != map[] && prior != {};
    var oldest := MinKey(s.items);
    assert oldest in prior;
    assert Trimmed(s.items, s.maxSize).Keys == s.items.Keys - {oldest};
    assert r.items.Keys == s.items.Keys - {oldest} + {s.nextId};
    assert Prior(r.items, first) == prior - {oldest};
  }

  lemma {:induction false} PushesReplace<T(!new)>(backoff: seq<nat>, start: Loop<T>, s: Loop<T>, size: nat, n: nat, first: nat,
                                            left: nat, item: T, t: Time)
    returns (r: Loop<T>)
    requires Reaches(backoff, start, s) && Replaced(s, size, n, first, left, t)
    ensures Reaches(backoff, start, r) && Replaced(r, size, n, first, 0, t) && r.inHand == s.inHand && r.current == s.current
    decreases left
  {
    if left == 0 {
      r := s;
    } else {
      PushReplaces(backoff, s, size, n, first, left, item, t);
      ReachesNext(backoff, start, s, PushItem(item, t));
      r := PushesReplace(backoff, start, Stepped(backoff, s, PushItem(item, t)), size, n, first, left - 1, item, t);
    }
  }

  /** A queue of n items, whose loop has yet to come to some, all of them pushed at t. */
  ghost predicate Grown<T(!new)>(s: Loop<T>, size: nat, n: nat, t: Time) {
    s.maxSize == Some(size) && s.inHand.None? && |s.items| == n >= Bound(size) && (forall k :: k in s.items ==> k < s.nextId) &&
    Above(s.items.Keys, s.current) != {} && forall k :: k in Above(s.items.Keys, s.current) ==> Untried(s.items[k], t)
  }

  /** An item from before the id `first` is in hand, for the first time. */
  ghost predicate FirstTry<T(!new)>(s: Loop<T>, first: nat) {
    s.inHand.Some? && s.inHand.value.1.attempts == 0 && s.inHand.value.0 < first && s.current == Some(s.inHand.value.0)
  }

  lemma VisitTakesUp<T(!new)>(backoff: seq<nat>, start: Loop<T>, s: Loop<T>, size: nat, n: nat, t: Time, now: Time)
    returns (r: Loop<T>)
    requires Reaches(backoff, start, s) && Grown(s, size, n, t) && Delays(backoff) >= 2 && now == t + backoff[0]
    ensures Reaches(backoff, start, r) && FirstTry(r, s.nextId) && Replaced(r, size, n, s.nextId, n, now)
  {
    ReachesNext(backoff, start, s, VisitNext(now));
    r := Stepped(backoff, s, VisitNext(now));
    assert Prior(s.items, s.nextId) == s.items.Keys;
    assert r.items == s.items;
  }

  lemma FailedIsBack<T(!new)>(backoff: seq<nat>, s: Loop<T>, r: Loop<T>, size: nat, n: nat, first: nat, t: Time)
    requires Replaced(s, size, n, first, 0, t) && FirstTry(s, first) && Delays(backoff) >= 2
    requires r == Stepped(backoff, s, Finish(false, true, t))
    ensures Grown(r, size, n + 1, t)
  {
    var key := s.inHand.value.0;
    assert Prior(s.items, first) == {};
    assert forall k :: k in s.items ==> k !in Prior(s.items, first);
    assert r.items.Keys == s.items.Keys + {key};
    assert s.items != map[];
    var k :| k in s.items;
    assert k in Above(r.items.Keys, r.current);
  }

  lemma FailureBringsBack<T(!new)>(backoff: seq<nat>, start: Loop<T>, s: Loop<T>, size: nat, n: nat, first: nat, t: Time)
    returns (r: Loop<T>)
    requires Reaches(backoff, start, s) && Replaced(s, size, n, first, 0, t) && FirstTry(s, first) && Delays(backoff) >= 2
    ensures Reaches(backoff, start, r) && Grown(r, size, n + 1, t)
  {
    ReachesNext(backoff, start, s, Finish(false, true, t));
    r := Stepped(backoff, s, Finish(false, true, t));
    FailedIsBack(backoff, s, r, size, n, first, t);
  }

  /**
    The next item is taken up, the whole queue is replaced while its handler runs, and then it fails: the queue
    holds one item more.
   */
  lemma RoundGrows<T(!new)>(backoff: seq<nat>, start: Loop<T>, s: Loop<T>, size: nat, n: nat, t: Time, now: Time, item: T)
    returns (r: Loop<T>)
    requires Reaches(backoff, start, s) && Grown(s, size, n, t) && Delays(backoff) >= 2 && now == t + backoff[0]
    ensures Reaches(backoff, start, r) && Grown(r, size, n + 1, now)
  {
    r := VisitTakesUp(backoff, start, s, size, n, t, now);
    r := PushesReplace(backoff, start, r, size, n, s.nextId, n, item, now);
    r := FailureBringsBack(backoff, start, r, size, n, s.nextId, now);
  }

  /** A queue opened empty and holding k untried items. */
  ghost predicate Filled<T(!new)>(s: Loop<T>, size: nat, k: nat) {
    s == Opened(s.items, k, Some(size)) && |s.items| == k && forall j :: j in s.items ==> j < k && Untried(s.items[j], 0)
  }

  lemma PushFills<T(!new)>(backoff: seq<nat>, s: Loop<T>, size: nat, k: nat, item: T)
    requires Filled(s, size, k) && k < Bound(size)
    ensures Filled(Stepped(backoff, s, PushItem(item, 0)), size, k + 1)
  {
    assert Trimmed(s.items, s.maxSize) == s.items;
    assert Stepped(backoff, s, PushItem(item, 0)).items.Keys == s.items.Keys + {k};
  }

  /** Pushing fills an empty queue up to its bound. */
  lemma {:induction false} PushesFill<T(!new)>(backoff: seq<nat>, size: nat, k: nat, item: T) returns (r: Loop<T>)
    requires k <= Bound(size)
    ensures Reaches(backoff, Opened(map[], 0, Some(size)), r) && Filled(r, size, k)
  {
    if k == 0 {
      r := Opened(map[], 0, Some(size));
      ReachesStart(backoff, r);
    } else {
      var s := PushesFill(backoff, size, k - 1, item);
      PushFills(backoff, s, size, k - 1, item);
      ReachesNext(backoff, Opened(map[], 0, Some(size)), s, PushItem(item, 0));
      r := Stepped(backoff, s, PushItem(item, 0));
    }
  }

  lemma FilledIsGrown<T(!new)>(s: Loop<T>, size: nat)
    requires Filled(s, size, Bound(size))
    ensures Grown(s, size, Bound(size), 0)
  {
    assert Above(s.items.Keys, None) == s.items.Keys;
  }

  lemma {:induction false} GrowsTo<T(!new)>(backoff: seq<nat>, size: nat, n: nat, item: T) returns (r: Loop<T>, t: Time)
    requires Delays(backoff) >= 2 && n >= Bound(size)
    ensures Reaches(backoff, Opened(map[], 0, Some(size)), r) && Grown(r, size, n, t)
    decreases n
  {
    if n == Bound(size) {
      r := PushesFill(backoff, size, n, item);
      t := 0;
      FilledIsGrown(r, size);
    } else {
      r, t := GrowsTo(backoff, size, n - 1, item);
      r := RoundGrows(backoff, Opened(map[], 0, Some(size)), r, size, n - 1, t, t + backoff[0], item);
      t := t + backoff[0];
    }
  }

  /**
    With two delays or more, whatever they are, a queue of any maximum size can come to hold any number of
    items.
   */
  lemma SizeHasNoFixedBound<T(!new)>(backoff: seq<nat>, size: nat, n: nat, item: T)
    requires Delays(backoff) >= 2
    ensures exists steps: seq<Step<T>> :: |Run(backoff, Opened(map[], 0, Some(size)), steps).items| == n
  {
    if n <= Bound(size) {
      var r := PushesFill(backoff, size, n, item);
    } else {
      var r, t := GrowsTo(backoff, size, n, item);
    }
  }

  /** The exact condition: every run keeps to the size limit if and only if there are fewer than two delays. */
  lemma SizeBoundedExactly<T(!new)>(backoff: seq<nat>, size: nat, item: T)
    ensures
      Delays(backoff) < 2 <==>
      forall steps: seq<Step<T>> :: |Run(backoff, Opened(map[], 0, Some(size)), steps).items| <= Bound(size)
  {
    if Delays(backoff) < 2 {
      forall steps: seq<Step<T>> ensures |Run(backoff, Opened(map[], 0, Some(size)), steps).items| <= Bound(size) {
        SizeIsBounded(backoff, Opened(map[], 0, Some(size)), steps);
      }
    } else {
      SizeHasNoFixedBound(backoff, size, Bound(size) + 1, item);
    }
  }
}
