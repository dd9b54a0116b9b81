/** The agent's retry loop: failed items are tried again with growing delays, a bounded number of times. */
module RetryLoop {
  import opened Prelude
  import opened OrderedScan
  import opened DiskQueue

  type Time = int

  datatype RetryItem<T> = RetryItem(firstAttempt: Time, lastAttempt: Time, attempts: nat, item: T)

  datatype Decision = Exhausted | NotDue | Due

  function Check<T>(backoff: seq<nat>, item: RetryItem<T>, now: Time): Decision {
    if item.attempts >= |backoff| then Exhausted
    else if item.lastAttempt + backoff[item.attempts] > now then NotDue
    else Due
  }

  /** The number of delays as the loop compares it: in 32 bits. */
  function Delays(backoff: seq<nat>): (n: nat)
    ensures n <= |backoff|
  {
    |backoff| % 0x1_0000_0000
  }

  function Failed<T>(item: RetryItem<T>, now: Time): RetryItem<T> {
    item.(lastAttempt := now, attempts := item.attempts + 1)
  }

  /** The queue after an attempt with a copy of the item read before the attempt. */
  ghost function AfterAttempt<T>(c: map<nat, RetryItem<T>>, backoff: seq<nat>, key: nat, item: RetryItem<T>,
                                 succeeded: bool, now: Time): map<nat, RetryItem<T>>
  {
    if !succeeded && item.attempts + 1 < Delays(backoff) then c[key := Failed(item, now)] else c - {key}
  }

  class RetryQueue<T> {
    const queue: DiskQueue<RetryItem<T>>
    const backoff: seq<nat>

    constructor (maxSize: Option<nat>, backoff: seq<nat>)
      ensures this.backoff == backoff && fresh(queue) && queue.Valid() && queue.Items() == map[]
    {
      this.backoff := backoff;
      queue := new DiskQueue(maxSize);
    }

    method Push(item: T, now: Time) returns (key: u64)
      requires queue.Valid() && queue.nextId < MAX_ID
      modifies queue
      ensures queue.Valid() && key == old(queue.nextId) && queue.nextId == key + 1
      ensures queue.Items() == Pushed(old(queue.Items()), queue.maxSize, key, RetryItem(now, now, 0, item))
    {
      key := queue.Push(RetryItem(now, now, 0, item));
    }

    /** What the loop does with an item the iterator yields, up to the call of the handler. */
    method Visit(key: u64, item: RetryItem<T>, now: Time) returns (decision: Decision)
      requires queue.Valid()
      modifies queue`tree
      ensures queue.Valid() && decision == Check(backoff, item, now)
      ensures queue.Items() == if decision.Exhausted? then old(queue.Items()) - {key} else old(queue.Items())
    {
      if item.attempts >= |backoff| {
        queue.Remove(key);
        return Exhausted;
      }
      var interval := backoff[item.attempts];
      if item.lastAttempt + interval > now {
        return NotDue;
      }
      return Due;
    }

    /** What follows the handler's answer; nothing changes if the database fails to record it. */
    method AttemptRetryAndUpdate(key: u64, item: RetryItem<T>, succeeded: bool, recorded: bool, now: Time)
      requires queue.Valid()
      modifies queue`tree
      ensures queue.Valid()
      ensures
        queue.Items() ==
        if recorded then AfterAttempt(old(queue.Items()), backoff, key, item, succeeded, now) else old(queue.Items())
    {
      if !recorded {
        return;
      }
      if succeeded {
        queue.Remove(key);
        return;
      }
      var again := item.(lastAttempt := now, attempts := item.attempts + 1);
      if again.attempts < |backoff| % 0x1_0000_0000 {
        queue.Update(key, again);
      } else {
        queue.Remove(key);
      }
    }
  }

  // ---------- Whole runs ----------

  /** The keys handed to the handler, and those of them whose outcome the database failed to record. */
  datatype Ledger = Ledger(calls: seq<nat>, unrecorded: seq<nat>)

  /**
    The loop and the queue it works on. While the handler runs, the item in hand is a copy, and pushes go on.
    `givenUp` are the keys dropped after a failure, and `resurrected` counts the updates of items that had been
    evicted from the queue meanwhile.
   */
  datatype Loop<T> = Loop(
    items: map<nat, RetryItem<T>>, nextId: nat, maxSize: Option<nat>,
    current: Option<nat>, inHand: Option<(nat, RetryItem<T>)>,
    ledger: Ledger, givenUp: set<nat>, resurrected: nat)

  /** A loop about to start on the queue found on disk. */
  function Opened<T>(items: map<nat, RetryItem<T>>, nextId: nat, maxSize: Option<nat>): Loop<T> {
    Loop(items, nextId, maxSize, None, None, Ledger([], []), {}, 0)
  }

  datatype Step<T> =
    | PushItem(item: T, now: Time)
    | Sweep
    | VisitNext(now: Time)
    | Finish(succeeded: bool, recorded: bool, now: Time)

  ghost function Stepped<T>(backoff: seq<nat>, s: Loop<T>, step: Step<T>): Loop<T> {
    match step
    case PushItem(item, now) =>
      s.(items := Pushed(s.items, s.maxSize, s.nextId, RetryItem(now, now, 0, item)), nextId := s.nextId + 1)
    case Sweep => if s.inHand.Some? then s else s.(current := None)
    case VisitNext(now) => if s.inHand.Some? || Above(s.items.Keys, s.current) == {} then s else Visited(backoff, s, now)
    case Finish(succeeded, recorded, now) =>
      if s.inHand.None? then s
      else if recorded then Finished(backoff, s, succeeded, now)
      else s.(inHand := None, ledger := Missed(s.ledger, s.inHand.value.0))
  }

  ghost function Visited<T>(backoff: seq<nat>, s: Loop<T>, now: Time): Loop<T>
    requires Above(s.items.Keys, s.current) != {}
  {
    var key := Least(Above(s.items.Keys, s.current));
    match Check(backoff, s.items[key], now)
    case Exhausted => s.(current := Some(key), items := s.items - {key}, givenUp := s.givenUp + {key})
    case NotDue => s.(current := Some(key))
    case Due => s.(current := Some(key), inHand := Some((key, s.items[key])), ledger := Called(s.ledger, key))
  }

  ghost function Finished<T>(backoff: seq<nat>, s: Loop<T>, succeeded: bool, now: Time): Loop<T>
    requires s.inHand.Some?
  {
    var (key, item) := s.inHand.value;
    s.(items := AfterAttempt(s.items, backoff, key, item, succeeded, now), inHand := None,
       givenUp := if !succeeded && item.attempts + 1 >= Delays(backoff) then s.givenUp + {key} else s.givenUp,
       resurrected :=
         if !succeeded && item.attempts + 1 < Delays(backoff) && key !in s.items then s.resurrected + 1 else s.resurrected)
  }

  ghost function Run<T>(backoff: seq<nat>, s: Loop<T>, steps: seq<Step<T>>): Loop<T> {
    if steps == [] then s else Stepped(backoff, Run(backoff, s, steps[..|steps| - 1]), steps[|steps| - 1])
  }

  function Called(ledger: Ledger, key: nat): Ledger { ledger.(calls := ledger.calls + [key]) }

  function Missed(ledger: Ledger, key: nat): Ledger { ledger.(unrecorded := ledger.unrecorded + [key]) }

  function Count(calls: seq<nat>, k: nat): nat { multiset(calls)[k] }

  /** The calls of a key, those before the run included: what the queue read from disk recorded as attempts. */
  ghost function Total<T>(start: map<nat, RetryItem<T>>, calls: seq<nat>, k: nat): nat {
    Count(calls, k) + if k in start then start[k].attempts else 0
  }

  /** The calls of a key that the queue knows of. */
  ghost function Known<T>(start: map<nat, RetryItem<T>>, ledger: Ledger, k: nat): int {
    Total(start, ledger.calls, k) - Count(ledger.unrecorded, k)
  }

  /** Attempts recorded in the queue are the calls it knows of. */
  ghost predicate Counted<T>(backoff: seq<nat>, start: map<nat, RetryItem<T>>, s: Loop<T>) {
    (forall k :: k in s.items ==> k < s.nextId) &&
    (forall k :: k in s.items && !InHand(s, k) ==> Known(start, s.ledger, k) == s.items[k].attempts) &&
    (s.inHand.Some? ==>
      var (key, item) := s.inHand.value;
      key < s.nextId && Known(start, s.ledger, key) == item.attempts + 1 && item.attempts < |backoff| &&
      (key in s.items ==> s.items[key].attempts == item.attempts)) &&
    (forall k: nat :: k >= s.nextId ==> Known(start, s.ledger, k) == 0) &&
    Modest(backoff, start, s.ledger) &&
    (|backoff| < 0x1_0000_0000 ==> forall k :: k in s.givenUp ==> Known(start, s.ledger, k) >= |backoff|)
  }

  /** Nobody is called more often than there are delays, as far as the queue knows. */
  ghost predicate Modest<T>(backoff: seq<nat>, start: map<nat, RetryItem<T>>, ledger: Ledger) {
    forall k: nat :: Count(ledger.calls, k) > 0 ==> Known(start, ledger, k) <= |backoff|
  }

  ghost predicate InHand<T>(s: Loop<T>, k: nat) { s.inHand.Some? && s.inHand.value.0 == k }

  /** What was given up is gone for good. */
  ghost predicate Gone<T>(s: Loop<T>) {
    forall k :: k in s.givenUp ==> k < s.nextId && k !in s.items && !InHand(s, k)
  }

  lemma PushCounted<T>(backoff: seq<nat>, start: map<nat, RetryItem<T>>, s: Loop<T>, item: T, now: Time)
    requires Counted(backoff, start, s) && Gone(s)
    ensures var r := Stepped(backoff, s, PushItem(item, now)); Counted(backoff, start, r) && Gone(r)
  {
    var r := Stepped(backoff, s, PushItem(item, now));
    forall k | k in r.items && !InHand(r, k) ensures Known(start, r.ledger, k) == r.items[k].attempts {
      assert k == s.nextId || (k in s.items && !InHand(s, k));
    }
  }

  lemma OneMore(keys: seq<nat>, key: nat)
    ensures forall k :: Count(keys + [key], k) == Count(keys, k) + if k == key then 1 else 0
  {
    assert multiset(keys + [key]) == multiset(keys) + multiset{key};
  }

  lemma CallIsKnown<T>(start: map<nat, RetryItem<T>>, ledger: Ledger, key: nat)
    ensures forall k :: Known(start, Called(ledger, key), k) == Known(start, ledger, k) + if k == key then 1 else 0
    ensures forall k :: Count(Called(ledger, key).calls, k) > 0 ==> k == key || Count(ledger.calls, k) > 0
  {
    OneMore(ledger.calls, key);
  }

  lemma MissIsNotKnown<T>(start: map<nat, RetryItem<T>>, ledger: Ledger, key: nat)
    ensures forall k :: Known(start, Missed(ledger, key), k) == Known(start, ledger, k) - if k == key then 1 else 0
  {
    OneMore(ledger.unrecorded, key);
  }

  lemma CallCounted<T>(backoff: seq<nat>, start: map<nat, RetryItem<T>>, s: Loop<T>, key: nat)
    requires Counted(backoff, start, s) && Gone(s) && s.inHand.None?
    requires key in s.items && s.items[key].attempts < |backoff|
    ensures
      var r := s.(current := Some(key), inHand := Some((key, s.items[key])), ledger := Called(s.ledger, key));
      Counted(backoff, start, r) && Gone(r)
  {
    CallIsKnown(start, s.ledger, key);
    assert !InHand(s, key);
    var r := s.(current := Some(key), inHand := Some((key, s.items[key])), ledger := Called(s.ledger, key));
    forall k | k in r.items && !InHand(r, k) ensures Known(start, r.ledger, k) == r.items[k].attempts {
      assert !InHand(s, k);
    }
    assert Modest(backoff, start, r.ledger);
  }

  lemma VisitCounted<T>(backoff: seq<nat>, start: map<nat, RetryItem<T>>, s: Loop<T>, now: Time)
    requires Counted(backoff, start, s) && Gone(s) && s.inHand.None? && Above(s.items.Keys, s.current) != {}
    ensures Counted(backoff, start, Visited(backoff, s, now)) && Gone(Visited(backoff, s, now))
  {
    var key := Least(Above(s.items.Keys, s.current));
    assert key in s.items && !InHand(s, key);
    if Check(backoff, s.items[key], now).Due? {
      CallCounted(backoff, start, s, key);
    } else {
      var r := Visited(backoff, s, now);
      forall k | k in r.items && !InHand(r, k) ensures Known(start, r.ledger, k) == r.items[k].attempts {
        assert !InHand(s, k);
      }
    }
  }

  lemma FinishCounted<T>(backoff: seq<nat>, start: map<nat, RetryItem<T>>, s: Loop<T>, succeeded: bool, now: Time)
    requires Counted(backoff, start, s) && Gone(s) && s.inHand.Some?
    ensures var r := Finished(backoff, s, succeeded, now); Counted(backoff, start, r) && Gone(r)
  {
    var r := Finished(backoff, s, succeeded, now);
    forall k | k in r.items ensures Known(start, r.ledger, k) == r.items[k].attempts && k < r.nextId {
      assert k == s.inHand.value.0 || (k in s.items && !InHand(s, k));
    }
    forall k | k in r.givenUp ensures k < r.nextId && k !in r.items && !InHand(r, k) {
      assert k in s.givenUp || k == s.inHand.value.0;
      assert !InHand(r, k);
    }
  }

  lemma ForgetCounted<T>(backoff: seq<nat>, start: map<nat, RetryItem<T>>, s: Loop<T>, now: Time)
    requires Counted(backoff, start, s) && Gone(s) && s.inHand.Some?
    ensures var r := Stepped(backoff, s, Finish(false, false, now)); Counted(backoff, start, r) && Gone(r)
  {
    var key := s.inHand.value.0;
    var r := Stepped(backoff, s, Finish(false, false, now));
    MissIsNotKnown(start, s.ledger, key);
    forall k | k in r.items && !InHand(r, k) ensures Known(start, r.ledger, k) == r.items[k].attempts {
      assert InHand(s, k) <==> k == key;
    }
    forall k | k in r.givenUp ensures k < r.nextId && k !in r.items && !InHand(r, k) {
      assert !InHand(r, k);
    }
  }

  lemma StepCounted<T>(backoff: seq<nat>, start: map<nat, RetryItem<T>>, s: Loop<T>, step: Step<T>)
    requires Counted(backoff, start, s) && Gone(s)
    ensures Counted(backoff, start, Stepped(backoff, s, step)) && Gone(Stepped(backoff, s, step))
  {
    match step
    case PushItem(item, now) => PushCounted(backoff, start, s, item, now);
    case Sweep =>
      var r := Stepped(backoff, s, step);
      assert forall k :: InHand(r, k) == InHand(s, k);
    case VisitNext(now) =>
      if s.inHand.None? && Above(s.items.Keys, s.current) != {} {
        VisitCounted(backoff, start, s, now);
      }
    case Finish(succeeded, recorded, now) =>
      if s.inHand.Some? && recorded {
        FinishCounted(backoff, start, s, succeeded, now);
      } else if s.inHand.Some? {
        ForgetCounted(backoff, start, s, now);
      }
  }

  lemma {:induction false} RunCounted<T>(backoff: seq<nat>, start: Loop<T>, steps: seq<Step<T>>)
    requires Counted(backoff, start.items, start) && Gone(start)
    ensures Counted(backoff, start.items, Run(backoff, start, steps)) && Gone(Run(backoff, start, steps))
  {
    if steps != [] {
      var n := |steps| - 1;
      RunCounted(backoff, start, steps[..n]);
      StepCounted(backoff, start.items, Run(backoff, start, steps[..n]), steps[n]);
    }
  }

  /**
    In every run, from whatever queue is found on disk and however pushes fall between the loop's steps: no
    key is handed to the handler more often than there are delays, earlier attempts included, and once more
    for each call whose outcome was not recorded; and a key is given up after a call only when the calls
    number exactly that.
   */
  lemma AttemptsAreBounded<T>(backoff: seq<nat>, items: map<nat, RetryItem<T>>, nextId: nat, maxSize: Option<nat>,
                              steps: seq<Step<T>>, k: nat)
    requires forall j :: j in items ==> j < nextId
    ensures
      var r := Run(backoff, Opened(items, nextId, maxSize), steps);
      var calls, most := Count(r.ledger.calls, k), |backoff| + Count(r.ledger.unrecorded, k);
      calls <= most && (calls > 0 ==> Total(items, r.ledger.calls, k) <= most) &&
      (|backoff| < 0x1_0000_0000 && k in r.givenUp && calls > 0 ==> Total(items, r.ledger.calls, k) == most)
  {
    RunCounted(backoff, Opened(items, nextId, maxSize), steps);
  }

  // ---------- Size ----------

  ghost predicate Fits<T>(s: Loop<T>) { s.maxSize.Some? ==> |s.items| <= Bound(s.maxSize.value) + s.resurrected }

  lemma PushGrowsToBound<T>(c: map<nat, T>, maxSize: nat, key: nat, item: T)
    ensures |Pushed(c, Some(maxSize), key, item)| <= if |c| > Bound(maxSize) then |c| else Bound(maxSize)
  {
    var t := Trimmed(c, Some(maxSize));
    assert Pushed(c, Some(maxSize), key, item).Keys == t.Keys + {key};
    if |c| >= maxSize && c != map[] {
      assert t.Keys == c.Keys - {MinKey(c)};
    }
    assert |t.Keys + {key}| <= |t.Keys| + 1;
  }

  lemma StepFits<T>(backoff: seq<nat>, s: Loop<T>, step: Step<T>)
    requires Fits(s)
    ensures Fits(Stepped(backoff, s, step)) && Stepped(backoff, s, step).maxSize == s.maxSize
  {
    match step
    case PushItem(item, now) =>
      if s.maxSize.Some? {
        PushGrowsToBound(s.items, s.maxSize.value, s.nextId, RetryItem(now, now, 0, item));
      }
    case Sweep =>
    case VisitNext(now) =>
      if s.inHand.None? && Above(s.items.Keys, s.current) != {} {
        RemoveKeepsBound(s.items, Least(Above(s.items.Keys, s.current)));
      }
    case Finish(succeeded, recorded, now) => if s.inHand.Some? && recorded { FinishFits(backoff, s, succeeded, now); }
  }

  lemma FinishFits<T>(backoff: seq<nat>, s: Loop<T>, succeeded: bool, now: Time)
    requires Fits(s) && s.inHand.Some?
    ensures Fits(Finished(backoff, s, succeeded, now))
  {
    var (key, item) := s.inHand.value;
    RemoveKeepsBound(s.items, key);
    assert s.items[key := Failed(item, now)].Keys == s.items.Keys + {key};
    if key in s.items {
      assert s.items.Keys + {key} == s.items.Keys;
    }
  }

  /** With fewer than two delays nothing is ever updated, so nothing comes back. */
  lemma NothingComesBack<T>(backoff: seq<nat>, s: Loop<T>, step: Step<T>)
    requires Delays(backoff) < 2
    ensures Stepped(backoff, s, step).resurrected == s.resurrected
  {
    if step.Finish? && s.inHand.Some? {
      var item := s.inHand.value.1;
      assert item.attempts >= 0;
    }
  }

  /**
    In every run the queue holds at most max(maxSize, 1) items, and one more for every resurrection; with fewer
    than two delays there are none.
   */
  lemma {:induction false} SizeIsBounded<T>(backoff: seq<nat>, start: Loop<T>, steps: seq<Step<T>>)
    requires Fits(start)
    ensures Fits(Run(backoff, start, steps)) && Run(backoff, start, steps).maxSize == start.maxSize
    ensures Delays(backoff) < 2 ==> Run(backoff, start, steps).resurrected == start.resurrected
  {
    if steps != [] {
      var s, step := Run(backoff, start, steps[..|steps| - 1]), steps[|steps| - 1];
      SizeIsBounded(backoff, start, steps[..|steps| - 1]);
      StepFits(backoff, s, step);
      if Delays(backoff) < 2 {
        NothingComesBack(backoff, s, step);
      }
    }
  }
}
