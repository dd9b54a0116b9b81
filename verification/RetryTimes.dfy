/** When the retry loop calls its handler: each item waits for its own delay, counted from its push or its last failure. */
module RetryTimes {
  import opened Prelude
  import opened OrderedScan
  import opened RetryLoop

  // ---------- The story of a run ----------

  /** What happens to a key: it is pushed, handed to the handler, and its outcome is recorded, or not. */
  datatype Happening =
    | Queued(key: nat, at: Time)
    | Call(key: nat, at: Time)
    | Failure(key: nat, at: Time)
    | Success(key: nat, at: Time)
    | Unrecorded(key: nat, at: Time)

  /** What a step does, seen from outside: by the states before and after it. */
  ghost function Happened<T>(s: Loop<T>, step: Step<T>, r: Loop<T>): Option<Happening> {
    match step
    case PushItem(_, now) => Some(Queued(s.nextId, now))
    case Sweep => None
    case VisitNext(now) => if s.inHand.None? && r.inHand.Some? then Some(Call(r.inHand.value.0, now)) else None
    case Finish(succeeded, recorded, now) =>
      if s.inHand.None? then None
      else
        var key := s.inHand.value.0;
        Some(if !recorded then Unrecorded(key, now) else if succeeded then Success(key, now) else Failure(key, now))
  }

  ghost function Told(story: seq<Happening>, h: Option<Happening>): seq<Happening> {
    if h.None? then story else story + [h.value]
  }

  ghost function Story<T>(backoff: seq<nat>, start: Loop<T>, steps: seq<Step<T>>): seq<Happening> {
    if steps == [] then []
    else
      var before := steps[..|steps| - 1];
      Told(Story(backoff, start, before), Happened(Run(backoff, start, before), steps[|steps| - 1], Run(backoff, start, steps)))
  }

  /** The last that happened to a key. */
  ghost function Last(story: seq<Happening>, k: nat): Option<Happening> {
    if story == [] then None
    else if story[|story| - 1].key == k then Some(story[|story| - 1])
    else Last(story[..|story| - 1], k)
  }

  /** How often a key was handed to the handler. */
  ghost function CallsOf(story: seq<Happening>, k: nat): nat {
    if story == [] then 0
    else
      var last := story[|story| - 1];
      CallsOf(story[..|story| - 1], k) + if last.Call? && last.key == k then 1 else 0
  }

  /** Every outcome for the key was recorded. */
  ghost predicate AllRecorded(story: seq<Happening>, k: nat) {
    forall i :: 0 <= i < |story| && story[i].key == k ==> !story[i].Unrecorded?
  }

  lemma ToldOnce(story: seq<Happening>, h: Happening, k: nat)
    ensures Last(story + [h], k) == if h.key == k then Some(h) else Last(story, k)
    ensures CallsOf(story + [h], k) == CallsOf(story, k) + if h.Call? && h.key == k then 1 else 0
    ensures AllRecorded(story + [h], k) <==> AllRecorded(story, k) && (h.key == k ==> !h.Unrecorded?)
  {
    var more := story + [h];
    assert more[..|story|] == story && more[|story|] == h;
    assert forall i :: 0 <= i < |story| ==> more[i] == story[i];
  }

  // ---------- Waiting ----------

  /** The attempts at a key so far, those found on disk included. */
  ghost function Attempts<T>(found: map<nat, RetryItem<T>>, story: seq<Happening>, k: nat): nat {
    CallsOf(story, k) + if k in found then found[k].attempts else 0
  }

  /** The moment a key waits from: its push, its last failure, or what was found on disk; None if it waits for nothing. */
  ghost function WaitsFrom<T>(found: map<nat, RetryItem<T>>, story: seq<Happening>, k: nat): Option<Time> {
    match Last(story, k)
    case None => if k in found then Some(found[k].lastAttempt) else None
    case Some(Queued(_, at)) => Some(at)
    case Some(Failure(_, at)) => Some(at)
    case _ => None
  }

  /** The queue's own record of a key agrees with its story. */
  ghost predicate Agrees<T>(found: map<nat, RetryItem<T>>, s: Loop<T>, story: seq<Happening>, k: nat) {
    (k in s.items && !InHand(s, k) ==>
      WaitsFrom(found, story, k) == Some(s.items[k].lastAttempt) && Attempts(found, story, k) == s.items[k].attempts) &&
    (InHand(s, k) ==>
      Last(story, k).Some? && Last(story, k).value.Call? && Attempts(found, story, k) == s.inHand.value.1.attempts + 1)
  }

  ghost predicate StoryRight<T>(found: map<nat, RetryItem<T>>, s: Loop<T>, story: seq<Happening>) {
    (forall k: nat :: k in s.items || InHand(s, k) ==> k < s.nextId) &&
    (forall k: nat :: k >= s.nextId ==> k !in found && Last(story, k).None? && CallsOf(story, k) == 0) &&
    (forall k: nat :: AllRecorded(story, k) ==> Agrees(found, s, story, k))
  }

  lemma ToldEffects(story: seq<Happening>, h: Happening)
    ensures forall k: nat :: Last(story + [h], k) == if h.key == k then Some(h) else Last(story, k)
    ensures forall k: nat :: CallsOf(story + [h], k) == CallsOf(story, k) + if h.Call? && h.key == k then 1 else 0
    ensures forall k: nat :: AllRecorded(story + [h], k) ==> AllRecorded(story, k) && (h.key == k ==> !h.Unrecorded?)
  {
    forall k: nat
      ensures Last(story + [h], k) == if h.key == k then Some(h) else Last(story, k)
      ensures CallsOf(story + [h], k) == CallsOf(story, k) + if h.Call? && h.key == k then 1 else 0
      ensures AllRecorded(story + [h], k) ==> AllRecorded(story, k) && (h.key == k ==> !h.Unrecorded?)
    {
      ToldOnce(story, h, k);
    }
  }

  lemma PushKeepsStory<T>(backoff: seq<nat>, found: map<nat, RetryItem<T>>, s: Loop<T>, item: T, now: Time, story: seq<Happening>)
    requires StoryRight(found, s, story)
    ensures StoryRight(found, Stepped(backoff, s, PushItem(item, now)), story + [Queued(s.nextId, now)])
  {
    var r, told := Stepped(backoff, s, PushItem(item, now)), story + [Queued(s.nextId, now)];
    ToldEffects(story, Queued(s.nextId, now));
    assert forall k: nat :: InHand(r, k) == InHand(s, k);
    assert forall k: nat :: k in r.items ==> k == s.nextId || (k in s.items && r.items[k] == s.items[k]);
    forall k: nat | AllRecorded(told, k) ensures Agrees(found, r, told, k) {
      assert Agrees(found, s, story, k);
    }
  }

  lemma CallKeepsStory<T>(found: map<nat, RetryItem<T>>, s: Loop<T>, r: Loop<T>, key: nat, now: Time, story: seq<Happening>)
    requires StoryRight(found, s, story) && s.inHand.None? && key in s.items
    requires r.items == s.items && r.nextId == s.nextId && r.inHand == Some((key, s.items[key]))
    ensures StoryRight(found, r, story + [Call(key, now)])
  {
    var told := story + [Call(key, now)];
    ToldEffects(story, Call(key, now));
    assert forall k: nat :: !InHand(s, k) && (InHand(r, k) <==> k == key);
    forall k: nat | AllRecorded(told, k) ensures Agrees(found, r, told, k) {
      assert Agrees(found, s, story, k);
    }
  }

  /** A visit that calls nobody leaves the story as it is. */
  lemma PassKeepsStory<T>(found: map<nat, RetryItem<T>>, s: Loop<T>, r: Loop<T>, story: seq<Happening>)
    requires StoryRight(found, s, story) && r.nextId == s.nextId && r.inHand == s.inHand
    requires forall k :: k in r.items ==> k in s.items && r.items[k] == s.items[k]
    ensures StoryRight(found, r, story)
  {
    assert forall k: nat :: InHand(r, k) == InHand(s, k);
    forall k: nat | AllRecorded(story, k) ensures Agrees(found, r, story, k) {
      assert Agrees(found, s, story, k);
    }
  }

  lemma FinishKeepsStory<T>(found: map<nat, RetryItem<T>>, s: Loop<T>, r: Loop<T>, h: Happening, story: seq<Happening>)
    requires StoryRight(found, s, story) && s.inHand.Some? && h.key == s.inHand.value.0 && !h.Call?
    requires r.inHand.None? && r.nextId == s.nextId
    requires forall k :: k in r.items && k != h.key ==> k in s.items && r.items[k] == s.items[k]
    requires h.key in r.items && !h.Unrecorded? ==> h.Failure? && r.items[h.key] == Failed(s.inHand.value.1, h.at)
    ensures StoryRight(found, r, story + [h])
  {
    var told := story + [h];
    ToldEffects(story, h);
    assert InHand(s, h.key);
    assert forall k: nat :: !InHand(r, k) && (InHand(s, k) <==> k == h.key);
    forall k: nat | AllRecorded(told, k) ensures Agrees(found, r, told, k) {
      assert Agrees(found, s, story, k);
    }
  }

  lemma VisitKeepsStory<T>(backoff: seq<nat>, found: map<nat, RetryItem<T>>, s: Loop<T>, now: Time, story: seq<Happening>)
    requires StoryRight(found, s, story)
    ensures
      var r := Stepped(backoff, s, VisitNext(now));
      StoryRight(found, r, Told(story, Happened(s, VisitNext(now), r)))
  {
    var r := Stepped(backoff, s, VisitNext(now));
    if s.inHand.None? && r.inHand.Some? {
      CallKeepsStory(found, s, r, r.inHand.value.0, now, story);
    } else {
      PassKeepsStory(found, s, r, story);
    }
  }

  lemma StepKeepsStory<T>(backoff: seq<nat>, found: map<nat, RetryItem<T>>, s: Loop<T>, step: Step<T>, story: seq<Happening>)
    requires StoryRight(found, s, story)
    ensures
      var r := Stepped(backoff, s, step);
      StoryRight(found, r, Told(story, Happened(s, step, r)))
  {
    var r := Stepped(backoff, s, step);
    match step
    case PushItem(item, now) => PushKeepsStory(backoff, found, s, item, now, story);
    case Sweep => PassKeepsStory(found, s, r, story);
    case VisitNext(now) => VisitKeepsStory(backoff, found, s, now, story);
    case Finish(succeeded, recorded, now) =>
      if s.inHand.Some? {
        FinishKeepsStory(found, s, r, Happened(s, step, r).value, story);
      }
  }

  lemma {:induction false} RunKeepsStory<T>(backoff: seq<nat>, start: Loop<T>, steps: seq<Step<T>>)
    requires StoryRight(start.items, start, [])
    ensures StoryRight(start.items, Run(backoff, start, steps), Story(backoff, start, steps))
  {
    if steps != [] {
      var before := steps[..|steps| - 1];
      RunKeepsStory(backoff, start, before);
      StepKeepsStory(backoff, start.items, Run(backoff, start, before), steps[|steps| - 1], Story(backoff, start, before));
    }
  }

  lemma OpenedIsRight<T>(items: map<nat, RetryItem<T>>, nextId: nat, maxSize: Option<nat>)
    requires forall j :: j in items ==> j < nextId
    ensures StoryRight(items, Opened(items, nextId, maxSize), [])
  {
  }

  // ---------- The results ----------

  /** The key's next attempt may be made: there is a delay left, and it has passed. */
  ghost predicate WaitIsOver<T>(backoff: seq<nat>, found: map<nat, RetryItem<T>>, story: seq<Happening>, k: nat, now: Time) {
    Attempts(found, story, k) < |backoff| && WaitsFrom(found, story, k).Some? &&
    WaitsFrom(found, story, k).value + backoff[Attempts(found, story, k)] <= now
  }

  /**
    In every run, from any queue found on disk: a visit hands the next key to the handler if and only if that
    key has a delay left for this attempt and the delay has passed since its push, its last recorded failure or
    the attempt found on disk. A key without a delay left is removed. This holds of every key whose outcomes so
    far were all recorded.
   */
  lemma VisitCallsExactly<T>(backoff: seq<nat>, items: map<nat, RetryItem<T>>, nextId: nat, maxSize: Option<nat>,
                             steps: seq<Step<T>>, now: Time, key: nat)
    requires forall j :: j in items ==> j < nextId
    requires
      var s := Run(backoff, Opened(items, nextId, maxSize), steps);
      s.inHand.None? && IsLeast(key, Above(s.items.Keys, s.current)) &&
      AllRecorded(Story(backoff, Opened(items, nextId, maxSize), steps), key)
    ensures
      var start := Opened(items, nextId, maxSize);
      var s, story := Run(backoff, start, steps), Story(backoff, start, steps);
      var r := Stepped(backoff, s, VisitNext(now));
      (InHand(r, key) <==> WaitIsOver(backoff, items, story, key, now)) &&
      (key !in r.items <==> Attempts(items, story, key) >= |backoff|)
  {
    var start := Opened(items, nextId, maxSize);
    OpenedIsRight(items, nextId, maxSize);
    RunKeepsStory(backoff, start, steps);
    var s := Run(backoff, start, steps);
    assert !InHand(s, key);
    assert Agrees(items, s, Story(backoff, start, steps), key);
    assert Least(Above(s.items.Keys, s.current)) == key;
  }

  /** Every call in the story, of a key whose outcomes before were all recorded, waited as it should. */
  ghost predicate CallsWaited<T>(backoff: seq<nat>, found: map<nat, RetryItem<T>>, story: seq<Happening>) {
    forall i :: 0 <= i < |story| && story[i].Call? && AllRecorded(story[..i], story[i].key) ==>
      WaitIsOver(backoff, found, story[..i], story[i].key, story[i].at)
  }

  lemma CallsWaitedNext<T>(backoff: seq<nat>, found: map<nat, RetryItem<T>>, story: seq<Happening>, h: Happening)
    requires CallsWaited(backoff, found, story)
    requires h.Call? && AllRecorded(story, h.key) ==> WaitIsOver(backoff, found, story, h.key, h.at)
    ensures CallsWaited(backoff, found, story + [h])
  {
    var more := story + [h];
    forall i | 0 <= i < |more| && more[i].Call? && AllRecorded(more[..i], more[i].key)
      ensures WaitIsOver(backoff, found, more[..i], more[i].key, more[i].at)
    {
      assert more[..i] == story[..i];
      if i == |story| {
        assert story[..i] == story;
      }
    }
  }

  lemma VisitWaited<T>(backoff: seq<nat>, found: map<nat, RetryItem<T>>, s: Loop<T>, now: Time, story: seq<Happening>)
    requires StoryRight(found, s, story) && s.inHand.None?
    ensures
      var r := Stepped(backoff, s, VisitNext(now));
      r.inHand.Some? && AllRecorded(story, r.inHand.value.0) ==> WaitIsOver(backoff, found, story, r.inHand.value.0, now)
  {
    var r := Stepped(backoff, s, VisitNext(now));
    if r.inHand.Some? && AllRecorded(story, r.inHand.value.0) {
      assert !InHand(s, r.inHand.value.0);
      assert Agrees(found, s, story, r.inHand.value.0);
    }
  }

  /**
    In every run, from any queue found on disk, every call comes after its delay: call number n of a key, counted
    from 0 with earlier attempts included, comes no earlier than backoff[n] after the key's push or its last
    recorded failure, and never after a recorded success. This holds of every key whose outcomes before the
    call were all recorded.
   */
  lemma {:induction false} EveryCallWaits<T>(backoff: seq<nat>, items: map<nat, RetryItem<T>>, nextId: nat, maxSize: Option<nat>,
                                             steps: seq<Step<T>>)
    requires forall j :: j in items ==> j < nextId
    ensures CallsWaited(backoff, items, Story(backoff, Opened(items, nextId, maxSize), steps))
  {
    if steps != [] {
      var start, before, step := Opened(items, nextId, maxSize), steps[..|steps| - 1], steps[|steps| - 1];
      EveryCallWaits(backoff, items, nextId, maxSize, before);
      OpenedIsRight(items, nextId, maxSize);
      RunKeepsStory(backoff, start, before);
      var s, story := Run(backoff, start, before), Story(backoff, start, before);
      var h := Happened(s, step, Run(backoff, start, steps));
      if h.Some? {
        if h.value.Call? {
          VisitWaited(backoff, items, s, step.now, story);
        }
        CallsWaitedNext(backoff, items, story, h.value);
      }
    }
  }

  /**
    In every run, from any queue found on disk: once the outcome of a call is recorded, the key is in the queue if
    and only if the call failed and the attempts so far are fewer than the delays, counted in 32 bits. This holds
    of every key whose outcomes before were all recorded.
   */
  lemma OutcomeKeepsExactly<T>(backoff: seq<nat>, items: map<nat, RetryItem<T>>, nextId: nat, maxSize: Option<nat>,
                               steps: seq<Step<T>>, succeeded: bool, now: Time, key: nat)
    requires forall j :: j in items ==> j < nextId
    requires
      var start := Opened(items, nextId, maxSize);
      InHand(Run(backoff, start, steps), key) && AllRecorded(Story(backoff, start, steps), key)
    ensures
      var start := Opened(items, nextId, maxSize);
      var s, story := Run(backoff, start, steps), Story(backoff, start, steps);
      key in Stepped(backoff, s, Finish(succeeded, true, now)).items <==>
      !succeeded && Attempts(items, story, key) < |backoff| % 0x1_0000_0000
  {
    var start := Opened(items, nextId, maxSize);
    OpenedIsRight(items, nextId, maxSize);
    RunKeepsStory(backoff, start, steps);
    assert Agrees(items, Run(backoff, start, steps), Story(backoff, start, steps), key);
  }
}
