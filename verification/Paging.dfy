/**
  Paging through an ordered table: a page seeks to the first key not below the cursor, steps past it, and
  takes what follows.
 */
module Paging {
  import opened Prelude
  import opened OrderedScan

  /** The n least keys above the cursor. */
  ghost function Take(s: set<nat>, last: Option<nat>, n: nat): seq<nat>
    decreases n
  {
    if n == 0 || Above(s, last) == {} then []
    else
      var m := Least(Above(s, last));
      [m] + Take(s, Some(m), n - 1)
  }

  lemma TakeFirst(s: set<nat>, last: Option<nat>, n: nat, m: nat)
    requires n > 0 && IsLeast(m, Above(s, last))
    ensures Take(s, last, n) == [m] + Take(s, Some(m), n - 1)
  {
    assert m == Least(Above(s, last));
  }

  ghost function From(s: set<nat>, after: nat): set<nat> { set x | x in s && x >= after }

  /** What a page call returns: the key the seek lands on is skipped, whether or not it is the cursor itself. */
  ghost function Page(s: set<nat>, after: Option<nat>, limit: nat): seq<nat> {
    if after.None? then Take(s, None, limit)
    else if From(s, after.value) == {} then []
    else Take(s, Some(Least(From(s, after.value))), limit)
  }

  /**
    A page holds exactly the next keys after the cursor when the cursor is still present, or nothing follows
    it; otherwise it silently skips one key.
   */
  lemma PageExactlyWhenPresent(s: set<nat>, after: nat, limit: nat)
    requires limit > 0
    ensures Page(s, Some(after), limit) == Take(s, Some(after), limit) <==> after in s || Above(s, Some(after)) == {}
  {
    var from, above := From(s, after), Above(s, Some(after));
    if after in s {
      assert after in from;
      assert Least(from) == after;
    } else {
      assert from == above;
      if above != {} {
        var m := Least(above);
        TakeIncreases(s, Some(m), limit);
        assert Take(s, Some(after), limit)[0] == m;
        if Page(s, Some(after), limit) != [] {
          assert Page(s, Some(after), limit)[0] > m;
        }
      }
    }
  }

  lemma {:induction false} TakeIncreases(s: set<nat>, last: Option<nat>, n: nat)
    ensures
      var v := Take(s, last, n);
      Increasing(v) && |v| <= n && forall i :: 0 <= i < |v| ==> v[i] in s && (last.Some? ==> v[i] > last.value)
    decreases n
  {
    if n > 0 && Above(s, last) != {} {
      TakeIncreases(s, Some(Least(Above(s, last))), n - 1);
    }
  }

  // ---------- Reading page after page ----------

  /**
    The keys of successive pages, one table state per page, each page continuing from the last key of the
    one before; a page that is not full is the last.
   */
  ghost function Pages(states: seq<set<nat>>, after: Option<nat>, limit: nat): seq<nat> {
    if states == [] then []
    else
      var page := Page(states[0], after, limit);
      if |page| < limit || page == [] then page
      else page + Pages(states[1..], Some(page[|page| - 1]), limit)
  }

  ghost predicate PagesEnd(states: seq<set<nat>>, after: Option<nat>, limit: nat) {
    states != [] &&
    var page := Page(states[0], after, limit);
    |page| < limit || page == [] || PagesEnd(states[1..], Some(page[|page| - 1]), limit)
  }

  /** Every cursor is still present when the next page is read. */
  ghost predicate CursorsStay(states: seq<set<nat>>, after: Option<nat>, limit: nat) {
    states != [] ==>
      (after.Some? ==> after.value in states[0]) &&
      var page := Page(states[0], after, limit);
      |page| < limit || page == [] || CursorsStay(states[1..], Some(page[|page| - 1]), limit)
  }

  /** A page that is not full has taken everything above the cursor. */
  lemma {:induction false} TakeVisits(s: set<nat>, last: Option<nat>, n: nat, x: nat)
    requires x in Above(s, last)
    ensures
      var v := Take(s, last, n);
      x in v || (|v| == n && (n > 0 ==> x > v[n - 1]))
    decreases n
  {
    if n > 0 {
      var m := Least(Above(s, last));
      if x != m {
        TakeVisits(s, Some(m), n - 1, x);
      }
    }
  }

  lemma PageIsTake(s: set<nat>, after: Option<nat>, limit: nat)
    requires after.Some? ==> after.value in s
    ensures Page(s, after, limit) == Take(s, after, limit)
  {
    if after.Some? {
      assert after.value in From(s, after.value);
      assert Least(From(s, after.value)) == after.value;
    }
  }

  lemma IncreasingConcat(a: seq<nat>, b: seq<nat>)
    requires Increasing(a) && Increasing(b)
    requires forall i :: 0 <= i < |b| && a != [] ==> b[i] > a[|a| - 1]
    ensures Increasing(a + b)
  {
  }

  lemma PageIncreases(s: set<nat>, after: Option<nat>, limit: nat)
    ensures
      var v := Page(s, after, limit);
      Increasing(v) && |v| <= limit && forall i :: 0 <= i < |v| ==> v[i] in s && (after.Some? ==> v[i] > after.value)
  {
    if after.None? {
      TakeIncreases(s, None, limit);
    } else if From(s, after.value) != {} {
      TakeIncreases(s, Some(Least(From(s, after.value))), limit);
    }
  }

  lemma {:induction false} PagesIncrease(states: seq<set<nat>>, after: Option<nat>, limit: nat)
    ensures
      var v := Pages(states, after, limit);
      Increasing(v) && forall i :: 0 <= i < |v| ==> (exists s :: s in states && v[i] in s) && (after.Some? ==> v[i] > after.value)
  {
    if states != [] {
      var page := Page(states[0], after, limit);
      assert states[0] in states;
      PageIncreases(states[0], after, limit);
      if |page| == limit && page != [] {
        var rest := Pages(states[1..], Some(page[|page| - 1]), limit);
        PagesIncrease(states[1..], Some(page[|page| - 1]), limit);
        IncreasingConcat(page, rest);
        assert Pages(states, after, limit) == page + rest;
      }
    }
  }

  lemma {:induction false} PagesVisit(states: seq<set<nat>>, after: Option<nat>, limit: nat, x: nat)
    requires limit > 0 && CursorsStay(states, after, limit) && PagesEnd(states, after, limit)
    requires (after.Some? ==> x > after.value) && forall s :: s in states ==> x in s
    ensures x in Pages(states, after, limit)
  {
    var page := Page(states[0], after, limit);
    assert states[0] in states;
    PageIsTake(states[0], after, limit);
    TakeVisits(states[0], after, limit, x);
    TakeIncreases(states[0], after, limit);
    if x !in page {
      PagesVisit(states[1..], Some(page[|page| - 1]), limit, x);
    }
  }

  /**
    Paging from the start, with every cursor still present at the next page, visits strictly increasing ids
    and each id that stays in the table exactly once, whatever is added and removed between pages.
   */
  lemma PagingVisitsOnce(states: seq<set<nat>>, limit: nat, x: nat)
    requires limit > 0 && CursorsStay(states, None, limit) && PagesEnd(states, None, limit)
    requires forall s :: s in states ==> x in s
    ensures
      var v := Pages(states, None, limit);
      Increasing(v) && exists i :: 0 <= i < |v| && v[i] == x && forall j :: 0 <= j < |v| && v[j] == x ==> j == i
  {
    PagesIncrease(states, None, limit);
    PagesVisit(states, None, limit, x);
    var v := Pages(states, None, limit);
    var i :| 0 <= i < |v| && v[i] == x;
    assert forall j :: 0 <= j < |v| && v[j] == x ==> j == i;
  }

  /** How many keys n full pages hold. */
  ghost function Keys(n: nat, limit: nat): nat { if n == 0 then 0 else limit + Keys(n - 1, limit) }

  lemma {:induction false} KeysIsProduct(n: nat, limit: nat)
    ensures Keys(n, limit) == n * limit
  {
    if n > 0 {
      KeysIsProduct(n - 1, limit);
    }
  }

  lemma FullPageFirst(states: seq<set<nat>>, after: Option<nat>, limit: nat)
    requires limit > 0 && states != [] && !PagesEnd(states, after, limit)
    ensures
      var page := Page(states[0], after, limit);
      |page| == limit && !PagesEnd(states[1..], Some(page[limit - 1]), limit) &&
      Pages(states, after, limit) == page + Pages(states[1..], Some(page[limit - 1]), limit)
  {
    PageIncreases(states[0], after, limit);
  }

  lemma {:induction false} FullPagesCount(states: seq<set<nat>>, after: Option<nat>, limit: nat)
    requires limit > 0 && !PagesEnd(states, after, limit)
    ensures |Pages(states, after, limit)| == Keys(|states|, limit)
  {
    if states != [] {
      FullPageFirst(states, after, limit);
      FullPagesCount(states[1..], Some(Page(states[0], after, limit)[limit - 1]), limit);
    }
  }

  lemma {:induction false} IncreasingIsShort(v: seq<nat>, bound: nat)
    requires Increasing(v) && forall i :: 0 <= i < |v| ==> v[i] <= bound
    ensures |v| <= bound + 1
  {
    if |v| > 1 {
      var n := |v| - 1;
      assert v[n - 1] < v[n];
      assert forall i :: 0 <= i < n ==> v[i] < v[n];
      IncreasingIsShort(v[..n], bound - 1);
    }
  }

  /**
    While ids stay below a bound, paging comes to an end, after bound / limit + 2 pages at the latest, whatever
    is removed between pages, cursors included.
   */
  lemma PagingTerminates(states: seq<set<nat>>, limit: nat, bound: nat)
    requires limit > 0 && |states| >= bound / limit + 2
    requires forall s, x :: s in states && x in s ==> x <= bound
    ensures PagesEnd(states, None, limit)
  {
    if !PagesEnd(states, None, limit) {
      FullPagesCount(states, None, limit);
      PagesIncrease(states, None, limit);
      IncreasingIsShort(Pages(states, None, limit), bound);
      KeysIsProduct(|states|, limit);
      Enough(|states|, bound, limit);
    }
  }

  lemma Enough(pages: nat, bound: nat, limit: nat)
    requires limit > 0 && pages >= bound / limit + 2
    ensures pages * limit > bound + 1
  {
    assert bound < (bound / limit + 1) * limit;
    assert pages * limit >= (bound / limit + 2) * limit;
    assert (bound / limit + 2) * limit == (bound / limit + 1) * limit + limit;
  }

  // ---------- When cursors vanish ----------

  /** The key that a seek lands on because its cursor is gone. */
  ghost function SteppedAt(s: set<nat>, after: Option<nat>): set<nat> {
    if after.Some? && after.value !in s && From(s, after.value) != {} then {Least(From(s, after.value))} else {}
  }

  /** All the keys that a pass steps over so. */
  ghost function SteppedOver(states: seq<set<nat>>, after: Option<nat>, limit: nat): set<nat> {
    if states == [] then {}
    else
      var page := Page(states[0], after, limit);
      var here := SteppedAt(states[0], after);
      if |page| < limit || page == [] then here
      else here + SteppedOver(states[1..], Some(page[|page| - 1]), limit)
  }

  lemma PageVisitsOrSteps(s: set<nat>, after: Option<nat>, limit: nat, x: nat)
    requires limit > 0 && x in s && (after.Some? ==> x > after.value)
    ensures
      var page := Page(s, after, limit);
      x in page || (|page| == limit && x > page[limit - 1]) || x in SteppedAt(s, after)
  {
    if after.None? {
      TakeVisits(s, None, limit, x);
    } else {
      assert x in From(s, after.value) && (after.value in s ==> after.value in From(s, after.value));
      var m := Least(From(s, after.value));
      if x != m {
        TakeVisits(s, Some(m), limit, x);
      }
    }
  }

  lemma {:induction false} PagesVisitOrStep(states: seq<set<nat>>, after: Option<nat>, limit: nat, x: nat)
    requires limit > 0 && PagesEnd(states, after, limit)
    requires (after.Some? ==> x > after.value) && forall s :: s in states ==> x in s
    ensures x in Pages(states, after, limit) || x in SteppedOver(states, after, limit)
  {
    var page := Page(states[0], after, limit);
    assert states[0] in states;
    PageVisitsOrSteps(states[0], after, limit, x);
    PageIncreases(states[0], after, limit);
    if |page| == limit && x > page[limit - 1] {
      PagesVisitOrStep(states[1..], Some(page[limit - 1]), limit, x);
    }
  }

  /** Everything visited or stepped over lies above the cursor. */
  lemma {:induction false} BothAbove(states: seq<set<nat>>, after: Option<nat>, limit: nat, x: nat)
    requires x in Pages(states, after, limit) || x in SteppedOver(states, after, limit)
    ensures after.Some? ==> x > after.value
  {
    var page := Page(states[0], after, limit);
    PageIncreases(states[0], after, limit);
    if |page| == limit && page != [] {
      var last := Some(page[|page| - 1]);
      if x in Pages(states[1..], last, limit) || x in SteppedOver(states[1..], last, limit) {
        BothAbove(states[1..], last, limit, x);
      }
    }
  }

  /** What a seek steps over is before its page. */
  lemma SteppedIsBefore(s: set<nat>, after: Option<nat>, limit: nat, x: nat, y: nat)
    requires x in Page(s, after, limit) && y in SteppedAt(s, after)
    ensures y < x
  {
    TakeIncreases(s, Some(Least(From(s, after.value))), limit);
  }

  lemma VisitedNowOrLater(states: seq<set<nat>>, after: Option<nat>, limit: nat, x: nat)
    requires limit > 0 && x in Pages(states, after, limit)
    ensures
      states != [] &&
      var page := Page(states[0], after, limit);
      x in page || (|page| == limit && x in Pages(states[1..], Some(page[limit - 1]), limit))
  {
    PageIncreases(states[0], after, limit);
  }

  lemma SteppedNowOrLater(states: seq<set<nat>>, after: Option<nat>, limit: nat, x: nat)
    requires limit > 0 && x in SteppedOver(states, after, limit)
    ensures
      states != [] &&
      var page := Page(states[0], after, limit);
      x in SteppedAt(states[0], after) || (|page| == limit && x in SteppedOver(states[1..], Some(page[limit - 1]), limit))
  {
    PageIncreases(states[0], after, limit);
  }

  /** What comes with later pages is above the first, and so above what was stepped over before that. */
  lemma LaterIsAbove(states: seq<set<nat>>, after: Option<nat>, limit: nat, x: nat)
    requires limit > 0 && states != [] && |Page(states[0], after, limit)| == limit
    requires
      var last := Some(Page(states[0], after, limit)[limit - 1]);
      x in Pages(states[1..], last, limit) || x in SteppedOver(states[1..], last, limit)
    ensures x !in Page(states[0], after, limit) && x !in SteppedAt(states[0], after)
  {
    var page := Page(states[0], after, limit);
    PageIncreases(states[0], after, limit);
    BothAbove(states[1..], Some(page[limit - 1]), limit, x);
    if x in SteppedAt(states[0], after) {
      SteppedIsBefore(states[0], after, limit, page[limit - 1], x);
    }
  }

  lemma {:induction false} NotBoth(states: seq<set<nat>>, after: Option<nat>, limit: nat, x: nat)
    requires limit > 0 && x in Pages(states, after, limit) && x in SteppedOver(states, after, limit)
    ensures false
  {
    var page := Page(states[0], after, limit);
    VisitedNowOrLater(states, after, limit, x);
    SteppedNowOrLater(states, after, limit, x);
    if x in page && x in SteppedAt(states[0], after) {
      SteppedIsBefore(states[0], after, limit, x, x);
    } else {
      LaterIsAbove(states, after, limit, x);
      NotBoth(states[1..], Some(page[limit - 1]), limit, x);
    }
  }

  /**
    A completed pass visits increasing ids; every id that stays is either visited or stepped over, and never
    both.
   */
  lemma PassMissesOnlyStepped(states: seq<set<nat>>, limit: nat, x: nat)
    requires limit > 0 && PagesEnd(states, None, limit) && forall s :: s in states ==> x in s
    ensures Increasing(Pages(states, None, limit))
    ensures x in Pages(states, None, limit) <==> x !in SteppedOver(states, None, limit)
  {
    PagesIncrease(states, None, limit);
    PagesVisitOrStep(states, None, limit, x);
    if x in Pages(states, None, limit) && x in SteppedOver(states, None, limit) {
      NotBoth(states, None, limit, x);
    }
  }
}
