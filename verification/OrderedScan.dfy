/**
  Scanning an ordered store that others keep changing: each step visits the least key above the last one
  visited, in whatever the store holds at that moment.
 */
module OrderedScan {
  import opened Prelude

  ghost function Above(s: set<nat>, last: Option<nat>): set<nat> {
    set x | x in s && (last.Some? ==> x > last.value)
  }

  ghost predicate IsLeast(m: nat, s: set<nat>) { m in s && forall x :: x in s ==> m <= x }

  lemma {:induction false} LeastExists(s: set<nat>)
    requires s != {}
    ensures exists m :: IsLeast(m, s)
  {
    var x :| x in s;
    if s == {x} {
      assert IsLeast(x, s);
    } else {
      LeastExists(s - {x});
      var rest :| IsLeast(rest, s - {x});
      assert s == (s - {x}) + {x};
      assert IsLeast(if x < rest then x else rest, s);
    }
  }

  ghost function Least(s: set<nat>): (m: nat)
    requires s != {}
    ensures IsLeast(m, s)
  {
    LeastExists(s);
    var m :| IsLeast(m, s); m
  }

  /** The keys a scan visits, one per snapshot, until a snapshot holds nothing above the last key. */
  ghost function Scan(snaps: seq<set<nat>>, last: Option<nat>): seq<nat> {
    if snaps == [] || Above(snaps[0], last) == {} then []
    else
      var m := Least(Above(snaps[0], last));
      [m] + Scan(snaps[1..], Some(m))
  }

  /** The scan ended because nothing was left, not because the snapshots ran out. */
  ghost predicate Ends(snaps: seq<set<nat>>, last: Option<nat>) {
    snaps != [] &&
    (Above(snaps[0], last) == {} || Ends(snaps[1..], Some(Least(Above(snaps[0], last)))))
  }

  ghost predicate Increasing(s: seq<nat>) { forall i, j :: 0 <= i < j < |s| ==> s[i] < s[j] }

  /** A scan visits strictly increasing keys, each present when it was visited. */
  lemma {:induction false} ScanIncreases(snaps: seq<set<nat>>, last: Option<nat>)
    ensures
      var v := Scan(snaps, last);
      Increasing(v) && |v| <= |snaps| &&
      forall i :: 0 <= i < |v| ==> v[i] in snaps[i] && (last.Some? ==> v[i] > last.value)
  {
    if snaps != [] && Above(snaps[0], last) != {} {
      var m := Least(Above(snaps[0], last));
      ScanIncreases(snaps[1..], Some(m));
    }
  }

  /** A completed scan visits every key that was present throughout. */
  lemma {:induction false} ScanVisits(snaps: seq<set<nat>>, last: Option<nat>, x: nat)
    requires Ends(snaps, last) && (last.Some? ==> x > last.value)
    requires forall s :: s in snaps ==> x in s
    ensures x in Scan(snaps, last)
  {
    assert snaps[0] in snaps;
    assert x in Above(snaps[0], last);
    var m := Least(Above(snaps[0], last));
    if x != m {
      ScanVisits(snaps[1..], Some(m), x);
    }
  }

  /**
    Whatever is inserted, removed or rewritten between its steps, a completed scan yields strictly
    increasing keys and meets every key that stays present exactly once.
   */
  lemma ScanUnderMutation(snaps: seq<set<nat>>, x: nat)
    requires Ends(snaps, None) && forall s :: s in snaps ==> x in s
    ensures
      var v := Scan(snaps, None);
      Increasing(v) && exists i :: 0 <= i < |v| && v[i] == x && forall j :: 0 <= j < |v| && v[j] == x ==> j == i
  {
    ScanIncreases(snaps, None);
    ScanVisits(snaps, None, x);
    var v := Scan(snaps, None);
    var i :| 0 <= i < |v| && v[i] == x;
    assert forall j :: 0 <= j < |v| && v[j] == x ==> j == i;
  }
}
