/**
  Iterating a keyed table in the order of its keys, as a database keeps them. Values that cannot be read are
  None.
 */
module TableIterator {
  import opened Prelude
  import opened Lexicographic
  import opened OrderedScan
  import Paging

  // ---------- Keys in order ----------

  ghost function Beyond<K>(keys: set<K>, less: (K, K) -> bool, last: Option<K>): set<K> {
    set k | k in keys && (last.Some? ==> less(last.value, k))
  }

  ghost function Onward<K>(keys: set<K>, less: (K, K) -> bool, from: K): set<K> {
    set k | k in keys && (k == from || less(from, k))
  }

  ghost predicate IsFirst<K>(k: K, s: set<K>, less: (K, K) -> bool) {
    k in s && forall j :: j in s ==> j == k || less(k, j)
  }

  lemma {:induction false} FirstExists<K(!new)>(s: set<K>, less: (K, K) -> bool)
    requires Strict(less) && s != {}
    ensures exists k :: IsFirst(k, s, less)
  {
    var x :| x in s;
    if s == {x} {
      assert IsFirst(x, s, less);
    } else {
      FirstExists(s - {x}, less);
      var rest :| IsFirst(rest, s - {x}, less);
      assert s == (s - {x}) + {x};
      assert IsFirst(if less(x, rest) then x else rest, s, less);
    }
  }

  ghost function First<K(!new)>(s: set<K>, less: (K, K) -> bool): (k: K)
    requires Strict(less) && s != {}
    ensures IsFirst(k, s, less)
  {
    FirstExists(s, less);
    var k :| IsFirst(k, s, less); k
  }

  /** The first n keys beyond the last one. */
  ghost function TakeKeys<K(!new)>(keys: set<K>, less: (K, K) -> bool, last: Option<K>, n: nat): seq<K>
    requires Strict(less)
    decreases n
  {
    if n == 0 || Beyond(keys, less, last) == {} then []
    else
      var k := First(Beyond(keys, less, last), less);
      [k] + TakeKeys(keys, less, Some(k), n - 1)
  }

  /** What a page call reads: with a cursor, the key the seek lands on is skipped. */
  ghost function PageKeys<K(!new)>(keys: set<K>, less: (K, K) -> bool, after: Option<K>, limit: nat): seq<K>
    requires Strict(less)
  {
    if after.None? then TakeKeys(keys, less, None, limit)
    else if Onward(keys, less, after.value) == {} then []
    else TakeKeys(keys, less, Some(First(Onward(keys, less, after.value), less)), limit)
  }

  // ---------- Reading a page ----------

  ghost predicate AllReadable<K, V>(t: map<K, Option<V>>, page: seq<K>) {
    forall i :: 0 <= i < |page| ==> page[i] in t && t[page[i]].Some?
  }

  ghost predicate AreRecords<K, V>(t: map<K, Option<V>>, found: seq<(K, V)>, page: seq<K>) {
    |found| == |page| &&
    forall i :: 0 <= i < |page| ==> page[i] in t && found[i].0 == page[i] && t[page[i]] == Some(found[i].1)
  }

  /** The records of a page, or an error exactly when one of them cannot be read. */
  ghost predicate IsPage<K(!new), V>(t: map<K, Option<V>>, less: (K, K) -> bool, after: Option<K>, limit: nat,
                                     r: Result<seq<(K, V)>, string>)
    requires Strict(less)
  {
    var page := PageKeys(t.Keys, less, after, limit);
    (r.Ok? <==> AllReadable(t, page)) && (r.Ok? ==> AreRecords(t, r.value, page))
  }

  /** Where an iterator is: the page it has to fill, what it has read, and how much it may still read. */
  ghost predicate Reading<K(!new)>(page: seq<K>, done: seq<K>, keys: set<K>, less: (K, K) -> bool, last: Option<K>, n: nat)
    requires Strict(less)
    decreases n
  {
    if n == 0 || Beyond(keys, less, last) == {} then page == done
    else
      var k := First(Beyond(keys, less, last), less);
      Reading(page, done + [k], keys, less, Some(k), n - 1)
  }

  lemma {:induction false} ReadingStarts<K(!new)>(done: seq<K>, keys: set<K>, less: (K, K) -> bool, last: Option<K>, n: nat)
    requires Strict(less)
    ensures Reading(done + TakeKeys(keys, less, last, n), done, keys, less, last, n)
    decreases n
  {
    if n > 0 && Beyond(keys, less, last) != {} {
      var k := First(Beyond(keys, less, last), less);
      ReadingStarts(done + [k], keys, less, Some(k), n - 1);
      assert done + TakeKeys(keys, less, last, n) == done + [k] + TakeKeys(keys, less, Some(k), n - 1);
    } else {
      assert done + [] == done;
    }
  }

  lemma {:induction false} ReadingKeeps<K(!new)>(page: seq<K>, done: seq<K>, keys: set<K>, less: (K, K) -> bool, last: Option<K>, n: nat)
    requires Strict(less) && Reading(page, done, keys, less, last, n)
    ensures done <= page
    decreases n
  {
    if n > 0 && Beyond(keys, less, last) != {} {
      var k := First(Beyond(keys, less, last), less);
      ReadingKeeps(page, done + [k], keys, less, Some(k), n - 1);
    }
  }

  /** Moving on: the first key beyond the last one is the next of the page. */
  lemma ReadingAdvances<K(!new)>(page: seq<K>, done: seq<K>, keys: set<K>, less: (K, K) -> bool, last: Option<K>, n: nat, k: K)
    requires Strict(less) && Reading(page, done, keys, less, last, n) && n > 0 && IsFirst(k, Beyond(keys, less, last), less)
    ensures Reading(page, done + [k], keys, less, Some(k), n - 1) && |page| > |done| && page[|done|] == k
  {
    FirstIsOne(k, First(Beyond(keys, less, last), less), Beyond(keys, less, last), less);
    ReadingKeeps(page, done + [k], keys, less, Some(k), n - 1);
    assert (done + [k])[|done|] == k;
  }

  lemma FirstIsOne<K(!new)>(a: K, b: K, s: set<K>, less: (K, K) -> bool)
    requires Strict(less) && IsFirst(a, s, less) && IsFirst(b, s, less)
    ensures a == b
  {
  }

  /** Seeks when there is a cursor, then reads on. */
  method ReadPage<K(==, !new), V>(t: map<K, Option<V>>, less: (K, K) -> bool, after: Option<K>, limit: nat)
    returns (r: Result<seq<(K, V)>, string>)
    requires Strict(less)
    ensures IsPage(t, less, after, limit, r)
  {
    var last: Option<K> := None;
    if after.Some? {
      var landed := Seek(t.Keys, less, after.value);
      if landed.None? {
        return Ok([]);
      }
      FirstIsOne(landed.value, First(Onward(t.Keys, less, after.value), less), Onward(t.Keys, less, after.value), less);
      last := landed;
    }
    ghost var page := TakeKeys(t.Keys, less, last, limit);
    ReadingStarts([], t.Keys, less, last, limit);
    assert [] + page == page;
    var found, ok := ReadOn(t, less, last, limit, page);
    r := if ok then Ok(found) else Err("record cannot be read");
  }

  /** The loop over the iterator. */
  method ReadOn<K(==, !new), V>(t: map<K, Option<V>>, less: (K, K) -> bool, last: Option<K>, limit: nat, ghost page: seq<K>)
    returns (found: seq<(K, V)>, ok: bool)
    requires Strict(less) && Reading(page, [], t.Keys, less, last, limit)
    ensures if ok then AreRecords(t, found, page) else !AllReadable(t, page)
  {
    ghost var done: seq<K> := [];
    var cursor := last;
    found, ok := [], true;
    while |found| < limit
      invariant |found| <= limit && AreRecords(t, found, done)
      invariant Reading(page, done, t.Keys, less, cursor, limit - |found|)
      decreases limit - |found|
    {
      var next := LeastAbove(t.Keys, less, cursor);
      if next.None? {
        break;
      }
      var k := next.value;
      ReadingAdvances(page, done, t.Keys, less, cursor, limit - |found|, k);
      if t[k].None? {
        return found, false;
      }
      found, cursor, done := found + [(k, t[k].value)], Some(k), done + [k];
    }
  }

  /** The first key beyond a cursor: where the iterator moves next. */
  method LeastAbove<K(==, !new)>(keys: set<K>, less: (K, K) -> bool, last: Option<K>) returns (r: Option<K>)
    requires Strict(less)
    ensures r.None? <==> Beyond(keys, less, last) == {}
    ensures r.Some? ==> IsFirst(r.value, Beyond(keys, less, last), less)
  {
    r := None;
    var rest := keys;
    while rest != {}
      invariant rest <= keys
      invariant r.Some? ==> r.value in Beyond(keys, less, last)
      invariant forall k :: k in Beyond(keys, less, last) && k !in rest ==> r.Some? && (k == r.value || less(r.value, k))
      decreases |rest|
    {
      var k :| k in rest;
      rest := rest - {k};
      if (last.None? || less(last.value, k)) && (r.None? || less(k, r.value)) {
        r := Some(k);
      }
    }
  }

  /** The first key from a given one on: where a seek lands. */
  method Seek<K(==, !new)>(keys: set<K>, less: (K, K) -> bool, from: K) returns (r: Option<K>)
    requires Strict(less)
    ensures r.None? <==> Onward(keys, less, from) == {}
    ensures r.Some? ==> IsFirst(r.value, Onward(keys, less, from), less)
  {
    if from in keys {
      assert from in Onward(keys, less, from);
      return Some(from);
    }
    assert Onward(keys, less, from) == Beyond(keys, less, Some(from));
    r := LeastAbove(keys, less, Some(from));
  }

  // ---------- Keys that encode numbers ----------

  ghost function Numbers<K>(keys: set<K>, num: K -> nat): set<nat> { set k | k in keys :: num(k) }

  /** On these keys, the order of the table is the order of the numbers. */
  ghost predicate Agrees<K>(keys: set<K>, less: (K, K) -> bool, num: K -> nat) {
    forall a, b :: a in keys && b in keys ==> (less(a, b) <==> num(a) < num(b))
  }

  ghost function NumbersIn<K>(v: seq<K>, num: K -> nat): (ns: seq<nat>)
    ensures |ns| == |v| && forall i :: 0 <= i < |v| ==> ns[i] == num(v[i])
  {
    seq(|v|, i requires 0 <= i < |v| => num(v[i]))
  }

  ghost function NumberOf<K>(k: Option<K>, num: K -> nat): Option<nat> {
    if k.Some? then Some(num(k.value)) else None
  }

  /** The first key beyond a cursor has the least number above the cursor's. */
  lemma FirstIsLeast<K(!new)>(all: set<K>, keys: set<K>, less: (K, K) -> bool, num: K -> nat, last: Option<K>)
    requires Strict(less) && Agrees(all, less, num) && keys <= all && (last.Some? ==> last.value in all)
    ensures Numbers(Beyond(keys, less, last), num) == Above(Numbers(keys, num), NumberOf(last, num))
    ensures Beyond(keys, less, last) == {} <==> Above(Numbers(keys, num), NumberOf(last, num)) == {}
    ensures forall k :: IsFirst(k, Beyond(keys, less, last), less) ==>
              IsLeast(num(k), Above(Numbers(keys, num), NumberOf(last, num)))
  {
    var beyond, above := Beyond(keys, less, last), Above(Numbers(keys, num), NumberOf(last, num));
    forall n | n in above ensures n in Numbers(beyond, num) {
      var k :| k in keys && num(k) == n;
      assert k in beyond;
    }
    forall k | k in beyond ensures num(k) in above {
    }
    assert Numbers(beyond, num) == above;
    if beyond != {} {
      var k :| k in beyond;
      assert num(k) in above;
    }
    forall k | IsFirst(k, beyond, less) ensures IsLeast(num(k), above) {
      forall n | n in above ensures num(k) <= n {
        var j :| j in beyond && num(j) == n;
      }
    }
  }

  lemma TakeKeysFirst<K(!new)>(keys: set<K>, less: (K, K) -> bool, last: Option<K>, n: nat) returns (k: K)
    requires Strict(less) && n > 0 && Beyond(keys, less, last) != {}
    ensures k in keys && IsFirst(k, Beyond(keys, less, last), less)
    ensures TakeKeys(keys, less, last, n) == [k] + TakeKeys(keys, less, Some(k), n - 1)
  {
    k := First(Beyond(keys, less, last), less);
  }

  lemma NumbersInCons<K>(k: K, rest: seq<K>, num: K -> nat)
    ensures NumbersIn([k] + rest, num) == [num(k)] + NumbersIn(rest, num)
  {
  }

  lemma {:induction false} TakeNumbers<K(!new)>(all: set<K>, keys: set<K>, less: (K, K) -> bool, num: K -> nat, last: Option<K>, n: nat)
    requires Strict(less) && Agrees(all, less, num) && keys <= all && (last.Some? ==> last.value in all)
    ensures Paging.Take(Numbers(keys, num), NumberOf(last, num), n) == NumbersIn(TakeKeys(keys, less, last, n), num)
    decreases n
  {
    FirstIsLeast(all, keys, less, num, last);
    if n > 0 && Beyond(keys, less, last) != {} {
      var k := TakeKeysFirst(keys, less, last, n);
      Paging.TakeFirst(Numbers(keys, num), NumberOf(last, num), n, num(k));
      TakeNumbers(all, keys, less, num, Some(k), n - 1);
      NumbersInCons(k, TakeKeys(keys, less, Some(k), n - 1), num);
    } else {
      assert TakeKeys(keys, less, last, n) == [];
    }
  }

  lemma OnwardNumbers<K(!new)>(all: set<K>, keys: set<K>, less: (K, K) -> bool, num: K -> nat, from: K)
    requires Strict(less) && Agrees(all, less, num) && keys <= all && from in all
    ensures Onward(keys, less, from) == {} <==> Paging.From(Numbers(keys, num), num(from)) == {}
    ensures forall k :: IsFirst(k, Onward(keys, less, from), less) ==> IsLeast(num(k), Paging.From(Numbers(keys, num), num(from)))
  {
    var onward, numbers := Onward(keys, less, from), Paging.From(Numbers(keys, num), num(from));
    forall n | n in numbers ensures exists k :: k in onward && num(k) == n {
      var k :| k in keys && num(k) == n;
      assert k in onward;
    }
    forall k | k in onward ensures num(k) in numbers {
    }
    if onward != {} {
      var k :| k in onward;
      assert num(k) in numbers;
    }
    forall k | IsFirst(k, onward, less) ensures IsLeast(num(k), numbers) {
      forall n | n in numbers ensures num(k) <= n {
        var j :| j in onward && num(j) == n;
      }
    }
  }

  /** A page in key order is the page of the numbers. */
  lemma PageNumbers<K(!new)>(all: set<K>, keys: set<K>, less: (K, K) -> bool, num: K -> nat, after: Option<K>, limit: nat)
    requires Strict(less) && Agrees(all, less, num) && keys <= all && (after.Some? ==> after.value in all)
    ensures
      var v := PageKeys(keys, less, after, limit);
      Paging.Page(Numbers(keys, num), NumberOf(after, num), limit) == NumbersIn(v, num)
  {
    if after.None? {
      TakeNumbers(all, keys, less, num, None, limit);
    } else {
      OnwardNumbers(all, keys, less, num, after.value);
      if Onward(keys, less, after.value) != {} {
        var k := First(Onward(keys, less, after.value), less);
        assert num(k) == Least(Paging.From(Numbers(keys, num), num(after.value)));
        TakeNumbers(all, keys, less, num, Some(k), limit);
      }
    }
  }
}
