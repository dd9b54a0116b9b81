/** The agent's disk queue, and an iterator that finds its place again after every change. */
module DiskQueue {
  import opened Prelude
  import opened OrderedScan
  import opened KeyedTree
  import TableIterator
  import BinaryKeys

  const MAX_ID: nat := 0x1_0000_0000_0000_0000

  type u64 = BinaryKeys.u64

  // ---------- The queue as a value ----------

  ghost function MinKey<T>(c: map<nat, T>): (k: nat)
    requires c != map[]
    ensures IsLeast(k, c.Keys)
  {
    assert c.Keys != {} by {
      var k :| k in c;
    }
    Least(c.Keys)
  }

  /** A push drops the oldest item of a full queue, then inserts under a fresh key. */
  ghost function Pushed<T>(c: map<nat, T>, maxSize: Option<nat>, key: nat, item: T): map<nat, T> {
    Trimmed(c, maxSize)[key := item]
  }

  ghost function Trimmed<T>(c: map<nat, T>, maxSize: Option<nat>): map<nat, T> {
    if maxSize.Some? && |c| >= maxSize.value && c != map[] then c - {MinKey(c)} else c
  }

  function Bound(maxSize: nat): nat { if maxSize > 1 then maxSize else 1 }

  lemma PushKeepsBound<T>(c: map<nat, T>, maxSize: nat, key: nat, item: T)
    requires |c| <= Bound(maxSize) && key !in c
    ensures |Pushed(c, Some(maxSize), key, item)| <= Bound(maxSize)
  {
    var t := Trimmed(c, Some(maxSize));
    assert Pushed(c, Some(maxSize), key, item).Keys == t.Keys + {key};
    if |c| >= maxSize && c != map[] {
      assert t.Keys == c.Keys - {MinKey(c)};
    }
  }

  /** An update keeps the size within bounds exactly when its key is present or there was room left. */
  lemma UpdateKeepsBoundExactly<T>(c: map<nat, T>, maxSize: nat, key: nat, item: T)
    requires |c| <= Bound(maxSize)
    ensures |c[key := item]| <= Bound(maxSize) <==> key in c || |c| < Bound(maxSize)
  {
    assert c[key := item].Keys == c.Keys + {key};
    if key in c {
      assert c.Keys + {key} == c.Keys;
    }
  }

  lemma RemoveKeepsBound<T>(c: map<nat, T>, key: nat)
    ensures |c - {key}| <= |c|
  {
    if key in c {
      assert (c - {key}).Keys == c.Keys - {key};
    } else {
      assert c - {key} == c;
    }
  }

  // ---------- The queue ----------

  class DiskQueue<T> {
    const codec: KeyCodec
    const maxSize: Option<nat>
    var tree: map<string, T>
    var nextId: nat

    /** Keys encode 64-bit numbers, and the tree keeps them in the order of those. */
    ghost predicate Valid()
      reads this
    {
      Faithful(codec, MAX_ID) && WellKeyed(codec, tree, MAX_ID)
    }

    ghost function Items(): map<nat, T>
      reads this
    {
      Contents(codec, tree)
    }

    constructor (maxSize: Option<nat>)
      ensures Valid() && Items() == map[] && this.maxSize == maxSize && codec == BinaryKeys.Codec()
    {
      codec := BinaryKeys.Codec();
      this.maxSize := maxSize;
      tree, nextId := map[], 0;
    }

    /** Ids come from the database's counter, which must not have run out. */
    method Push(item: T) returns (key: u64)
      requires Valid() && nextId < MAX_ID
      modifies this
      ensures Valid() && key == old(nextId) && nextId == old(nextId) + 1
      ensures Items() == Pushed(old(Items()), maxSize, key, item)
    {
      SameSize(codec, tree, MAX_ID);
      if maxSize.Some? && |tree| >= maxSize.value {
        PopMin();
      }
      key := nextId;
      nextId := nextId + 1;
      PutContents(codec, tree, MAX_ID, key, item);
      tree := tree[codec.encode(key) := item];
    }

    /** Removes the first key in the tree's order, if there is one. */
    method PopMin()
      requires Valid()
      modifies this`tree
      ensures Valid()
      ensures Items() == if old(Items()) == map[] then old(Items()) else old(Items()) - {MinKey(old(Items()))}
    {
      var least := TableIterator.LeastAbove(tree.Keys, codec.less, None);
      FirstKeyIsMin(codec, tree, least);
      if least.Some? {
        DropContents(codec, tree, MAX_ID, codec.value(least.value));
        tree := tree - {least.value};
      }
    }

    method GetById(key: u64) returns (item: Option<T>)
      requires Valid()
      ensures item == if key in Items() then Some(Items()[key]) else None
    {
      ContentsHas(codec, tree, MAX_ID, key);
      item := if codec.encode(key) in tree then Some(tree[codec.encode(key)]) else None;
    }

    method Remove(key: u64)
      requires Valid()
      modifies this`tree
      ensures Valid() && Items() == old(Items()) - {key}
    {
      DropContents(codec, tree, MAX_ID, key);
      tree := tree - {codec.encode(key)};
    }

    /** Inserts whether or not the key is present. */
    method Update(key: u64, item: T)
      requires Valid()
      modifies this`tree
      ensures Valid() && Items() == old(Items())[key := item]
    {
      PutContents(codec, tree, MAX_ID, key, item);
      tree := tree[codec.encode(key) := item];
    }
  }

  lemma FirstKeyIsMin<T>(c: KeyCodec, tree: map<string, T>, first: Option<string>)
    requires Faithful(c, MAX_ID) && WellKeyed(c, tree, MAX_ID)
    requires first.None? <==> TableIterator.Beyond(tree.Keys, c.less, None) == {}
    requires first.Some? ==> TableIterator.IsFirst(first.value, TableIterator.Beyond(tree.Keys, c.less, None), c.less)
    ensures first.None? <==> Contents(c, tree) == map[]
    ensures first.Some? ==>
      first.value in tree && c.value(first.value) == MinKey(Contents(c, tree)) &&
      c.value(first.value) < MAX_ID && c.encode(c.value(first.value)) == first.value
  {
    FirstKeyIsLeast(c, tree, MAX_ID, None);
    assert Above(Contents(c, tree).Keys, None) == Contents(c, tree).Keys;
  }

  datatype ReadError = DoesNotDeserialise

  /**
    Holds a place in the queue, not in the tree: whatever happens to the tree, it goes on from its key. The
    queue holds serialised items.
   */
  class DiskQueueIterator<R, T> {
    const queue: DiskQueue<R>
    const parse: R -> Option<T>
    var current: Option<nat>

    constructor (queue: DiskQueue<R>, parse: R -> Option<T>)
      ensures this.queue == queue && this.parse == parse && current == None
    {
      this.queue, this.parse := queue, parse;
      current := None;
    }

    /**
      Yields the item of the least key above the current one and moves there; an item that does not
      deserialise is an error, and the iterator does not move past it.
     */
    method Next() returns (r: Option<Result<(nat, T), ReadError>>)
      requires queue.Valid()
      modifies this
      ensures r.None? <==> Above(queue.Items().Keys, old(current)) == {}
      ensures r.None? ==> current == old(current)
      ensures r.Some? ==>
        var key := Least(Above(queue.Items().Keys, old(current)));
        var item := parse(queue.Items()[key]);
        if item.None? then r.value == Err(DoesNotDeserialise) && current == old(current)
        else r.value == Ok((key, item.value)) && current == Some(key)
    {
      var found := FindNext();
      if found.None? {
        return None;
      }
      var item := parse(found.value.1);
      if item.None? {
        return Some(Err(DoesNotDeserialise));
      }
      current := Some(found.value.0);
      return Some(Ok((found.value.0, item.value)));
    }

    /** Walks the tree from its start to the first key beyond the current one. */
    method FindNext() returns (r: Option<(nat, R)>)
      requires queue.Valid()
      ensures r.None? <==> Above(queue.Items().Keys, current) == {}
      ensures r.Some? ==>
        var (key, item) := r.value;
        IsLeast(key, Above(queue.Items().Keys, current)) && queue.Items()[key] == item
    {
      ghost var ids := queue.Items().Keys;
      var at: Option<string> := None;
      while true
        invariant at.Some? ==> at.value in queue.tree && current.Some? && queue.codec.value(at.value) <= current.value
        decreases |Above(ids, TableIterator.NumberOf(at, queue.codec.value))|
      {
        ghost var from := TableIterator.NumberOf(at, queue.codec.value);
        FirstKeyIsLeast(queue.codec, queue.tree, MAX_ID, at);
        var next := TableIterator.LeastAbove(queue.tree.Keys, queue.codec.less, at);
        assert forall x :: x in Above(ids, current) ==> x in Above(ids, from);
        if next.None? {
          return None;
        }
        var key := queue.codec.value(next.value);
        if current.None? || key > current.value {
          assert key in Above(ids, current);
          ContentsHas(queue.codec, queue.tree, MAX_ID, key);
          return Some((key, queue.tree[next.value]));
        }
        assert Above(ids, Some(key)) < Above(ids, from);
        SmallerSet(Above(ids, Some(key)), Above(ids, from));
        at := next;
      }
    }
  }

  lemma SmallerSet(a: set<nat>, b: set<nat>)
    requires a < b
    ensures |a| < |b|
  {
    assert b == a + (b - a);
  }
}
