/** A tree keyed by encoded numbers, seen as a map from the numbers. */
module KeyedTree {
  import opened Prelude
  import opened OrderedScan
  import opened TableIterator
  import opened Lexicographic

  /** How numbers are spelled as keys, and how the tree orders keys. */
  datatype KeyCodec = KeyCodec(encode: nat -> string, value: string -> nat, less: (string, string) -> bool)

  ghost predicate RoundTrips(c: KeyCodec, limit: nat) {
    forall k: nat :: k < limit ==> c.value(c.encode(k)) == k
  }

  /** The tree's order is a strict order, and on encoded keys it is the order of the numbers. */
  ghost predicate Ordered(c: KeyCodec, limit: nat) {
    Strict(c.less) && forall j: nat, k: nat :: j < limit && k < limit ==> (c.less(c.encode(j), c.encode(k)) <==> j < k)
  }

  ghost predicate Faithful(c: KeyCodec, limit: nat) { RoundTrips(c, limit) && Ordered(c, limit) }

  lemma OrderAgrees<T>(c: KeyCodec, tree: map<string, T>, limit: nat)
    requires Faithful(c, limit) && WellKeyed(c, tree, limit)
    ensures Agrees(tree.Keys, c.less, c.value)
  {
    forall a, b | a in tree && b in tree ensures c.less(a, b) <==> c.value(a) < c.value(b) {
      assert c.less(c.encode(c.value(a)), c.encode(c.value(b))) <==> c.value(a) < c.value(b);
    }
  }

  /** The first key of the tree beyond a key is the least number above that key's. */
  lemma FirstKeyIsLeast<T>(c: KeyCodec, tree: map<string, T>, limit: nat, last: Option<string>)
    requires Faithful(c, limit) && WellKeyed(c, tree, limit) && (last.Some? ==> last.value in tree)
    ensures Beyond(tree.Keys, c.less, last) == {} <==> Above(Contents(c, tree).Keys, NumberOf(last, c.value)) == {}
    ensures forall s :: IsFirst(s, Beyond(tree.Keys, c.less, last), c.less) ==>
              IsLeast(c.value(s), Above(Contents(c, tree).Keys, NumberOf(last, c.value)))
  {
    OrderAgrees(c, tree, limit);
    SameKeys(c, tree, limit);
    FirstIsLeast(tree.Keys, tree.Keys, c.less, c.value, last);
  }

  /** Every key of the tree encodes a number below the limit. */
  ghost predicate WellKeyed<T>(c: KeyCodec, tree: map<string, T>, limit: nat) {
    forall s :: s in tree ==> c.value(s) < limit && c.encode(c.value(s)) == s
  }

  ghost function Contents<T>(c: KeyCodec, tree: map<string, T>): map<nat, T> {
    map k: nat | k in Numbers(tree.Keys, c.value) && c.encode(k) in tree :: tree[c.encode(k)]
  }

  lemma ContentsHas<T>(c: KeyCodec, tree: map<string, T>, limit: nat, k: nat)
    requires RoundTrips(c, limit) && k < limit
    ensures k in Contents(c, tree) <==> c.encode(k) in tree
    ensures k in Contents(c, tree) ==> Contents(c, tree)[k] == tree[c.encode(k)]
  {
    assert c.value(c.encode(k)) == k;
  }

  lemma PutContents<T>(c: KeyCodec, tree: map<string, T>, limit: nat, k: nat, item: T)
    requires RoundTrips(c, limit) && WellKeyed(c, tree, limit) && k < limit
    ensures WellKeyed(c, tree[c.encode(k) := item], limit)
    ensures Contents(c, tree[c.encode(k) := item]) == Contents(c, tree)[k := item]
  {
    var tree' := tree[c.encode(k) := item];
    forall j: nat
      ensures j in Contents(c, tree') <==> j in Contents(c, tree) || j == k
      ensures j in Contents(c, tree') ==> Contents(c, tree')[j] == if j == k then item else Contents(c, tree)[j]
    {
      if j < limit {
        assert c.value(c.encode(j)) == j && c.value(c.encode(k)) == k;
        ContentsHas(c, tree, limit, j);
        ContentsHas(c, tree', limit, j);
      }
    }
  }

  lemma DropContents<T>(c: KeyCodec, tree: map<string, T>, limit: nat, k: nat)
    requires RoundTrips(c, limit) && WellKeyed(c, tree, limit) && k < limit
    ensures WellKeyed(c, tree - {c.encode(k)}, limit)
    ensures Contents(c, tree - {c.encode(k)}) == Contents(c, tree) - {k}
  {
    var tree' := tree - {c.encode(k)};
    forall j: nat
      ensures j in Contents(c, tree') <==> j in Contents(c, tree) && j != k
      ensures j in Contents(c, tree') ==> Contents(c, tree')[j] == Contents(c, tree)[j]
    {
      if j < limit {
        assert c.value(c.encode(j)) == j && c.value(c.encode(k)) == k;
        ContentsHas(c, tree, limit, j);
        ContentsHas(c, tree', limit, j);
      }
    }
  }

  /** The numbers of the tree's keys are the numbers in the map. */
  lemma SameKeys<T>(c: KeyCodec, tree: map<string, T>, limit: nat)
    requires RoundTrips(c, limit) && WellKeyed(c, tree, limit)
    ensures Numbers(tree.Keys, c.value) == Contents(c, tree).Keys
  {
  }

  lemma {:induction false} SameSize<T>(c: KeyCodec, tree: map<string, T>, limit: nat)
    requires RoundTrips(c, limit) && WellKeyed(c, tree, limit)
    ensures |Contents(c, tree)| == |tree|
    decreases |tree|
  {
    if s :| s in tree {
      var k := c.value(s);
      assert c.encode(k) == s;
      ContentsHas(c, tree, limit, k);
      DropContents(c, tree, limit, k);
      assert (tree - {s}).Keys == tree.Keys - {s};
      assert (Contents(c, tree) - {k}).Keys == Contents(c, tree).Keys - {k};
      SameSize(c, tree - {s}, limit);
    } else {
      assert tree == map[] && Contents(c, tree) == map[];
    }
  }
}
