/**
  Following the chain: heights arrive from any number of nodes in any order, and each gap before a new highest
  block is recorded as a missing range.
 */
module BlockGaps {
  import opened Prelude
  import opened Bytes
  import opened StateKeys
  import opened MissingEventCodec
  import opened StateStore

  // ---------- The listener ----------

  /** The range to record when a block is seen: None when nothing is missing before it. */
  function Gap(last: Option<int64>, height: int64): Option<BlockRange>
    requires last.None? ==> height > 0
  {
    if last.None? then Some(BlockRange(0, height))
    else if last.value + 1 < height then Some(BlockRange(last.value + 1, height))
    else None
  }

  predicate IsNew(last: Option<int64>, height: int64) { last.None? || last.value < height }

  /** The store after a height is heard. */
  function Heard(s: State, height: int64): State
    requires s.height.None? ==> height > 0
  {
    if !IsNew(s.height, height) then s
    else
      var gap := Gap(s.height, height);
      WithHeight(if gap.Some? then AddedRange(s, gap.value) else s, height)
  }

  /** The listening half of the harmoniser; its store is the store interface's abstract state. */
  class BlockListener {
    var state: State

    constructor (state: State)
      ensures this.state == state
    {
      this.state := state;
    }

    /** One height from the chain; a first height that is not positive makes the code dereference a missing one. */
    method OnBlockHeight(blockHeight: int64) returns (crashed: bool)
      modifies this
      ensures crashed <==> old(state).height.None? && blockHeight <= 0
      ensures state == if crashed then old(state) else Heard(old(state), blockHeight)
    {
      var lastBlockHeight := state.height;
      if lastBlockHeight.None? && blockHeight > 0 {
        state := AddedRange(state, BlockRange(0, blockHeight));
      } else {
        if lastBlockHeight.None? {
          return true;
        }
        if lastBlockHeight.value >= blockHeight {
          return false;
        }
        if lastBlockHeight.value + 1 != blockHeight {
          state := AddedRange(state, BlockRange(lastBlockHeight.value + 1, blockHeight));
        }
      }
      state := WithHeight(state, blockHeight);
      return false;
    }
  }

  // ---------- Whole runs ----------

  /** What a run leaves behind: the last height, the heights accepted live, and the ranges recorded. */
  datatype Listener = Listener(last: Option<int64>, accepted: set<int>, recorded: seq<BlockRange>)

  ghost function Hear(l: Listener, height: int64): Listener
    requires height > 0
  {
    if !IsNew(l.last, height) then l
    else
      var gap := Gap(l.last, height);
      Listener(Some(height), l.accepted + {height as int},
               if gap.Some? then l.recorded + [gap.value] else l.recorded)
  }

  ghost function HearAll(hs: seq<int64>): Listener
    requires forall i :: 0 <= i < |hs| ==> hs[i] > 0
  {
    if hs == [] then Listener(None, {}, []) else Hear(HearAll(hs[..|hs| - 1]), hs[|hs| - 1])
  }

  predicate In(x: int, r: BlockRange) { r.low <= x < r.high }

  /** In how many of the ranges x lies. */
  ghost function Hits(ranges: seq<BlockRange>, x: int): nat {
    if ranges == [] then 0 else Hits(ranges[..|ranges| - 1], x) + if In(x, ranges[|ranges| - 1]) then 1 else 0
  }

  /** In how many ways a height is accounted for. */
  ghost function Accounted(l: Listener, x: int): nat { Hits(l.recorded, x) + if x in l.accepted then 1 else 0 }

  /** Each height up to the last seen is accounted for exactly once, and no other height is. */
  ghost predicate Partition(l: Listener) {
    forall x :: Accounted(l, x) == if l.last.Some? && 0 <= x <= l.last.value then 1 else 0
  }

  lemma HearKeepsPartition(l: Listener, height: int64)
    requires Partition(l) && height > 0 && (l.last.Some? ==> l.last.value > 0)
    ensures Partition(Hear(l, height)) && Hear(l, height).last.Some?
    ensures Hear(l, height).last.value >= height && (l.last.Some? ==> Hear(l, height).last.value >= l.last.value)
    ensures Hear(l, height).last.value == height || Hear(l, height).last == l.last
  {
    var r := Hear(l, height);
    if IsNew(l.last, height) {
      forall x ensures Accounted(r, x) == if 0 <= x <= height then 1 else 0 {
        assert Accounted(l, x) == if l.last.Some? && 0 <= x <= l.last.value then 1 else 0;
        var gap := Gap(l.last, height);
        if gap.Some? {
          assert (l.recorded + [gap.value])[..|l.recorded|] == l.recorded;
        }
      }
    }
  }

  /**
    After any sequence of positive heights, the accepted heights and the recorded ranges partition
    [0, last seen], and the last seen height is the highest one heard.
   */
  lemma {:induction false} AcceptedAndMissingPartition(hs: seq<int64>)
    requires forall i :: 0 <= i < |hs| ==> hs[i] > 0
    ensures Partition(HearAll(hs)) && (HearAll(hs).last.None? <==> hs == [])
    ensures forall i :: 0 <= i < |hs| ==> hs[i] <= HearAll(hs).last.value
    ensures hs != [] ==> HearAll(hs).last.value in hs
  {
    if hs != [] {
      var n := |hs| - 1;
      AcceptedAndMissingPartition(hs[..n]);
      HearKeepsPartition(HearAll(hs[..n]), hs[n]);
    }
  }

  // ---------- The store over a run ----------

  function HeardAll(s: State, hs: seq<int64>): State
    requires forall i :: 0 <= i < |hs| ==> hs[i] > 0
  {
    if hs == [] then s else Heard(HeardAll(s, hs[..|hs| - 1]), hs[|hs| - 1])
  }

  /** The map holds exactly these ranges, the i-th under the i-th id, and later ranges under higher ids. */
  ghost predicate Lists(ranges: map<seq<byte>, Option<BlockRange>>, ids: seq<seq<byte>>, recorded: seq<BlockRange>, num: seq<byte> -> nat) {
    |ids| == |recorded| && (forall id :: id in ranges <==> id in ids) &&
    (forall i :: 0 <= i < |ids| ==> ids[i] in ranges && ranges[ids[i]] == Some(recorded[i])) &&
    (forall i, j :: 0 <= i < j < |ids| ==> num(ids[i]) < num(ids[j]))
  }

  lemma ListsOneMore(ranges: map<seq<byte>, Option<BlockRange>>, ids: seq<seq<byte>>, recorded: seq<BlockRange>,
                     num: seq<byte> -> nat, id: seq<byte>, r: BlockRange)
    requires Lists(ranges, ids, recorded, num) && forall i :: 0 <= i < |ids| ==> num(ids[i]) < num(id)
    ensures Lists(ranges[id := Some(r)], ids + [id], recorded + [r], num)
  {
    var more := ids + [id];
    forall i | 0 <= i < |more| ensures more[i] in ranges[id := Some(r)] && ranges[id := Some(r)][more[i]] == Some((recorded + [r])[i]) {
    }
  }

  /** The store holds the last height and the recorded ranges, under ids no higher than its counter. */
  ghost predicate StoresAll(s: State, ids: seq<seq<byte>>, l: Listener, num: seq<byte> -> nat) {
    s.height == l.last && Lists(s.ranges, ids, l.recorded, num) &&
    forall i :: 0 <= i < |ids| ==> num(ids[i]) <= num(s.rangeCounter)
  }

  lemma StoreOneMore(s: State, ids: seq<seq<byte>>, l: Listener, height: int64, num: seq<byte> -> nat) returns (ids': seq<seq<byte>>)
    requires StoresAll(s, ids, l, num) && height > 0 && num(Successor(s.rangeCounter)) == num(s.rangeCounter) + 1
    ensures StoresAll(Heard(s, height), ids', Hear(l, height), num)
    ensures num(Heard(s, height).rangeCounter) <= num(s.rangeCounter) + 1
  {
    ids' := ids;
    if IsNew(l.last, height) && Gap(l.last, height).Some? {
      var id := Successor(s.rangeCounter);
      ids' := ids + [id];
      ListsOneMore(s.ranges, ids, l.recorded, num, id, Gap(l.last, height).value);
    }
  }

  lemma {:induction false} StoreFollowsRun(s: State, hs: seq<int64>, num: seq<byte> -> nat, bound: nat) returns (ids: seq<seq<byte>>)
    requires s.height.None? && s.ranges == map[] && CountsUp(num, bound) && num(s.rangeCounter) + |hs| < bound
    requires forall i :: 0 <= i < |hs| ==> hs[i] > 0
    ensures StoresAll(HeardAll(s, hs), ids, HearAll(hs), num)
    ensures num(HeardAll(s, hs).rangeCounter) <= num(s.rangeCounter) + |hs|
  {
    if hs == [] {
      ids := [];
    } else {
      var n := |hs| - 1;
      ids := StoreFollowsRun(s, hs[..n], num, bound);
      ids := StoreOneMore(HeardAll(s, hs[..n]), ids, HearAll(hs[..n]), hs[n], num);
    }
  }

  /** The range counter can go on for n more ranges before it wraps around. */
  ghost predicate RangeRoom(s: State, n: nat) { BigEndian(s.rangeCounter) + n < Pow256(|s.rangeCounter|) }

  /**
    A store without height and ranges that hears any positive heights holds, before its counter wraps around,
    the last height of the run and exactly the ranges recorded in it, each under an id of its own.
   */
  lemma StoreFollowsListener(s: State, hs: seq<int64>) returns (ids: seq<seq<byte>>)
    requires forall i :: 0 <= i < |hs| ==> hs[i] > 0
    requires s.height.None? && s.ranges == map[] && RangeRoom(s, |hs|)
    ensures StoresAll(HeardAll(s, hs), ids, HearAll(hs), BigEndian)
  {
    CounterCountsUp(|s.rangeCounter|);
    ids := StoreFollowsRun(s, hs, BigEndian, Pow256(|s.rangeCounter|));
  }
}
