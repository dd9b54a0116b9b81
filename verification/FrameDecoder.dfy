/**
  Reassembly of a message from its frames, delivered in any order and any number of times.
 */
module FrameDecoder {
  import opened Prelude
  import opened Frame
  import opened FrameQueue

  datatype ReadError = MaxFrameCount | StreamMismatch | MixedCompression

  datatype Decoder = Decoder(
    id: Uuid, receivedCount: nat, terminated: bool, isCompressed: bool, frames: seq<Option<Frame>>)

  function NewDecoder(id: Uuid): Decoder { Decoder(id, 0, false, false, []) }

  /** The slots, extended with empty ones so that slot n exists. */
  function Extended(frames: seq<Option<Frame>>, n: nat): (r: seq<Option<Frame>>)
    ensures |r| == if n >= |frames| then n + 1 else |frames|
    ensures forall i :: 0 <= i < |r| ==> r[i] == if i < |frames| then frames[i] else None
  {
    if n >= |frames| then frames + seq(n + 1 - |frames|, _ => None) else frames
  }

  function ReadStep(d: Decoder, f: Frame): (Decoder, Option<ReadError>) {
    if d.receivedCount > MAX_FRAME_COUNT || f.frameNumber > MAX_FRAME_COUNT then (d, Some(MaxFrameCount))
    else if d.id != f.streamId then (d, Some(StreamMismatch))
    else if d.receivedCount != 0 && d.isCompressed != f.isCompressed then (d, Some(MixedCompression))
    else
      var d := d.(isCompressed := if d.receivedCount == 0 then f.isCompressed else d.isCompressed);
      if f.frameNumber < |d.frames| && d.frames[f.frameNumber].Some? then (d, None)
      else
        (d.(frames := Extended(d.frames, f.frameNumber)[f.frameNumber := Some(f)],
            receivedCount := d.receivedCount + 1,
            terminated := d.terminated || f.isLast), None)
  }

  predicate ReceivedAll(d: Decoder) { d.terminated && d.receivedCount == |d.frames| }

  datatype DecodeError = NotTerminated | Corrupt

  class FrameQueueDecoder {
    const unzip: seq<byte> -> Option<seq<byte>>
    const id: Uuid
    var receivedCount: nat
    var terminated: bool
    var isCompressed: bool
    var frames: seq<Option<Frame>>

    ghost function State(): Decoder
      reads this
    {
      Decoder(id, receivedCount, terminated, isCompressed, frames)
    }

    /** The count is the number of filled slots. */
    ghost predicate Valid()
      reads this
    {
      Counts(State())
    }

    constructor (unzip: seq<byte> -> Option<seq<byte>>, id: Uuid)
      ensures State() == NewDecoder(id) && this.unzip == unzip && Valid()
    {
      this.unzip, this.id := unzip, id;
      receivedCount, terminated, isCompressed, frames := 0, false, false, [];
    }

    method ReadFrame(f: Frame) returns (err: Option<ReadError>)
      requires Valid()
      modifies this
      ensures Valid() && (State(), err) == ReadStep(old(State()), f)
    {
      ReadKeepsCount(State(), f);
      if receivedCount > MAX_FRAME_COUNT || f.frameNumber > MAX_FRAME_COUNT {
        return Some(MaxFrameCount);
      }
      if id != f.streamId {
        return Some(StreamMismatch);
      }
      if receivedCount == 0 {
        isCompressed := f.isCompressed;
      } else {
        if isCompressed != f.isCompressed {
          return Some(MixedCompression);
        }
      }
      if |frames| >= f.frameNumber + 1 && frames[f.frameNumber].Some? {
        return None;
      }
      if f.frameNumber >= |frames| {
        frames := frames + seq(f.frameNumber + 1 - |frames|, _ => None);
      }
      frames := frames[f.frameNumber := Some(f)];
      receivedCount := receivedCount + 1;
      if f.isLast {
        terminated := true;
      }
      return None;
    }

    /** The query the gossip delegate makes before every read. It dereferences each slot it passes: None is a crash. */
    method HasReceivedFrame(frameNumber: uint16) returns (found: Option<bool>)
      ensures found == Queried(State(), frameNumber)
    {
      for i := 0 to |frames|
        invariant Queried(State(), frameNumber) == QueriedFrom(frames, i, frameNumber)
      {
        if frames[i].None? {
          return None;
        }
        if frames[i].value.frameNumber == frameNumber {
          return Some(true);
        }
      }
      return Some(false);
    }

    /** Joins the slots. It dereferences each one: None is a crash, which no decoder that has received all meets. */
    method Decode() returns (r: Option<Result<seq<byte>, DecodeError>>)
      requires Valid()
      ensures r == Decoded(unzip, State())
      ensures ReceivedAll(State()) ==> r.Some?
    {
      CompleteHasNoGaps(State());
      if !terminated {
        return Some(Err(NotTerminated));
      }
      var buf: seq<byte> := [];
      for i := 0 to |frames|
        invariant forall k :: 0 <= k < i ==> frames[k].Some?
        invariant buf == Concat(Values(frames[..i]))
      {
        if frames[i].None? {
          return None;
        }
        ValuesOneMore(frames, i);
        buf := buf + frames[i].value.data;
      }
      assert frames[..|frames|] == frames;
      if isCompressed {
        var out := unzip(buf);
        return Some(if out.None? then Err(Corrupt) else Ok(out.value));
      }
      return Some(Ok(buf));
    }
  }

  lemma ValuesOneMore(frames: seq<Option<Frame>>, i: nat)
    requires i < |frames| && forall k :: 0 <= k <= i ==> frames[k].Some?
    ensures Concat(Values(frames[..i + 1])) == Concat(Values(frames[..i])) + frames[i].value.data
  {
    assert Values(frames[..i + 1])[..i] == Values(frames[..i]);
  }

  // ---------- Counting ----------

  ghost function Filled(frames: seq<Option<Frame>>): (n: nat)
    ensures n <= |frames|
  {
    if frames == [] then 0
    else Filled(frames[..|frames| - 1]) + if frames[|frames| - 1].Some? then 1 else 0
  }

  ghost predicate Counts(d: Decoder) { d.receivedCount == Filled(d.frames) }

  lemma {:induction false} FillingOneMore(frames: seq<Option<Frame>>, n: nat, f: Frame)
    requires n < |frames| && frames[n].None?
    ensures Filled(frames[n := Some(f)]) == Filled(frames) + 1
  {
    var last := |frames| - 1;
    if n == last {
      assert frames[n := Some(f)][..last] == frames[..last];
    } else {
      FillingOneMore(frames[..last], n, f);
      assert frames[n := Some(f)][..last] == frames[..last][n := Some(f)];
    }
  }

  lemma {:induction false} ExtendingFillsNone(frames: seq<Option<Frame>>, more: seq<Option<Frame>>)
    requires forall i :: 0 <= i < |more| ==> more[i].None?
    ensures Filled(frames + more) == Filled(frames)
  {
    if more == [] {
      assert frames + more == frames;
    } else {
      var n := |more| - 1;
      ExtendingFillsNone(frames, more[..n]);
      assert (frames + more)[..|frames + more| - 1] == frames + more[..n];
    }
  }

  /** Any frame, honest or not, keeps the count right. */
  lemma ReadKeepsCount(d: Decoder, f: Frame)
    requires Counts(d)
    ensures Counts(ReadStep(d, f).0)
  {
    var n := f.frameNumber;
    var more := if n >= |d.frames| then seq(n + 1 - |d.frames|, _ => None) else [];
    ExtendingFillsNone(d.frames, more);
    assert Extended(d.frames, n) == d.frames + more;
    if !(n < |d.frames| && d.frames[n].Some?) {
      FillingOneMore(Extended(d.frames, n), n, f);
    }
  }

  lemma {:induction false} FullHasNoGaps(frames: seq<Option<Frame>>)
    ensures Filled(frames) == |frames| <==> NoGaps(frames)
  {
    if frames != [] {
      FullHasNoGaps(frames[..|frames| - 1]);
    }
  }

  /** Whatever frames were read, a decoder that has received all has no empty slot. */
  lemma CompleteHasNoGaps(d: Decoder)
    requires Counts(d)
    ensures ReceivedAll(d) ==> NoGaps(d.frames)
  {
    FullHasNoGaps(d.frames);
  }

  ghost predicate NoGaps(frames: seq<Option<Frame>>) {
    forall i :: 0 <= i < |frames| ==> frames[i].Some?
  }

  ghost function Values(frames: seq<Option<Frame>>): (r: seq<Frame>)
    requires NoGaps(frames)
    ensures |r| == |frames|
  {
    seq(|frames|, i requires 0 <= i < |frames| => frames[i].value)
  }

  ghost function Decoded(unzip: seq<byte> -> Option<seq<byte>>, d: Decoder): Option<Result<seq<byte>, DecodeError>> {
    if !d.terminated then Some(Err(NotTerminated))
    else if !NoGaps(d.frames) then None
    else
      var joined := Concat(Values(d.frames));
      if !d.isCompressed then Some(Ok(joined))
      else match unzip(joined) case None => Some(Err(Corrupt)) case Some(out) => Some(Ok(out))
  }

  function QueriedFrom(frames: seq<Option<Frame>>, i: nat, n: uint16): Option<bool>
    requires i <= |frames|
    decreases |frames| - i
  {
    if i == |frames| then Some(false)
    else if frames[i].None? then None
    else if frames[i].value.frameNumber == n then Some(true)
    else QueriedFrom(frames, i + 1, n)
  }

  function Queried(d: Decoder, n: uint16): Option<bool> { QueriedFrom(d.frames, 0, n) }

  // ---------- Any order, any repeats ----------

  /** The decoder after reading frames[js[0]], frames[js[1]], ... */
  function Deliver(d: Decoder, frames: seq<Frame>, js: seq<nat>): Decoder
    requires forall k :: 0 <= k < |js| ==> js[k] < |frames|
  {
    if js == [] then d
    else ReadStep(Deliver(d, frames, js[..|js| - 1]), frames[js[|js| - 1]]).0
  }

  ghost function IndexSet(js: seq<nat>): set<nat> { set j | j in js }

  /** The decoder holds exactly the delivered frames, each in its slot, and has counted each once. */
  ghost predicate Holds(d: Decoder, frames: seq<Frame>, got: set<nat>) {
    d.receivedCount == |got| && |d.frames| <= |frames| &&
    (forall i :: i in got ==> i < |d.frames|) &&
    (forall i :: 0 <= i < |d.frames| ==> d.frames[i] == if i in got then Some(frames[i]) else None) &&
    (d.terminated <==> |frames| - 1 in got) &&
    (|d.frames| > 0 ==> |d.frames| - 1 in got)
  }

  lemma {:induction false} CountBelow(got: set<nat>, n: nat)
    requires forall i :: i in got ==> i < n
    ensures |got| <= n
    ensures |got| == n <==> forall i :: 0 <= i < n ==> i in got
  {
    if n > 0 {
      var rest := got - {n - 1};
      CountBelow(rest, n - 1);
      if n - 1 in got {
        assert |got| == |rest| + 1;
        assert forall i :: 0 <= i < n - 1 ==> (i in rest <==> i in got);
      } else {
        assert rest == got;
      }
    } else {
      assert got == {};
    }
  }

  lemma StoreHolds(frames: seq<Frame>, d: Decoder, got: set<nat>, j: nat, d': Decoder)
    requires Holds(d, frames, got) && j < |frames| && j !in got
    requires forall i :: 0 <= i < |frames| ==> (frames[i].isLast <==> i == |frames| - 1)
    requires d' == d.(frames := Extended(d.frames, j)[j := Some(frames[j])],
                      receivedCount := d.receivedCount + 1,
                      terminated := d.terminated || frames[j].isLast)
    ensures Holds(d', frames, got + {j})
  {
    assert |got + {j}| == |got| + 1;
  }

  lemma ReadHolds(id: Uuid, source: seq<byte>, compressed: bool, payload: seq<byte>,
                  frames: seq<Frame>, d: Decoder, got: set<nat>, j: nat)
    requires IsFrameSet(frames, id, source, compressed, payload) && j < |frames|
    requires d.id == id && Holds(d, frames, got) && (got != {} ==> d.isCompressed == compressed)
    ensures
      var (d', err) := ReadStep(d, frames[j]);
      err.None? && d'.id == id && Holds(d', frames, got + {j}) && d'.isCompressed == compressed
  {
    CountBelow(got, |d.frames|);
    assert frames[j].frameNumber == j && frames[j].streamId == id && frames[j].isCompressed == compressed;
    var d1 := d.(isCompressed := compressed);
    assert Holds(d1, frames, got);
    if j in got {
      assert got + {j} == got;
      assert ReadStep(d, frames[j]) == (d1, None);
    } else {
      StoreHolds(frames, d1, got, j, ReadStep(d, frames[j]).0);
    }
  }

  lemma {:induction false} DeliverHolds(id: Uuid, source: seq<byte>, compressed: bool, payload: seq<byte>,
                                        frames: seq<Frame>, js: seq<nat>)
    requires IsFrameSet(frames, id, source, compressed, payload)
    requires forall k :: 0 <= k < |js| ==> js[k] < |frames|
    ensures
      var d := Deliver(NewDecoder(id), frames, js);
      d.id == id && Holds(d, frames, IndexSet(js)) && (js != [] ==> d.isCompressed == compressed)
  {
    if js != [] {
      var before, j := js[..|js| - 1], js[|js| - 1];
      DeliverHolds(id, source, compressed, payload, frames, before);
      LastIndex(js);
      ReadHolds(id, source, compressed, payload, frames, Deliver(NewDecoder(id), frames, before), IndexSet(before), j);
    }
  }

  lemma LastIndex(js: seq<nat>)
    requires js != []
    ensures IndexSet(js) == IndexSet(js[..|js| - 1]) + {js[|js| - 1]}
  {
    assert js == js[..|js| - 1] + [js[|js| - 1]];
  }

  /** ReceivedAll is true exactly when every frame has arrived at least once, and then no slot is empty. */
  lemma CompleteExactlyWhenAllArrived(id: Uuid, source: seq<byte>, compressed: bool, payload: seq<byte>,
                                      frames: seq<Frame>, js: seq<nat>)
    requires IsFrameSet(frames, id, source, compressed, payload)
    requires forall k :: 0 <= k < |js| ==> js[k] < |frames|
    ensures
      var d := Deliver(NewDecoder(id), frames, js);
      (ReceivedAll(d) <==> forall i :: 0 <= i < |frames| ==> i in js) &&
      (ReceivedAll(d) ==> NoGaps(d.frames) && Values(d.frames) == frames)
  {
    DeliverHolds(id, source, compressed, payload, frames, js);
    CompleteExactlyWhenFull(frames, Deliver(NewDecoder(id), frames, js), IndexSet(js));
    assert forall i :: 0 <= i < |frames| ==> (i in js <==> i in IndexSet(js));
  }

  lemma CompleteExactlyWhenFull(frames: seq<Frame>, d: Decoder, got: set<nat>)
    requires frames != [] && Holds(d, frames, got)
    ensures ReceivedAll(d) <==> forall i :: 0 <= i < |frames| ==> i in got
    ensures ReceivedAll(d) ==> NoGaps(d.frames) && Values(d.frames) == frames
  {
    CountBelow(got, |d.frames|);
    if |frames| - 1 in got {
      assert |d.frames| == |frames|;
    }
  }

  /**
    For every non-empty message, every sequence of MTUs that cuts it completely and every delivery that
    covers the frames, in any order and with any repeats, decoding returns the message.
   */
  lemma MessageSurvives(
      zip: seq<byte> -> seq<byte>, unzip: seq<byte> -> Option<seq<byte>>,
      id: Uuid, source: seq<byte>, message: seq<byte>, mtus: seq<nat>, js: seq<nat>)
    requires forall x :: unzip(zip(x)) == Some(x)
    requires message != [] && Cut(zip, NewQueue(id, source, message), mtus).Some?
    requires
      var (q, frames) := Cut(zip, NewQueue(id, source, message), mtus).value;
      q.offset >= |q.bytes| &&
      (forall k :: 0 <= k < |js| ==> js[k] < |frames|) && (forall i :: 0 <= i < |frames| ==> i in js)
    ensures
      var (_, frames) := Cut(zip, NewQueue(id, source, message), mtus).value;
      var d := Deliver(NewDecoder(id), frames, js);
      ReceivedAll(d) && Decoded(unzip, d) == Some(Ok(message))
  {
    var compressed := CompletedCutIsFrameSet(zip, id, source, message, mtus);
    var (_, frames) := Cut(zip, NewQueue(id, source, message), mtus).value;
    var payload := Payload(zip, message, compressed);
    CompleteExactlyWhenAllArrived(id, source, compressed, payload, frames, js);
    DeliverHolds(id, source, compressed, payload, frames, js);
    assert 0 in js;
    assert unzip(zip(message)) == Some(message);
  }
}
