/**
  How far a sequence of MTUs carries a message, told by the size of marshalled frames alone: which messages are
  compressed, which frames are full, and exactly when cutting completes.
 */
module FrameCuts {
  import opened Prelude
  import opened Frame
  import opened FrameQueue

  type Checksum = seq<byte> -> uint32

  // ---------- Sizes of marshalled frames ----------

  /** What a frame without data takes. */
  ghost function Bare(crc: Checksum, id: Uuid, source: seq<byte>): nat {
    |Marshalled(crc, Frame(false, id, 0, false, source, []))|
  }

  /** Every MTU has room for at least one byte. */
  ghost predicate AllHaveRoom(crc: Checksum, id: Uuid, source: seq<byte>, mtus: seq<nat>) {
    forall i :: 0 <= i < |mtus| ==> mtus[i] > Bare(crc, id, source)
  }

  /** The data bytes that frames of these sizes hold together. */
  ghost function TotalRoom(crc: Checksum, id: Uuid, source: seq<byte>, mtus: seq<nat>): int {
    if mtus == [] then 0
    else TotalRoom(crc, id, source, mtus[..|mtus| - 1]) + mtus[|mtus| - 1] - Bare(crc, id, source)
  }

  /** The whole message fits one frame of the first size as it is. */
  ghost predicate FitsFirst(crc: Checksum, id: Uuid, source: seq<byte>, message: seq<byte>, mtus: seq<nat>) {
    mtus != [] && |Marshalled(crc, Frame(false, id, 0, true, source, message))| <= mtus[0]
  }

  /** What is cut: the message if it fits its first frame, and otherwise the compressed message. */
  ghost function Sendable(zip: seq<byte> -> seq<byte>, crc: Checksum, id: Uuid, source: seq<byte>, message: seq<byte>, mtus: seq<nat>): seq<byte> {
    if FitsFirst(crc, id, source, message, mtus) then message else zip(message)
  }

  /** At most 64 frames, each with room, and after all but the last there is something left to send. */
  ghost predicate Cuttable(crc: Checksum, id: Uuid, source: seq<byte>, mtus: seq<nat>, length: nat) {
    0 < |mtus| <= 64 && AllHaveRoom(crc, id, source, mtus) &&
    (|mtus| > 1 ==> TotalRoom(crc, id, source, mtus[..|mtus| - 1]) < length)
  }

  function Min(a: int, b: int): int { if a < b then a else b }

  /** The queue has cut as much as the sizes hold, and whether it compressed. */
  ghost predicate CutTo(q: Queue, n: nat, id: Uuid, source: seq<byte>, payload: seq<byte>, compressed: bool, room: int) {
    q.frameNumber == n && q.id == id && q.source == source && q.bytes == payload && q.compressed == compressed &&
    q.offset == Min(room, |payload|)
  }

  // ---------- One frame ----------

  lemma FirstCut(zip: seq<byte> -> seq<byte>, crc: Checksum, id: Uuid, source: seq<byte>, message: seq<byte>, mtus: seq<nat>)
    requires message != [] && |mtus| == 1
    ensures
      var (q, f) := NextStep(zip, NewQueue(id, source, message), mtus[0]);
      var payload, room := Sendable(zip, crc, id, source, message, mtus), TotalRoom(crc, id, source, mtus);
      (f.Ok? <==> AllHaveRoom(crc, id, source, mtus)) &&
      (f.Ok? ==> CutTo(q, 1, id, source, payload, !FitsFirst(crc, id, source, message, mtus), room))
  {
    assert mtus[..0] == [];
    MarshalledLength(crc, Frame(false, id, 0, false, source, []));
    MarshalledLength(crc, Frame(false, id, 0, true, source, message));
  }

  lemma LaterCut(zip: seq<byte> -> seq<byte>, crc: Checksum, q: Queue, payload: seq<byte>, compressed: bool, n: nat, room: int, mtu: nat)
    requires n > 0 && CutTo(q, n, q.id, q.source, payload, compressed, room)
    ensures
      var (q', f) := NextStep(zip, q, mtu);
      (f.Ok? <==> room < |payload| && n < 64 && mtu > Bare(crc, q.id, q.source)) &&
      (f.Ok? ==> CutTo(q', n + 1, q.id, q.source, payload, compressed, room + mtu - Bare(crc, q.id, q.source)))
  {
    MarshalledLength(crc, Frame(false, q.id, 0, false, q.source, []));
  }

  /** A frame that is not the last is as large as it may be. */
  lemma OnlyLastIsShort(zip: seq<byte> -> seq<byte>, crc: Checksum, q: Queue, mtu: nat)
    requires q.frameNumber == 0 ==> q.offset == 0
    ensures
      var f := NextStep(zip, q, mtu).1;
      f.Ok? ==> |Marshalled(crc, f.value)| <= mtu && (!f.value.isLast ==> |Marshalled(crc, f.value)| == mtu)
  {
    var f := NextStep(zip, q, mtu).1;
    if f.Ok? {
      MarshalledLength(crc, f.value);
    }
  }

  // ---------- A whole message ----------

  lemma ShorterIsCuttable(crc: Checksum, id: Uuid, source: seq<byte>, mtus: seq<nat>, length: nat)
    requires |mtus| > 1
    ensures
      var n := |mtus| - 1;
      Cuttable(crc, id, source, mtus, length) <==>
      Cuttable(crc, id, source, mtus[..n], length) && |mtus| <= 64 && mtus[n] > Bare(crc, id, source) &&
      TotalRoom(crc, id, source, mtus[..n]) < length
  {
    var n := |mtus| - 1;
    assert forall i :: 0 <= i < n ==> mtus[..n][i] == mtus[i];
    assert mtus[..n][..n - 1] == mtus[..n - 1];
    assert mtus[..n][n - 1] == mtus[n - 1];
  }

  /**
    Every call succeeds exactly when there are at most 64, every MTU has room, and something is left to send
    before the last. Then the queue has cut as many bytes as the frames hold, of the message if that fits the
    first frame and of the compressed message otherwise.
   */
  lemma {:induction false} CutsExactly(
      zip: seq<byte> -> seq<byte>, crc: Checksum, id: Uuid, source: seq<byte>, message: seq<byte>, mtus: seq<nat>)
    requires message != [] && mtus != []
    ensures
      var r, payload := Cut(zip, NewQueue(id, source, message), mtus), Sendable(zip, crc, id, source, message, mtus);
      (r.Some? <==> Cuttable(crc, id, source, mtus, |payload|)) &&
      (r.Some? ==>
        CutTo(r.value.0, |mtus|, id, source, payload, !FitsFirst(crc, id, source, message, mtus), TotalRoom(crc, id, source, mtus)))
  {
    var n := |mtus| - 1;
    var q0, payload := NewQueue(id, source, message), Sendable(zip, crc, id, source, message, mtus);
    CutOneMore(zip, q0, mtus);
    if n == 0 {
      assert mtus[..0] == [];
      FirstCut(zip, crc, id, source, message, mtus);
    } else {
      CutsExactly(zip, crc, id, source, message, mtus[..n]);
      ShorterIsCuttable(crc, id, source, mtus, |payload|);
      if Cut(zip, q0, mtus[..n]).Some? {
        LaterCut(zip, crc, Cut(zip, q0, mtus[..n]).value.0, payload, !FitsFirst(crc, id, source, message, mtus),
                 n, TotalRoom(crc, id, source, mtus[..n]), mtus[n]);
      }
    }
  }

  /** The frames cut with these MTUs are all there are. */
  ghost predicate Completes(zip: seq<byte> -> seq<byte>, id: Uuid, source: seq<byte>, message: seq<byte>, mtus: seq<nat>) {
    var r := Cut(zip, NewQueue(id, source, message), mtus);
    r.Some? && r.value.0.offset >= |r.value.0.bytes|
  }

  lemma CompletesWhenRoomIsEnough(
      zip: seq<byte> -> seq<byte>, crc: Checksum, id: Uuid, source: seq<byte>, message: seq<byte>, mtus: seq<nat>)
    requires message != [] && mtus != []
    ensures
      var payload := Sendable(zip, crc, id, source, message, mtus);
      Completes(zip, id, source, message, mtus) <==>
      Cuttable(crc, id, source, mtus, |payload|) && |payload| <= TotalRoom(crc, id, source, mtus)
  {
    CutsExactly(zip, crc, id, source, message, mtus);
  }

  lemma {:induction false} RoomGrows(crc: Checksum, id: Uuid, source: seq<byte>, mtus: seq<nat>, k: nat)
    requires AllHaveRoom(crc, id, source, mtus) && k <= |mtus|
    ensures TotalRoom(crc, id, source, mtus[..k]) <= TotalRoom(crc, id, source, mtus)
    decreases |mtus|
  {
    var n := |mtus| - 1;
    if k == |mtus| {
      assert mtus[..k] == mtus;
    } else {
      RoomGrows(crc, id, source, mtus[..n], k);
      assert mtus[..n][..k] == mtus[..k];
    }
  }

  /** The fewest MTUs with enough room. */
  lemma {:induction false} FewestEnough(crc: Checksum, id: Uuid, source: seq<byte>, mtus: seq<nat>, length: nat) returns (k: nat)
    requires 0 < |mtus| <= 64 && AllHaveRoom(crc, id, source, mtus) && length <= TotalRoom(crc, id, source, mtus)
    ensures 0 < k <= |mtus| && Cuttable(crc, id, source, mtus[..k], length) && length <= TotalRoom(crc, id, source, mtus[..k])
    decreases |mtus|
  {
    var n := |mtus| - 1;
    if n > 0 && length <= TotalRoom(crc, id, source, mtus[..n]) {
      k := FewestEnough(crc, id, source, mtus[..n], length);
      assert mtus[..n][..k] == mtus[..k];
    } else {
      k := |mtus|;
      assert mtus[..k] == mtus;
    }
  }

  lemma CompletionNeedsRoom(
      zip: seq<byte> -> seq<byte>, crc: Checksum, id: Uuid, source: seq<byte>, message: seq<byte>, mtus: seq<nat>, k: nat)
    requires message != [] && AllHaveRoom(crc, id, source, mtus) && 0 < k <= |mtus|
    requires Completes(zip, id, source, message, mtus[..k])
    ensures |Sendable(zip, crc, id, source, message, mtus)| <= TotalRoom(crc, id, source, mtus[..Min(|mtus|, 64)])
  {
    var usable := mtus[..Min(|mtus|, 64)];
    CompletesWhenRoomIsEnough(zip, crc, id, source, message, mtus[..k]);
    RoomGrows(crc, id, source, usable, k);
    assert usable[..k] == mtus[..k];
  }

  lemma RoomGivesCompletion(
      zip: seq<byte> -> seq<byte>, crc: Checksum, id: Uuid, source: seq<byte>, message: seq<byte>, mtus: seq<nat>) returns (k: nat)
    requires message != [] && mtus != [] && AllHaveRoom(crc, id, source, mtus)
    requires |Sendable(zip, crc, id, source, message, mtus)| <= TotalRoom(crc, id, source, mtus[..Min(|mtus|, 64)])
    ensures 0 < k <= |mtus| && Completes(zip, id, source, message, mtus[..k])
  {
    var usable := mtus[..Min(|mtus|, 64)];
    k := FewestEnough(crc, id, source, usable, |Sendable(zip, crc, id, source, message, mtus)|);
    assert usable[..k] == mtus[..k];
    CompletesWhenRoomIsEnough(zip, crc, id, source, message, mtus[..k]);
  }

  /**
    With MTUs that all have room, cutting completes, after some number of frames, exactly when what is to be
    sent is no longer than the room in the first 64 frames together.
   */
  lemma CompletesExactly(
      zip: seq<byte> -> seq<byte>, crc: Checksum, id: Uuid, source: seq<byte>, message: seq<byte>, mtus: seq<nat>)
    requires message != [] && mtus != [] && AllHaveRoom(crc, id, source, mtus)
    ensures
      (exists k :: 0 < k <= |mtus| && Completes(zip, id, source, message, mtus[..k])) <==>
      |Sendable(zip, crc, id, source, message, mtus)| <= TotalRoom(crc, id, source, mtus[..Min(|mtus|, 64)])
  {
    if k :| 0 < k <= |mtus| && Completes(zip, id, source, message, mtus[..k]) {
      CompletionNeedsRoom(zip, crc, id, source, message, mtus, k);
    }
    if |Sendable(zip, crc, id, source, message, mtus)| <= TotalRoom(crc, id, source, mtus[..Min(|mtus|, 64)]) {
      var k := RoomGivesCompletion(zip, crc, id, source, message, mtus);
    }
  }

  /** The frames of a cut: all compressed or none, by whether the message fits the first; and all but the last full. */
  lemma {:induction false} FramesAreFull(
      zip: seq<byte> -> seq<byte>, crc: Checksum, id: Uuid, source: seq<byte>, message: seq<byte>, mtus: seq<nat>, i: nat)
    requires message != [] && i < |mtus| && Cut(zip, NewQueue(id, source, message), mtus).Some?
    ensures
      var frames := Cut(zip, NewQueue(id, source, message), mtus).value.1;
      |frames| == |mtus| &&
      (frames[i].isCompressed <==> !FitsFirst(crc, id, source, message, mtus)) &&
      (!frames[i].isLast ==> |Marshalled(crc, frames[i])| == mtus[i])
  {
    var n := |mtus| - 1;
    var q0 := NewQueue(id, source, message);
    CutLength(zip, q0, mtus);
    CutKeepsOrder(zip, id, source, message, mtus);
    CutsExactly(zip, crc, id, source, message, mtus);
    if i < n {
      FramesAreFull(zip, crc, id, source, message, mtus[..n], i);
    } else {
      CutOneMore(zip, q0, mtus);
      if n > 0 {
        CutsExactly(zip, crc, id, source, message, mtus[..n]);
      }
      OnlyLastIsShort(zip, crc, Cut(zip, q0, mtus[..n]).value.0, mtus[n]);
    }
  }
}
