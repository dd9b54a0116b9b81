/**
  Fragmentation: a message is cut into numbered frames that fit the MTU of each call; a message too large
  for its first frame is compressed before cutting. The compressor is a parameter.
 */
module FrameQueue {
  import opened Prelude
  import opened Frame

  const MAX_FRAME_COUNT := 64

  datatype NextError = EndOfQueue | MaxFrameCountExceeded | MtuTooSmall

  /** The state of a frame queue. */
  datatype Queue = Queue(
    id: Uuid, source: seq<byte>, bytes: seq<byte>, compressed: bool, offset: nat, frameNumber: nat)

  function NewQueue(id: Uuid, source: seq<byte>, message: seq<byte>): Queue {
    Queue(id, source, message, false, 0, 0)
  }

  /** How many data bytes fit a frame of the given MTU; None when not even one does. */
  function MaxDataBytes(mtu: nat, source: seq<byte>): Option<nat> {
    if mtu <= HEADER_BYTES + |source| then None else Some(mtu - (HEADER_BYTES + |source|))
  }

  /** The queue once the first call has decided whether to compress. */
  function Prepared(zip: seq<byte> -> seq<byte>, q: Queue, avail: nat): Queue {
    if q.frameNumber == 0 && avail < |q.bytes| && !q.compressed then q.(bytes := zip(q.bytes), compressed := true) else q
  }

  function NextStep(zip: seq<byte> -> seq<byte>, q: Queue, mtu: nat): (Queue, Result<Frame, NextError>) {
    if q.offset >= |q.bytes| then (q, Err(EndOfQueue))
    else if q.frameNumber >= MAX_FRAME_COUNT then (q, Err(MaxFrameCountExceeded))
    else
      match MaxDataBytes(mtu, q.source)
      case None => (q, Err(MtuTooSmall))
      case Some(avail) =>
        var p := Prepared(zip, q, avail);
        var isLast := p.offset + avail >= |p.bytes|;
        var end := if p.offset + avail > |p.bytes| then |p.bytes| else p.offset + avail;
        // A first frame that compresses starts at offset 0, so the cut is never inverted.
        var data := if p.offset <= end then p.bytes[p.offset..end] else [];
        (p.(frameNumber := p.frameNumber + 1, offset := end),
         Ok(Frame(p.compressed, p.id, p.frameNumber, isLast, p.source, data)))
  }

  class FrameQueue {
    const zip: seq<byte> -> seq<byte>
    const id: Uuid
    const source: seq<byte>
    var bytes: seq<byte>
    var compressed: bool
    var offset: nat
    var frameNumber: nat

    ghost function State(): Queue
      reads this
    {
      Queue(id, source, bytes, compressed, offset, frameNumber)
    }

    /** Offsets only move with frames, so nothing has been cut before the first frame. */
    ghost predicate Valid()
      reads this
    {
      frameNumber == 0 ==> offset == 0
    }

    constructor (zip: seq<byte> -> seq<byte>, id: Uuid, source: seq<byte>, message: seq<byte>)
      ensures State() == NewQueue(id, source, message) && Valid() && this.zip == zip
    {
      this.zip, this.id, this.source := zip, id, source;
      bytes, compressed, offset, frameNumber := message, false, 0, 0;
    }

    method Next(mtu: nat) returns (r: Result<Frame, NextError>)
      requires Valid()
      modifies this
      ensures Valid() && (State(), r) == NextStep(zip, old(State()), mtu)
    {
      if offset >= |bytes| {
        return Err(EndOfQueue);
      }
      if frameNumber >= MAX_FRAME_COUNT {
        return Err(MaxFrameCountExceeded);
      }
      var isFirstFrame := frameNumber == 0;
      var availBytes := MaxDataBytes(mtu, source);
      if availBytes.None? {
        return Err(MtuTooSmall);
      }
      if isFirstFrame && availBytes.value < |bytes| && !compressed {
        bytes := zip(bytes);
        compressed := true;
      }
      var end := offset + availBytes.value;
      var isLast := end >= |bytes|;
      if end > |bytes| {
        end := |bytes|;
      }
      var frame := Frame(compressed, id, frameNumber, isLast, source, bytes[offset..end]);
      frameNumber := frameNumber + 1;
      offset := end;
      return Ok(frame);
    }
  }

  // ---------- Cutting a whole message ----------

  /** The queue and the frames after one successful Next per MTU; None if some call failed. */
  function Cut(zip: seq<byte> -> seq<byte>, q: Queue, mtus: seq<nat>): Option<(Queue, seq<Frame>)> {
    if mtus == [] then Some((q, []))
    else
      match Cut(zip, q, mtus[..|mtus| - 1])
      case None => None
      case Some((p, frames)) =>
        match NextStep(zip, p, mtus[|mtus| - 1])
        case (p', Ok(f)) => Some((p', frames + [f]))
        case (_, Err(_)) => None
  }

  lemma CutOneMore(zip: seq<byte> -> seq<byte>, q: Queue, mtus: seq<nat>)
    requires mtus != []
    ensures
      var n := |mtus| - 1;
      var before := Cut(zip, q, mtus[..n]);
      if before.None? then Cut(zip, q, mtus).None?
      else
        var (p, f) := NextStep(zip, before.value.0, mtus[n]);
        Cut(zip, q, mtus) == if f.Ok? then Some((p, before.value.1 + [f.value])) else None
  {
  }

  function Concat(frames: seq<Frame>): seq<byte> {
    if frames == [] then [] else Concat(frames[..|frames| - 1]) + frames[|frames| - 1].data
  }

  /** The bytes actually sent for a message. */
  function Payload(zip: seq<byte> -> seq<byte>, message: seq<byte>, compressed: bool): seq<byte> {
    if compressed then zip(message) else message
  }

  /** Frames 0..k-1 of one stream, one compression flag, contents payload[..offset], last flagged only at the end. */
  ghost predicate CutSoFar(frames: seq<Frame>, q: Queue, payload: seq<byte>) {
    q.bytes == payload && q.frameNumber == |frames| && q.offset <= |payload| &&
    Concat(frames) == payload[..q.offset] &&
    forall i :: 0 <= i < |frames| ==>
      frames[i].isCompressed == q.compressed && frames[i].streamId == q.id && frames[i].source == q.source &&
      frames[i].frameNumber == i &&
      (frames[i].isLast <==> i == |frames| - 1 && q.offset == |payload|)
  }

  lemma ConcatOne(frames: seq<Frame>, f: Frame)
    ensures Concat(frames + [f]) == Concat(frames) + f.data
  {
    assert (frames + [f])[..|frames|] == frames;
  }

  lemma FirstFrameCut(zip: seq<byte> -> seq<byte>, q0: Queue, mtu: nat)
    requires q0.frameNumber == 0 && q0.offset == 0 && !q0.compressed && NextStep(zip, q0, mtu).1.Ok?
    ensures
      var (q, f) := NextStep(zip, q0, mtu);
      q.frameNumber == 1 && CutSoFar([f.value], q, Payload(zip, q0.bytes, q.compressed))
  {
    var (q, f) := NextStep(zip, q0, mtu);
    ConcatOne([], f.value);
    assert [] + [f.value] == [f.value];
  }

  lemma NextFrameCut(zip: seq<byte> -> seq<byte>, p: Queue, mtu: nat, frames: seq<Frame>, payload: seq<byte>)
    requires frames != [] && CutSoFar(frames, p, payload) && NextStep(zip, p, mtu).1.Ok?
    ensures
      var (q, f) := NextStep(zip, p, mtu);
      q.id == p.id && q.source == p.source && q.compressed == p.compressed &&
      q.frameNumber <= MAX_FRAME_COUNT && CutSoFar(frames + [f.value], q, payload)
  {
    var (q, f) := NextStep(zip, p, mtu);
    ConcatOne(frames, f.value);
    assert payload[..q.offset] == payload[..p.offset] + f.value.data;
  }

  lemma {:induction false} CutKeepsOrder(
      zip: seq<byte> -> seq<byte>, id: Uuid, source: seq<byte>, message: seq<byte>, mtus: seq<nat>)
    requires mtus != [] && Cut(zip, NewQueue(id, source, message), mtus).Some?
    ensures
      var (q, frames) := Cut(zip, NewQueue(id, source, message), mtus).value;
      |frames| == |mtus| && q.id == id && q.source == source && q.frameNumber <= MAX_FRAME_COUNT &&
      CutSoFar(frames, q, Payload(zip, message, q.compressed))
  {
    var n := |mtus| - 1;
    var q0 := NewQueue(id, source, message);
    var (p, frames) := Cut(zip, q0, mtus[..n]).value;
    if n == 0 {
      FirstFrameCut(zip, q0, mtus[n]);
      assert [] + [NextStep(zip, q0, mtus[n]).1.value] == [NextStep(zip, q0, mtus[n]).1.value];
    } else {
      CutKeepsOrder(zip, id, source, message, mtus[..n]);
      NextFrameCut(zip, p, mtus[n], frames, Payload(zip, message, p.compressed));
    }
  }

  lemma NextFitsMtu(zip: seq<byte> -> seq<byte>, crc: seq<byte> -> uint32, p: Queue, mtu: nat)
    requires NextStep(zip, p, mtu).1.Ok?
    ensures |Marshalled(crc, NextStep(zip, p, mtu).1.value)| <= mtu
  {
    MarshalledLength(crc, NextStep(zip, p, mtu).1.value);
  }

  /** Every frame a call cuts marshals to at most that call's MTU. */
  lemma {:induction false} FramesFitTheirMtu(
      zip: seq<byte> -> seq<byte>, crc: seq<byte> -> uint32, q: Queue, mtus: seq<nat>, i: nat)
    requires Cut(zip, q, mtus).Some? && i < |mtus|
    ensures
      var (_, frames) := Cut(zip, q, mtus).value;
      |frames| == |mtus| && |Marshalled(crc, frames[i])| <= mtus[i]
  {
    var n := |mtus| - 1;
    CutOneMore(zip, q, mtus);
    var (p, frames) := Cut(zip, q, mtus[..n]).value;
    if i < n {
      FramesFitTheirMtu(zip, crc, q, mtus[..n], i);
    } else {
      CutLength(zip, q, mtus[..n]);
      NextFitsMtu(zip, crc, p, mtus[n]);
    }
  }

  lemma {:induction false} CutLength(zip: seq<byte> -> seq<byte>, q: Queue, mtus: seq<nat>)
    requires Cut(zip, q, mtus).Some?
    ensures |Cut(zip, q, mtus).value.1| == |mtus|
  {
    if mtus != [] { CutLength(zip, q, mtus[..|mtus| - 1]); }
  }

  /** The frames of one whole message: numbered 0..k-1, at most 64, only the last one flagged. */
  ghost predicate IsFrameSet(frames: seq<Frame>, id: Uuid, source: seq<byte>, compressed: bool, payload: seq<byte>) {
    0 < |frames| <= MAX_FRAME_COUNT && Concat(frames) == payload &&
    forall i :: 0 <= i < |frames| ==>
      frames[i].isCompressed == compressed && frames[i].streamId == id && frames[i].source == source &&
      frames[i].frameNumber == i && (frames[i].isLast <==> i == |frames| - 1)
  }

  /**
    For every non-empty message and every sequence of MTUs with which Next delivers frames until its queue
    is exhausted, the frames are the frame set of the message.
   */
  lemma CompletedCutIsFrameSet(
      zip: seq<byte> -> seq<byte>, id: Uuid, source: seq<byte>, message: seq<byte>, mtus: seq<nat>) returns (compressed: bool)
    requires message != [] && Cut(zip, NewQueue(id, source, message), mtus).Some?
    requires
      var (q, _) := Cut(zip, NewQueue(id, source, message), mtus).value;
      q.offset >= |q.bytes|
    ensures
      var (q, frames) := Cut(zip, NewQueue(id, source, message), mtus).value;
      compressed == q.compressed && IsFrameSet(frames, id, source, compressed, Payload(zip, message, compressed))
  {
    var (q, frames) := Cut(zip, NewQueue(id, source, message), mtus).value;
    compressed := q.compressed;
    assert mtus != [];
    CutKeepsOrder(zip, id, source, message, mtus);
    assert q.bytes[..q.offset] == q.bytes;
  }
}
