/**
  The record format of missing events. Times are encoded by Go's binary time format, a parameter here.

  The writer puts the received time into the slot of the last retry time, so that field does not survive;
  the exact conditions are stated below.
 */
module MissingEventCodec {
  import opened Prelude
  import opened Bytes

  /** A recorded time in nanoseconds, whose seconds fit in 64 bits. */
  type Time = t: int | -0x8000_0000_0000_0000 * 1_000_000_000 <= t < 0x8000_0000_0000_0000 * 1_000_000_000

  type int64 = i: int | -0x8000_0000_0000_0000 <= i < 0x8000_0000_0000_0000

  datatype MissingEvent = MissingEvent(
    eventId: seq<byte>,
    receivedTime: Time,
    blockHeight: int64,
    lastRetryTime: Time,
    retriedUnicast: bool,
    retryCount: int64)

  datatype TimeCodec = TimeCodec(encode: Time -> seq<byte>, decode: seq<byte> -> Option<Time>)

  /** Encoded times are short and decode to themselves. */
  ghost predicate Sound(tc: TimeCodec) {
    forall t: Time :: |tc.encode(t)| < 0x8000 && tc.decode(tc.encode(t)) == Some(t)
  }

  // ---------- Two's complement ----------

  function Unsigned64(i: int64): nat { if i < 0 then i + 0x1_0000_0000_0000_0000 else i }

  function Signed64(n: nat): int64
    requires n < 0x1_0000_0000_0000_0000
  {
    if n < 0x8000_0000_0000_0000 then n else n - 0x1_0000_0000_0000_0000
  }

  function Int64Bytes(i: int64): (bs: seq<byte>)
    ensures |bs| == 8
  {
    LittleEndian(Unsigned64(i), 8)
  }

  function BytesInt64(bs: seq<byte>): int64
    requires |bs| == 8
  {
    PowersOf256();
    Signed64(FromLittleEndian(bs))
  }

  lemma Int64RoundTrip(i: int64)
    ensures BytesInt64(Int64Bytes(i)) == i
  {
    PowersOf256();
    LittleEndianRoundTrip(Unsigned64(i), 8);
  }

  /** A 16-bit length read back as signed: lengths from 32768 on come back negative or cut. */
  function BytesInt16(bs: seq<byte>): int
    requires |bs| == 2
  {
    var n := FromLittleEndian(bs);
    if n < 0x8000 then n else n - 0x1_0000
  }

  lemma Int16RoundTrip(n: nat)
    requires n < 0x8000
    ensures BytesInt16(LittleEndian(n, 2)) == n
  {
    PowersOf256();
    LittleEndianRoundTrip(n, 2);
  }

  // ---------- The record ----------

  /** A field preceded by its length. */
  function Sized(field: seq<byte>): seq<byte> { LittleEndian(|field|, 2) + field }

  /** The stored bytes; the received time fills both time slots. */
  function Marshal(tc: TimeCodec, e: MissingEvent): seq<byte> {
    var time := tc.encode(e.receivedTime);
    Sized(e.eventId) + (Sized(time) + (Int64Bytes(e.blockHeight) +
    (Sized(time) + ([Flag(e.retriedUnicast)] + Int64Bytes(e.retryCount)))))
  }

  /** Reads a sized field that at least `after` bytes must follow: the field and what is left. */
  function ReadSized(bs: seq<byte>, after: nat): Option<(seq<byte>, seq<byte>)> {
    if |bs| < 2 then None
    else
      var len := BytesInt16(bs[..2]);
      if len < 0 || |bs| < 2 + len + after then None else Some((bs[2..2 + len], bs[2 + len..]))
  }

  /** Reads a record; None stands for an error as well as for a slice out of range. */
  function Unmarshal(tc: TimeCodec, bs: seq<byte>): Option<MissingEvent> {
    match ReadSized(bs, 2)
    case None => None
    case Some((eventId, rest1)) =>
      match ReadSized(rest1, 8 + 2)
      case None => None
      case Some((received, rest2)) =>
        match ReadSized(rest2[8..], 1 + 8)
        case None => None
        case Some((retried, rest3)) =>
          match (tc.decode(received), tc.decode(retried))
          case (Some(receivedTime), Some(lastRetryTime)) =>
            Some(MissingEvent(eventId, receivedTime, BytesInt64(rest2[..8]), lastRetryTime,
                              rest3[0] == 1, BytesInt64(rest3[1..9])))
          case _ => None
  }

  lemma ReadsSized(field: seq<byte>, rest: seq<byte>, after: nat)
    requires |field| < 0x8000 && |rest| >= after
    ensures ReadSized(Sized(field) + rest, after) == Some((field, rest))
  {
    var bs := Sized(field) + rest;
    assert bs[..2] == LittleEndian(|field|, 2);
    Int16RoundTrip(|field|);
    assert bs[2..2 + |field|] == field && bs[2 + |field|..] == rest;
  }

  /** What the reader gets back: every field but the last retry time. */
  lemma RoundTrip(tc: TimeCodec, e: MissingEvent)
    requires Sound(tc) && |e.eventId| < 0x8000
    ensures Unmarshal(tc, Marshal(tc, e)) == Some(e.(lastRetryTime := e.receivedTime))
  {
    var time := tc.encode(e.receivedTime);
    var tail := [Flag(e.retriedUnicast)] + Int64Bytes(e.retryCount);
    var rest2 := Int64Bytes(e.blockHeight) + (Sized(time) + tail);
    ReadsSized(e.eventId, Sized(time) + rest2, 2);
    ReadsSized(time, rest2, 8 + 2);
    assert rest2[..8] == Int64Bytes(e.blockHeight) && rest2[8..] == Sized(time) + tail;
    ReadsSized(time, tail, 1 + 8);
    assert tail[1..9] == Int64Bytes(e.retryCount);
    Int64RoundTrip(e.blockHeight);
    Int64RoundTrip(e.retryCount);
  }

  /**
    Reading back returns the very record exactly when its id is shorter than 32768 bytes and it was last
    retried at its received time.
   */
  lemma RoundTripExactly(tc: TimeCodec, e: MissingEvent)
    requires Sound(tc)
    ensures Unmarshal(tc, Marshal(tc, e)) == Some(e) <==> |e.eventId| < 0x8000 && e.lastRetryTime == e.receivedTime
  {
    if |e.eventId| < 0x8000 {
      RoundTrip(tc, e);
    } else {
      ReadIdsAreShort(tc, Marshal(tc, e));
    }
  }

  lemma ReadIdsAreShort(tc: TimeCodec, bs: seq<byte>)
    ensures Unmarshal(tc, bs).Some? ==> |Unmarshal(tc, bs).value.eventId| < 0x8000
  {
    PowersOf256();
  }

  // ---------- What the reader accepts ----------

  /** The raw fields of a record: times as they were encoded, numbers as bytes, and whatever follows. */
  datatype Fields = Fields(received: seq<byte>, height: seq<byte>, retried: seq<byte>, flag: byte, count: seq<byte>, rest: seq<byte>)

  ghost predicate IsRecord(tc: TimeCodec, bs: seq<byte>, e: MissingEvent, x: Fields) {
    |e.eventId| < 0x8000 && |x.received| < 0x8000 && |x.retried| < 0x8000 && |x.height| == 8 && |x.count| == 8 &&
    bs == Sized(e.eventId) + (Sized(x.received) + (x.height + (Sized(x.retried) + ([x.flag] + x.count + x.rest)))) &&
    tc.decode(x.received) == Some(e.receivedTime) && tc.decode(x.retried) == Some(e.lastRetryTime) &&
    BytesInt64(x.height) == e.blockHeight && BytesInt64(x.count) == e.retryCount && (x.flag == 1 <==> e.retriedUnicast)
  }

  lemma SplitsSized(bs: seq<byte>, after: nat)
    requires ReadSized(bs, after).Some?
    ensures
      var (field, rest) := ReadSized(bs, after).value;
      |field| < 0x8000 && |rest| >= after && bs == Sized(field) + rest
  {
    var (field, rest) := ReadSized(bs, after).value;
    PowersOf256();
    LittleEndianOfBytes(bs[..2]);
    assert bs == bs[..2] + field + rest;
  }

  lemma RecordReads(tc: TimeCodec, bs: seq<byte>, e: MissingEvent, x: Fields)
    requires IsRecord(tc, bs, e, x)
    ensures Unmarshal(tc, bs) == Some(e)
  {
    var tail := [x.flag] + x.count + x.rest;
    var rest2 := x.height + (Sized(x.retried) + tail);
    ReadsSized(e.eventId, Sized(x.received) + rest2, 2);
    ReadsSized(x.received, rest2, 8 + 2);
    assert rest2[..8] == x.height && rest2[8..] == Sized(x.retried) + tail;
    ReadsSized(x.retried, tail, 1 + 8);
    assert tail[1..9] == x.count;
  }

  lemma SplitsFixed(rest2: seq<byte>, retried: seq<byte>, rest3: seq<byte>)
    requires |rest2| >= 8 && rest2[8..] == Sized(retried) + rest3 && |rest3| >= 9
    ensures rest2 == rest2[..8] + (Sized(retried) + ([rest3[0]] + rest3[1..9] + rest3[9..]))
  {
    assert rest3 == [rest3[0]] + rest3[1..9] + rest3[9..];
    assert rest2 == rest2[..8] + rest2[8..];
  }

  lemma ReadIsRecord(tc: TimeCodec, bs: seq<byte>) returns (x: Fields)
    requires Unmarshal(tc, bs).Some?
    ensures IsRecord(tc, bs, Unmarshal(tc, bs).value, x)
  {
    var (eventId, rest1) := ReadSized(bs, 2).value;
    SplitsSized(bs, 2);
    var (received, rest2) := ReadSized(rest1, 8 + 2).value;
    SplitsSized(rest1, 8 + 2);
    var (retried, rest3) := ReadSized(rest2[8..], 1 + 8).value;
    SplitsSized(rest2[8..], 1 + 8);
    SplitsFixed(rest2, retried, rest3);
    x := Fields(received, rest2[..8], retried, rest3[0], rest3[1..9], rest3[9..]);
  }

  /** Bytes are read as a record exactly when they are that record's fields in order, whatever follows. */
  lemma ReadsExactly(tc: TimeCodec, bs: seq<byte>, e: MissingEvent)
    ensures Unmarshal(tc, bs) == Some(e) <==> exists x :: IsRecord(tc, bs, e, x)
  {
    if Unmarshal(tc, bs) == Some(e) {
      var x := ReadIsRecord(tc, bs);
    }
    if x :| IsRecord(tc, bs, e, x) {
      RecordReads(tc, bs, e, x);
    }
  }
}
