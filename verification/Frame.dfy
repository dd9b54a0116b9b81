/** Gossip frames and their byte format: a fixed header, source, data and a trailing checksum. */
module Frame {
  import opened Prelude
  import opened Bytes

  type uint16 = n: nat | n < 0x1_0000

  type uint32 = n: nat | n < 0x1_0000_0000

  type Uuid = s: seq<byte> | |s| == 16 witness seq(16, _ => 0)

  datatype Frame = Frame(
    isCompressed: bool,
    streamId: Uuid,
    frameNumber: uint16,
    isLast: bool,
    source: seq<byte>,
    data: seq<byte>)

  /** PastEnd is the slice out of range that the two-byte guard before the four-byte data length lets through. */
  datatype UnmarshalError = UnexpectedEOF | ChecksumMismatch | PastEnd

  /** Everything before the checksum; lengths are cut to the width of their field. */
  function Body(f: Frame): seq<byte> {
    [Flag(f.isCompressed)] + f.streamId + LittleEndian(f.frameNumber, 2) + [Flag(f.isLast)] +
    LittleEndian(|f.source|, 2) + f.source + LittleEndian(|f.data|, 4) + f.data
  }

  function Marshalled(crc: seq<byte> -> uint32, f: Frame): seq<byte> {
    Body(f) + LittleEndian(crc(Body(f)), 4)
  }

  method Marshal(crc: seq<byte> -> uint32, f: Frame) returns (buf: seq<byte>)
    ensures buf == Marshalled(crc, f)
  {
    buf := [Flag(f.isCompressed)];
    buf := buf + f.streamId;
    buf := buf + LittleEndian(f.frameNumber, 2);
    buf := buf + [Flag(f.isLast)];
    buf := buf + LittleEndian(|f.source|, 2);
    buf := buf + f.source;
    buf := buf + LittleEndian(|f.data|, 4);
    buf := buf + f.data;
    buf := buf + LittleEndian(crc(buf), 4);
  }

  const HEADER_BYTES := 1 + 16 + 2 + 1 + 2 + 4 + 4

  lemma MarshalledLength(crc: seq<byte> -> uint32, f: Frame)
    ensures |Marshalled(crc, f)| == HEADER_BYTES + |f.source| + |f.data|
  {
  }

  // ---------- Reading back ----------

  function SourceLength(data: seq<byte>): nat
    requires |data| >= 27
  {
    FromLittleEndian(data[20..22])
  }

  /** The frame laid out in data, once every length check has passed. */
  function FrameAt(data: seq<byte>, sourceEnd: nat, dataEnd: nat): Frame
    requires |data| >= 27 && 22 <= sourceEnd && sourceEnd + 4 <= dataEnd <= |data|
  {
    PowersOf256();
    Frame(data[0] == 1, data[1..17], FromLittleEndian(data[17..19]), data[19] == 1,
          data[22..sourceEnd], data[sourceEnd + 4..dataEnd])
  }

  function Unmarshalled(crc: seq<byte> -> uint32, data: seq<byte>): Result<Frame, UnmarshalError> {
    if |data| < 27 then Err(UnexpectedEOF)
    else
      var sourceEnd := 22 + SourceLength(data);
      if |data| < sourceEnd + 2 then Err(UnexpectedEOF)
      else if |data| < sourceEnd + 4 then Err(PastEnd)
      else
        var dataEnd := sourceEnd + 4 + FromLittleEndian(data[sourceEnd..sourceEnd + 4]);
        if |data| < dataEnd + 4 then Err(UnexpectedEOF)
        else if crc(data[..dataEnd]) != FromLittleEndian(data[dataEnd..dataEnd + 4]) then Err(ChecksumMismatch)
        else Ok(FrameAt(data, sourceEnd, dataEnd))
  }

  /** The reader, field by field, with a running offset. */
  method Unmarshal(crc: seq<byte> -> uint32, data: seq<byte>) returns (r: Result<Frame, UnmarshalError>)
    ensures r == Unmarshalled(crc, data)
  {
    PowersOf256();
    if |data| < 27 {
      return Err(UnexpectedEOF);
    }
    var offset := 0;
    var isCompressed := data[0] == 1;
    offset := offset + 1;
    var streamId := data[offset..offset + 16];
    offset := offset + 16;
    var frameNumber := FromLittleEndian(data[offset..offset + 2]);
    offset := offset + 2;
    var isLast := data[offset] == 1;
    offset := offset + 1;
    var sourceLen := FromLittleEndian(data[offset..offset + 2]);
    offset := offset + 2;
    if |data| < offset + sourceLen {
      return Err(UnexpectedEOF);
    }
    var source := data[offset..offset + sourceLen];
    offset := offset + sourceLen;
    if |data| < offset + 2 {
      return Err(UnexpectedEOF);
    }
    if |data| < offset + 4 {
      return Err(PastEnd);
    }
    var dataLen := FromLittleEndian(data[offset..offset + 4]);
    offset := offset + 4;
    if |data| < offset + dataLen {
      return Err(UnexpectedEOF);
    }
    var payload := data[offset..offset + dataLen];
    offset := offset + dataLen;
    if |data| < offset + 4 {
      return Err(UnexpectedEOF);
    }
    var received := FromLittleEndian(data[offset..offset + 4]);
    if crc(data[..offset]) != received {
      return Err(ChecksumMismatch);
    }
    return Ok(Frame(isCompressed, streamId, frameNumber, isLast, source, payload));
  }

  predicate FitsFormat(f: Frame) { |f.source| < 0x1_0000 && |f.data| < 0x1_0000_0000 }

  /** Every field of a marshalled frame sits where the reader looks for it. */
  lemma Layout(crc: seq<byte> -> uint32, f: Frame)
    ensures
      var bs, s, d := Marshalled(crc, f), 22 + |f.source|, 26 + |f.source| + |f.data|;
      |bs| == d + 4 && bs[0] == Flag(f.isCompressed) && bs[1..17] == f.streamId &&
      bs[17..19] == LittleEndian(f.frameNumber, 2) && bs[19] == Flag(f.isLast) &&
      bs[20..22] == LittleEndian(|f.source|, 2) && bs[22..s] == f.source &&
      bs[s..s + 4] == LittleEndian(|f.data|, 4) && bs[s + 4..d] == f.data &&
      bs[..d] == Body(f) && bs[d..d + 4] == LittleEndian(crc(Body(f)), 4)
  {
    var bs := Marshalled(crc, f);
    var p1 := [Flag(f.isCompressed)] + f.streamId;
    var p2 := p1 + LittleEndian(f.frameNumber, 2);
    var p3 := p2 + [Flag(f.isLast)];
    var p4 := p3 + LittleEndian(|f.source|, 2);
    var p5 := p4 + f.source;
    var p6 := p5 + LittleEndian(|f.data|, 4);
    assert Body(f) == p6 + f.data;
    assert bs[..|Body(f)|] == Body(f);
    assert bs[..|p6|] == p6;
    assert bs[..|p5|] == p5;
    assert bs[..|p4|] == p4;
    assert bs[..|p3|] == p3;
    assert bs[..|p2|] == p2;
    assert bs[..|p1|] == p1;
  }

  /** Fields laid out like this are read as this frame. */
  lemma ReadsLaidOut(crc: seq<byte> -> uint32, bs: seq<byte>, f: Frame, s: nat, d: nat)
    requires s == 22 + |f.source| && d == s + 4 + |f.data| && |bs| == d + 4
    requires bs[0] == Flag(f.isCompressed) && bs[1..17] == f.streamId && FromLittleEndian(bs[17..19]) == f.frameNumber
    requires bs[19] == Flag(f.isLast) && FromLittleEndian(bs[20..22]) == |f.source| && bs[22..s] == f.source
    requires FromLittleEndian(bs[s..s + 4]) == |f.data| && bs[s + 4..d] == f.data
    requires crc(bs[..d]) == FromLittleEndian(bs[d..d + 4])
    ensures Unmarshalled(crc, bs) == Ok(f)
  {
    assert SourceLength(bs) == |f.source|;
    assert FrameAt(bs, s, d) == f;
  }

  lemma ReadsTwoBytes(bs: seq<byte>, n: nat)
    requires bs == LittleEndian(n, 2) && n < 0x1_0000
    ensures FromLittleEndian(bs) == n
  {
    PowersOf256();
    LittleEndianRoundTrip(n, 2);
  }

  lemma ReadsFourBytes(bs: seq<byte>, n: nat)
    requires bs == LittleEndian(n, 4) && n < 0x1_0000_0000
    ensures FromLittleEndian(bs) == n
  {
    PowersOf256();
    LittleEndianRoundTrip(n, 4);
  }

  lemma FittingFramesRoundTrip(crc: seq<byte> -> uint32, f: Frame)
    requires FitsFormat(f)
    ensures Unmarshalled(crc, Marshalled(crc, f)) == Ok(f)
  {
    var bs, s, d := Marshalled(crc, f), 22 + |f.source|, 26 + |f.source| + |f.data|;
    Layout(crc, f);
    ReadsTwoBytes(bs[17..19], f.frameNumber);
    ReadsTwoBytes(bs[20..22], |f.source|);
    ReadsFourBytes(bs[s..s + 4], |f.data|);
    ReadsFourBytes(bs[d..d + 4], crc(Body(f)));
    ReadsLaidOut(crc, bs, f, s, d);
  }

  /**
    Reading back what was marshalled returns the same frame exactly when its source and data fit their
    length fields, whatever the checksum function.
   */
  lemma RoundTrip(crc: seq<byte> -> uint32, f: Frame)
    ensures Unmarshalled(crc, Marshalled(crc, f)) == Ok(f) <==> FitsFormat(f)
  {
    if FitsFormat(f) {
      FittingFramesRoundTrip(crc, f);
    } else {
      ReadFramesFit(crc, Marshalled(crc, f));
    }
  }

  /** Whatever the reader accepts fits the format. */
  lemma ReadFramesFit(crc: seq<byte> -> uint32, data: seq<byte>)
    ensures Unmarshalled(crc, data).Ok? ==> FitsFormat(Unmarshalled(crc, data).value)
  {
    PowersOf256();
  }

  /** These bytes are that frame: every field in its place, and the checksum of all before it after the data. */
  ghost predicate LaidOut(crc: seq<byte> -> uint32, data: seq<byte>, f: Frame) {
    var s, d := 22 + |f.source|, 26 + |f.source| + |f.data|;
    |data| >= d + 4 &&
    (data[0] == 1 <==> f.isCompressed) && data[1..17] == f.streamId && FromLittleEndian(data[17..19]) == f.frameNumber &&
    (data[19] == 1 <==> f.isLast) && FromLittleEndian(data[20..22]) == |f.source| && data[22..s] == f.source &&
    FromLittleEndian(data[s..s + 4]) == |f.data| && data[s + 4..d] == f.data &&
    FromLittleEndian(data[d..d + 4]) == crc(data[..d])
  }

  /** Any bytes are read as a frame exactly when they are laid out as that frame with the right checksum. */
  lemma ReadsExactly(crc: seq<byte> -> uint32, data: seq<byte>, f: Frame)
    ensures Unmarshalled(crc, data) == Ok(f) <==> LaidOut(crc, data, f)
  {
    if LaidOut(crc, data, f) {
      assert SourceLength(data) == |f.source|;
      assert FrameAt(data, 22 + |f.source|, 26 + |f.source| + |f.data|) == f;
    }
  }

  /** Once the lengths are read, only the checksum decides. */
  lemma ChecksumDecides(crc: seq<byte> -> uint32, bs: seq<byte>, s: nat, d: nat)
    requires 22 <= s && s + 4 <= d && |bs| == d + 4
    requires 22 + FromLittleEndian(bs[20..22]) == s && s + 4 + FromLittleEndian(bs[s..s + 4]) == d
    ensures Unmarshalled(crc, bs) == Err(ChecksumMismatch) <==> crc(bs[..d]) != FromLittleEndian(bs[d..d + 4])
  {
    assert SourceLength(bs) == s - 22;
  }

  /**
    A frame whose bytes were changed on the way, but for its two lengths and its checksum, is refused exactly
    when the checksum of the changed bytes is another.
   */
  lemma CorruptionIsCaughtExactly(crc: seq<byte> -> uint32, f: Frame, bs: seq<byte>)
    requires FitsFormat(f) && |bs| == |Marshalled(crc, f)|
    requires
      var good, s, d := Marshalled(crc, f), 22 + |f.source|, 26 + |f.source| + |f.data|;
      |bs| == d + 4 && bs[20..22] == good[20..22] && bs[s..s + 4] == good[s..s + 4] && bs[d..] == good[d..]
    ensures
      var d := 26 + |f.source| + |f.data|;
      Unmarshalled(crc, bs) == Err(ChecksumMismatch) <==> crc(bs[..d]) != crc(Marshalled(crc, f)[..d])
  {
    var s, d := 22 + |f.source|, 26 + |f.source| + |f.data|;
    LengthsAndChecksum(crc, f);
    ChecksumDecides(crc, bs, s, d);
    assert bs[d..d + 4] == bs[d..];
  }

  lemma LengthsAndChecksum(crc: seq<byte> -> uint32, f: Frame)
    requires FitsFormat(f)
    ensures
      var bs, s, d := Marshalled(crc, f), 22 + |f.source|, 26 + |f.source| + |f.data|;
      |bs| == d + 4 && FromLittleEndian(bs[20..22]) == |f.source| && FromLittleEndian(bs[s..s + 4]) == |f.data| &&
      FromLittleEndian(bs[d..]) == crc(bs[..d])
  {
    var bs, s, d := Marshalled(crc, f), 22 + |f.source|, 26 + |f.source| + |f.data|;
    Layout(crc, f);
    ReadsTwoBytes(bs[20..22], |f.source|);
    ReadsFourBytes(bs[s..s + 4], |f.data|);
    assert bs[d..d + 4] == bs[d..];
    ReadsFourBytes(bs[d..], crc(Body(f)));
  }
}
