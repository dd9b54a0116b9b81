/** Go's binary time format (time.Time.MarshalBinary, version 1, in UTC): a time codec as the record format asks for. */
module GoTime {
  import opened Prelude
  import opened Bytes
  import opened StateKeys
  import opened MissingEventCodec

  const NANOS: nat := 1_000_000_000

  const VERSION: byte := 1

  /** The zone offset that stands for UTC. */
  const UTC: seq<byte> := [255, 255]

  /** Version, seconds, nanoseconds within the second, zone offset. */
  function Encode(t: Time): (bs: seq<byte>)
    ensures |bs| == 15
  {
    [VERSION] + ToBigEndian(Unsigned64(t / NANOS), 8) + ToBigEndian(t % NANOS, 4) + UTC
  }

  function Decode(bs: seq<byte>): Option<Time> {
    if |bs| != 15 || bs[0] != VERSION then None
    else
      PowersOf256();
      var t := Signed64(BigEndian(bs[1..9])) * NANOS + BigEndian(bs[9..13]);
      if -0x8000_0000_0000_0000 * NANOS <= t < 0x8000_0000_0000_0000 * NANOS then Some(t) else None
  }

  function Codec(): TimeCodec { TimeCodec(t => Encode(t), bs => Decode(bs)) }

  lemma EncodedReadsBack(t: Time)
    ensures Decode(Encode(t)) == Some(t)
  {
    var bs, seconds := Encode(t), t / NANOS;
    PowersOf256();
    BigEndianRoundTrip(Unsigned64(seconds), 8);
    BigEndianRoundTrip(t % NANOS, 4);
    assert bs[1..9] == ToBigEndian(Unsigned64(seconds), 8);
    assert bs[9..13] == ToBigEndian(t % NANOS, 4);
    assert Signed64(Unsigned64(seconds)) == seconds;
  }

  /** The law asked of time codecs is one that Go's format meets. */
  lemma FormatIsSound()
    ensures Sound(Codec())
  {
    forall t: Time ensures |Codec().encode(t)| < 0x8000 && Codec().decode(Codec().encode(t)) == Some(t) {
      EncodedReadsBack(t);
    }
  }
}
