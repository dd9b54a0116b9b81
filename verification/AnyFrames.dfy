/** What a decoder makes of any frames at all, honest or not, in terms of the frames alone. */
module AnyFrames {
  import opened Prelude
  import opened Frame
  import opened FrameQueue
  import opened FrameDecoder

  function ReadAll(id: Uuid, fs: seq<Frame>): Decoder {
    if fs == [] then NewDecoder(id) else ReadStep(ReadAll(id, fs[..|fs| - 1]), fs[|fs| - 1]).0
  }

  // ---------- Which frames count ----------

  /** A frame of the stream with a number in range. */
  ghost predicate Belongs(id: Uuid, f: Frame) { f.streamId == id && f.frameNumber <= 64 }

  /** The first frame that belongs says whether the message is compressed. */
  ghost predicate First(id: Uuid, fs: seq<Frame>, a: nat) {
    a < |fs| && Belongs(id, fs[a]) && forall j :: 0 <= j < a ==> !Belongs(id, fs[j])
  }

  /** Frame number n of a message that is compressed, or is not. */
  ghost predicate Fits(id: Uuid, f: Frame, compressed: bool, n: nat) {
    Belongs(id, f) && f.isCompressed == compressed && f.frameNumber == n
  }

  ghost predicate Has(id: Uuid, fs: seq<Frame>, compressed: bool, n: nat) {
    exists i :: 0 <= i < |fs| && Fits(id, fs[i], compressed, n)
  }

  /** The first that has come for a place. */
  ghost predicate FirstFor(id: Uuid, fs: seq<Frame>, compressed: bool, n: nat, i: nat) {
    i < |fs| && Fits(id, fs[i], compressed, n) && forall j :: 0 <= j < i ==> !Fits(id, fs[j], compressed, n)
  }

  predicate IsFilled(d: Decoder, n: nat) { n < |d.frames| && d.frames[n].Some? }

  /** Each place holds the first frame that came for it, and the compression is that of the first frame of all. */
  ghost predicate HoldsFirsts(d: Decoder, id: Uuid, fs: seq<Frame>) {
    (d.receivedCount == 0 <==> forall i :: 0 <= i < |fs| ==> !Belongs(id, fs[i])) &&
    (forall a: nat :: First(id, fs, a) ==> d.isCompressed == fs[a].isCompressed) &&
    (forall n: nat :: IsFilled(d, n) <==> Has(id, fs, d.isCompressed, n)) &&
    (forall n: nat, i: nat :: FirstFor(id, fs, d.isCompressed, n, i) ==> IsFilled(d, n) && d.frames[n].value == fs[i])
  }

  /** There is nothing beyond the last frame placed, and the end is known once a placed frame is flagged last. */
  ghost predicate Ended(d: Decoder) {
    (|d.frames| > 0 ==> d.frames[|d.frames| - 1].Some?) &&
    (d.terminated <==> exists n :: 0 <= n < |d.frames| && d.frames[n].Some? && d.frames[n].value.isLast)
  }

  ghost predicate Proper(d: Decoder, id: Uuid) { d.id == id && Counts(d) && |d.frames| <= 65 && Ended(d) }

  lemma HasLast(id: Uuid, fs: seq<Frame>, f: Frame, compressed: bool, n: nat)
    ensures Has(id, fs + [f], compressed, n) <==> Has(id, fs, compressed, n) || Fits(id, f, compressed, n)
    ensures forall i: nat :: FirstFor(id, fs + [f], compressed, n, i) <==>
              FirstFor(id, fs, compressed, n, i) || (i == |fs| && Fits(id, f, compressed, n) && !Has(id, fs, compressed, n))
  {
    var more := fs + [f];
    assert forall i :: 0 <= i < |fs| ==> more[i] == fs[i];
    assert more[|fs|] == f;
    if Has(id, fs, compressed, n) {
      var i :| 0 <= i < |fs| && Fits(id, fs[i], compressed, n);
      assert Fits(id, more[i], compressed, n);
    }
  }

  lemma FirstLast(id: Uuid, fs: seq<Frame>, f: Frame)
    ensures forall a: nat :: First(id, fs + [f], a) <==>
              First(id, fs, a) || (a == |fs| && Belongs(id, f) && forall j :: 0 <= j < |fs| ==> !Belongs(id, fs[j]))
  {
    var more := fs + [f];
    assert forall i :: 0 <= i < |fs| ==> more[i] == fs[i];
    assert more[|fs|] == f;
  }

  /** A frame that does not fit changes nothing. */
  lemma MisfitChangesNothing(d: Decoder, id: Uuid, f: Frame)
    requires Proper(d, id) && (!Belongs(id, f) || (d.receivedCount > 0 && f.isCompressed != d.isCompressed))
    ensures ReadStep(d, f).0 == d
  {
  }

  lemma ReadKeepsEnd(d: Decoder, f: Frame)
    requires Ended(d)
    ensures Ended(ReadStep(d, f).0)
  {
    var d' := ReadStep(d, f).0;
    if d'.frames != d.frames {
      assert d'.frames[f.frameNumber] == Some(f);
      if n :| 0 <= n < |d.frames| && d.frames[n].Some? && d.frames[n].value.isLast {
        assert d'.frames[n] == d.frames[n];
      }
      if n :| 0 <= n < |d'.frames| && d'.frames[n].Some? && d'.frames[n].value.isLast && n != f.frameNumber {
        assert d.frames[n] == d'.frames[n];
      }
    }
  }

  lemma FullIsFull(d: Decoder, id: Uuid, n: nat)
    requires Proper(d, id) && d.receivedCount > 64 && n <= 64
    ensures IsFilled(d, n)
  {
    FullHasNoGaps(d.frames);
  }

  /** A frame that fits fills its place, unless that is filled. */
  lemma FittingIsPlaced(d: Decoder, id: Uuid, f: Frame)
    requires Proper(d, id) && Belongs(id, f) && (d.receivedCount > 0 ==> f.isCompressed == d.isCompressed)
    ensures
      var d' := ReadStep(d, f).0;
      d'.isCompressed == f.isCompressed && d'.receivedCount > 0 && |d'.frames| <= 65 &&
      (forall n: nat :: IsFilled(d', n) <==> IsFilled(d, n) || n == f.frameNumber) &&
      (forall n: nat :: IsFilled(d', n) ==> d'.frames[n].value == if IsFilled(d, n) then d.frames[n].value else f)
  {
    if d.receivedCount > 64 {
      FullIsFull(d, id, f.frameNumber);
    } else if IsFilled(d, f.frameNumber) {
      FilledCounts(d.frames, f.frameNumber);
    }
  }

  lemma {:induction false} FilledCounts(frames: seq<Option<Frame>>, n: nat)
    requires n < |frames| && frames[n].Some?
    ensures Filled(frames) > 0
  {
    if n < |frames| - 1 {
      FilledCounts(frames[..|frames| - 1], n);
    }
  }

  lemma BelongsLast(id: Uuid, fs: seq<Frame>, f: Frame)
    ensures (forall i :: 0 <= i < |fs + [f]| ==> !Belongs(id, (fs + [f])[i])) <==>
            (forall i :: 0 <= i < |fs| ==> !Belongs(id, fs[i])) && !Belongs(id, f)
  {
    var more := fs + [f];
    assert forall i :: 0 <= i < |fs| ==> more[i] == fs[i];
    assert more[|fs|] == f;
  }

  lemma MisfitKeeps(d: Decoder, id: Uuid, fs: seq<Frame>, f: Frame)
    requires HoldsFirsts(d, id, fs) && (!Belongs(id, f) || (d.receivedCount > 0 && f.isCompressed != d.isCompressed))
    ensures HoldsFirsts(d, id, fs + [f])
  {
    FirstLast(id, fs, f);
    BelongsLast(id, fs, f);
    forall n: nat ensures Has(id, fs + [f], d.isCompressed, n) <==> Has(id, fs, d.isCompressed, n) {
      HasLast(id, fs, f, d.isCompressed, n);
    }
    forall n: nat, i: nat | FirstFor(id, fs + [f], d.isCompressed, n, i) ensures FirstFor(id, fs, d.isCompressed, n, i) {
      HasLast(id, fs, f, d.isCompressed, n);
    }
  }

  lemma FittingKeeps(d: Decoder, id: Uuid, fs: seq<Frame>, f: Frame)
    requires Proper(d, id) && HoldsFirsts(d, id, fs)
    requires Belongs(id, f) && (d.receivedCount > 0 ==> f.isCompressed == d.isCompressed)
    ensures HoldsFirsts(ReadStep(d, f).0, id, fs + [f])
  {
    var d', c := ReadStep(d, f).0, f.isCompressed;
    FittingIsPlaced(d, id, f);
    FirstLast(id, fs, f);
    BelongsLast(id, fs, f);
    forall n: nat ensures IsFilled(d', n) <==> Has(id, fs + [f], c, n) {
      HasLast(id, fs, f, c, n);
    }
    forall n: nat, i: nat | FirstFor(id, fs + [f], c, n, i) ensures IsFilled(d', n) && d'.frames[n].value == (fs + [f])[i] {
      HasLast(id, fs, f, c, n);
    }
  }

  /** Whatever frames are read, each place holds the first that came for it. */
  lemma {:induction false} AnyReadsHoldFirsts(id: Uuid, fs: seq<Frame>)
    ensures Proper(ReadAll(id, fs), id) && HoldsFirsts(ReadAll(id, fs), id, fs)
  {
    if fs != [] {
      var n := |fs| - 1;
      var d, f := ReadAll(id, fs[..n]), fs[n];
      AnyReadsHoldFirsts(id, fs[..n]);
      ReadKeepsCount(d, f);
      ReadKeepsEnd(d, f);
      assert fs == fs[..n] + [f];
      if !Belongs(id, f) || (d.receivedCount > 0 && f.isCompressed != d.isCompressed) {
        MisfitChangesNothing(d, id, f);
        MisfitKeeps(d, id, fs[..n], f);
      } else {
        FittingIsPlaced(d, id, f);
        FittingKeeps(d, id, fs[..n], f);
      }
    }
  }

  // ---------- What is decoded ----------

  /** f is the first frame that came for place n. */
  ghost predicate Takes(id: Uuid, fs: seq<Frame>, compressed: bool, n: nat, f: Frame) {
    exists i: nat :: FirstFor(id, fs, compressed, n, i) && fs[i] == f
  }

  /** A whole message: frames 0 to k-1, each the first that came for its place, none beyond, one of them flagged last. */
  ghost predicate Assembled(id: Uuid, fs: seq<Frame>, compressed: bool, parts: seq<Frame>) {
    (forall n :: 0 <= n < |parts| ==> Takes(id, fs, compressed, n, parts[n])) &&
    (forall n: nat, f :: Takes(id, fs, compressed, n, f) ==> n < |parts|) &&
    exists n :: 0 <= n < |parts| && parts[n].isLast
  }

  lemma {:induction false} SomeFirstFor(id: Uuid, fs: seq<Frame>, compressed: bool, n: nat) returns (i: nat)
    requires Has(id, fs, compressed, n)
    ensures FirstFor(id, fs, compressed, n, i)
  {
    var m := |fs| - 1;
    assert fs == fs[..m] + [fs[m]];
    HasLast(id, fs[..m], fs[m], compressed, n);
    if Has(id, fs[..m], compressed, n) {
      i := SomeFirstFor(id, fs[..m], compressed, n);
    } else {
      i := m;
    }
  }

  lemma TakesIsPlaced(d: Decoder, id: Uuid, fs: seq<Frame>, n: nat, f: Frame)
    requires HoldsFirsts(d, id, fs)
    ensures Takes(id, fs, d.isCompressed, n, f) <==> IsFilled(d, n) && d.frames[n].value == f
  {
    if IsFilled(d, n) {
      var i := SomeFirstFor(id, fs, d.isCompressed, n);
    }
  }

  /** The places are taken by the frames in parts, and no others. */
  ghost predicate PlacesAre(d: Decoder, parts: seq<Frame>) {
    (forall n: nat :: IsFilled(d, n) <==> n < |parts|) && forall n: nat :: n < |parts| ==> IsFilled(d, n) && d.frames[n].value == parts[n]
  }

  lemma AssembledIsPlaced(d: Decoder, id: Uuid, fs: seq<Frame>, parts: seq<Frame>)
    requires HoldsFirsts(d, id, fs)
    ensures Assembled(id, fs, d.isCompressed, parts) <==> PlacesAre(d, parts) && exists n :: 0 <= n < |parts| && parts[n].isLast
  {
    forall n: nat, f ensures Takes(id, fs, d.isCompressed, n, f) <==> IsFilled(d, n) && d.frames[n].value == f {
      TakesIsPlaced(d, id, fs, n, f);
    }
    if Assembled(id, fs, d.isCompressed, parts) {
      forall n: nat | IsFilled(d, n) ensures n < |parts| {
        assert Takes(id, fs, d.isCompressed, n, d.frames[n].value);
      }
      forall n: nat | n < |parts| ensures IsFilled(d, n) && d.frames[n].value == parts[n] {
        assert Takes(id, fs, d.isCompressed, n, parts[n]);
      }
    }
  }

  lemma PlacedIsWhole(d: Decoder, parts: seq<Frame>)
    requires Ended(d)
    ensures PlacesAre(d, parts) <==> NoGaps(d.frames) && Values(d.frames) == parts
  {
    if PlacesAre(d, parts) {
      if d.frames != [] {
        assert IsFilled(d, |d.frames| - 1);
      }
      if parts != [] {
        assert IsFilled(d, |parts| - 1);
      }
      assert forall n: nat :: n < |d.frames| ==> IsFilled(d, n);
    }
  }

  /**
    Whatever frames are read, of which the first that belongs is the one at a: decoding gives a message if and
    only if the frames that came first for their places assemble to it, decompressed if that first frame was
    compressed.
   */
  lemma DecodesExactly(unzip: seq<byte> -> Option<seq<byte>>, id: Uuid, fs: seq<Frame>, a: nat, out: seq<byte>)
    requires First(id, fs, a)
    ensures
      var compressed := fs[a].isCompressed;
      Decoded(unzip, ReadAll(id, fs)) == Some(Ok(out)) <==>
      exists parts :: Assembled(id, fs, compressed, parts) && (if compressed then unzip(Concat(parts)) == Some(out) else Concat(parts) == out)
  {
    var d, compressed := ReadAll(id, fs), fs[a].isCompressed;
    AnyReadsHoldFirsts(id, fs);
    if Decoded(unzip, d) == Some(Ok(out)) {
      PlacedIsWhole(d, Values(d.frames));
      AssembledIsPlaced(d, id, fs, Values(d.frames));
      LastIsThere(d);
    }
    if parts :| Assembled(id, fs, compressed, parts) && (if compressed then unzip(Concat(parts)) == Some(out) else Concat(parts) == out) {
      AssembledIsPlaced(d, id, fs, parts);
      PlacedIsWhole(d, parts);
      LastIsThere(d);
    }
  }

  lemma LastIsThere(d: Decoder)
    requires Ended(d) && NoGaps(d.frames)
    ensures d.terminated <==> exists n :: 0 <= n < |Values(d.frames)| && Values(d.frames)[n].isLast
  {
    var parts := Values(d.frames);
    assert forall n :: 0 <= n < |parts| ==> parts[n] == d.frames[n].value;
  }
}
