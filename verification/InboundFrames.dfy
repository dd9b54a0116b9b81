/**
  Frames arriving at the gossip delegate: one decoder per stream, made for the first frame, asked about every
  frame before it is read, and deleted once its message is complete. A frame that arrives again after that
  starts a new round with a new decoder.
 */
module InboundFrames {
  import opened Prelude
  import opened Frame
  import opened FrameQueue
  import opened FrameDecoder

  datatype Outcome = Nothing | Crash | Delivered(result: Result<seq<byte>, DecodeError>)

  /** What becomes of a stream's decoder, and what comes out, when a frame of the stream arrives. */
  ghost function Handled(unzip: seq<byte> -> Option<seq<byte>>, entry: Option<Decoder>, f: Frame): (Option<Decoder>, Outcome) {
    var d := if entry.Some? then entry.value else NewDecoder(f.streamId);
    match Queried(d, f.frameNumber)
    case None => (Some(d), Crash)
    case Some(true) => (Some(d), Nothing)
    case Some(false) =>
      var (d', err) := ReadStep(d, f);
      if err.Some? || !ReceivedAll(d') then (Some(d'), Nothing)
      else if Decoded(unzip, d').None? then (None, Crash)
      else (None, Delivered(Decoded(unzip, d').value))
  }

  class InboundHandler {
    const unzip: seq<byte> -> Option<seq<byte>>
    var decoders: map<Uuid, FrameQueueDecoder>

    /** Decoders stand under their own stream. */
    ghost predicate Valid()
      reads this, decoders.Values
    {
      forall id :: id in decoders ==> decoders[id].id == id && decoders[id].unzip == unzip && decoders[id].Valid()
    }

    ghost function Entry(id: Uuid): Option<Decoder>
      reads this, decoders.Values
    {
      if id in decoders then Some(decoders[id].State()) else None
    }

    constructor (unzip: seq<byte> -> Option<seq<byte>>)
      ensures this.unzip == unzip && decoders == map[] && Valid()
    {
      this.unzip := unzip;
      decoders := map[];
    }

    method HandleInbound(f: Frame) returns (out: Outcome)
      requires Valid()
      modifies this, decoders.Values
      ensures (Entry(f.streamId), out) == Handled(unzip, old(Entry(f.streamId)), f)
      ensures forall id :: id != f.streamId ==> Entry(id) == old(Entry(id))
      ensures Valid() && fresh(decoders.Values - old(decoders.Values))
    {
      ghost var entry := Entry(f.streamId);
      var decoder := DecoderOf(f.streamId);
      NoDecoderIsNew(unzip, entry, f);
      var done;
      out, done := Process(decoder, f);
      assert Valid();
      assert forall id :: id != f.streamId ==> Entry(id) == old(Entry(id));
      if done {
        Forget(f.streamId);
      }
    }

    method Forget(id: Uuid)
      requires Valid()
      modifies `decoders
      ensures Valid() && Entry(id).None? && decoders.Values <= old(decoders.Values)
      ensures forall k :: k != id ==> Entry(k) == old(Entry(k))
    {
      decoders := decoders - {id};
    }

    /** The stream's decoder, made if there is none. */
    method DecoderOf(id: Uuid) returns (decoder: FrameQueueDecoder)
      requires Valid()
      modifies this
      ensures Valid() && id in decoders && decoders[id] == decoder
      ensures decoder.State() == if old(Entry(id)).Some? then old(Entry(id)).value else NewDecoder(id)
      ensures forall k :: k != id ==> Entry(k) == old(Entry(k)) && (k in decoders ==> decoders[k] != decoder)
      ensures decoder in old(decoders.Values) || fresh(decoder)
      ensures decoders.Values <= old(decoders.Values) + {decoder}
    {
      if id in decoders {
        decoder := decoders[id];
      } else {
        decoder := new FrameQueueDecoder(unzip, id);
        decoders := decoders[id := decoder];
      }
    }
  }

  lemma NoDecoderIsNew(unzip: seq<byte> -> Option<seq<byte>>, entry: Option<Decoder>, f: Frame)
    ensures Handled(unzip, entry, f) == Handled(unzip, Some(if entry.Some? then entry.value else NewDecoder(f.streamId)), f)
  {
  }

  /** Asks, reads and, when that completes the message, decodes; `done` says that the decoder is to go. */
  method Process(decoder: FrameQueueDecoder, f: Frame) returns (out: Outcome, done: bool)
    requires decoder.Valid() && decoder.id == f.streamId
    modifies decoder
    ensures decoder.Valid()
    ensures (if done then None else Some(decoder.State()), out) == Handled(decoder.unzip, Some(old(decoder.State())), f)
  {
    var found := decoder.HasReceivedFrame(f.frameNumber);
    if found.None? {
      return Crash, false;
    }
    if found.value {
      return Nothing, false;
    }
    var err := decoder.ReadFrame(f);
    if err.Some? {
      return Nothing, false;
    }
    if !(decoder.terminated && decoder.receivedCount == |decoder.frames|) {
      return Nothing, false;
    }
    var decoded := decoder.Decode();
    return if decoded.None? then Crash else Delivered(decoded.value), true;
  }

  // ---------- Rounds ----------

  /** What the round under way has received of a message of n frames: nothing once a round is complete. */
  ghost function Got(n: nat, js: seq<nat>): set<nat> {
    if js == [] then {} else Next(n, Got(n, js[..|js| - 1]), js[|js| - 1])
  }

  ghost function Next(n: nat, got: set<nat>, j: nat): set<nat> { if |got + {j}| == n then {} else got + {j} }

  /** How many rounds the deliveries complete. */
  ghost function Rounds(n: nat, js: seq<nat>): nat {
    if js == [] then 0
    else
      var before, j := js[..|js| - 1], js[|js| - 1];
      Rounds(n, before) + if |Got(n, before) + {j}| == n then 1 else 0
  }

  ghost predicate IsPrefix(got: set<nat>) { forall i :: i in got <==> 0 <= i < |got| }

  /** A frame can be asked about when there is no gap, or it and all frames before it are there. */
  ghost predicate Askable(got: set<nat>, j: nat) { IsPrefix(got) || forall i: nat :: i <= j ==> i in got }

  /** The decoder of the round under way. */
  ghost predicate Tracks(entry: Option<Decoder>, id: Uuid, frames: seq<Frame>, compressed: bool, got: set<nat>) {
    if entry.None? then got == {}
    else
      entry.value.id == id && got != {} && Holds(entry.value, frames, got) && |got| < |frames| &&
      entry.value.isCompressed == compressed
  }

  /** A query passes the slots from i on unharmed iff it meets its frame before any empty slot. */
  lemma {:induction false} QueryMeaning(d: Decoder, frames: seq<Frame>, got: set<nat>, i: nat, n: uint16)
    requires Holds(d, frames, got) && i <= |d.frames|
    requires forall k :: 0 <= k < |frames| ==> frames[k].frameNumber == k
    ensures QueriedFrom(d.frames, i, n).Some? <==>
            forall k :: i <= k < |d.frames| && k !in got ==> n in got && i <= n < k
    ensures QueriedFrom(d.frames, i, n).Some? ==> (QueriedFrom(d.frames, i, n).value <==> n in got && n >= i)
    decreases |d.frames| - i
  {
    if i < |d.frames| && i in got && i != n {
      QueryMeaning(d, frames, got, i + 1, n);
    }
  }

  lemma QuerySafeExactlyWhenAskable(d: Decoder, frames: seq<Frame>, got: set<nat>, j: nat)
    requires Holds(d, frames, got) && j < |frames|
    requires forall k :: 0 <= k < |frames| ==> frames[k].frameNumber == k
    ensures Queried(d, frames[j].frameNumber).Some? <==> Askable(got, j)
    ensures Queried(d, frames[j].frameNumber).Some? ==> (Queried(d, frames[j].frameNumber).value <==> j in got)
  {
    QueryMeaning(d, frames, got, 0, frames[j].frameNumber);
    CountBelow(got, |d.frames|);
    if Queried(d, frames[j].frameNumber).Some? && !IsPrefix(got) {
      forall i: nat | i <= j ensures i in got {
      }
    }
  }

  /** The result every completed round delivers. */
  ghost function Whole(unzip: seq<byte> -> Option<seq<byte>>, frames: seq<Frame>, compressed: bool): Result<seq<byte>, DecodeError> {
    if !compressed then Ok(Concat(frames))
    else match unzip(Concat(frames)) case None => Err(Corrupt) case Some(out) => Ok(out)
  }

  /** One arrival: it crashes exactly when the frame cannot be asked about, and otherwise moves the round on. */
  lemma ArrivalMovesRound(unzip: seq<byte> -> Option<seq<byte>>, id: Uuid, source: seq<byte>, compressed: bool, payload: seq<byte>,
                          frames: seq<Frame>, entry: Option<Decoder>, got: set<nat>, j: nat)
    requires IsFrameSet(frames, id, source, compressed, payload) && j < |frames|
    requires Tracks(entry, id, frames, compressed, got)
    ensures
      var (entry', out) := Handled(unzip, entry, frames[j]);
      (out.Crash? <==> !Askable(got, j)) &&
      (!out.Crash? ==> Tracks(entry', id, frames, compressed, Next(|frames|, got, j))) &&
      (!out.Crash? ==> out == if |got + {j}| == |frames| then Delivered(Whole(unzip, frames, compressed)) else Nothing)
  {
    var d := if entry.Some? then entry.value else NewDecoder(id);
    assert Holds(d, frames, got);
    QuerySafeExactlyWhenAskable(d, frames, got, j);
    if Askable(got, j) {
      if j in got {
        assert got + {j} == got;
      } else {
        ReadHolds(id, source, compressed, payload, frames, d, got, j);
        CompleteIsCounted(frames, ReadStep(d, frames[j]).0, got + {j});
      }
    }
  }

  lemma CompleteIsCounted(frames: seq<Frame>, d: Decoder, got: set<nat>)
    requires frames != [] && Holds(d, frames, got)
    ensures ReceivedAll(d) <==> |got| == |frames|
    ensures |got| <= |frames| && (ReceivedAll(d) ==> NoGaps(d.frames) && Values(d.frames) == frames)
  {
    CompleteExactlyWhenFull(frames, d, got);
    CountBelow(got, |frames|);
  }

  // ---------- Whole deliveries ----------

  /** The stream's decoder and the messages delivered after frames js[0], js[1], ... arrive; None is a crash. */
  ghost function Arrivals(unzip: seq<byte> -> Option<seq<byte>>, frames: seq<Frame>, js: seq<nat>)
    : Option<(Option<Decoder>, seq<Result<seq<byte>, DecodeError>>)>
    requires forall k :: 0 <= k < |js| ==> js[k] < |frames|
  {
    if js == [] then Some((None, []))
    else
      var before := Arrivals(unzip, frames, js[..|js| - 1]);
      if before.None? then None
      else
        match Handled(unzip, before.value.0, frames[js[|js| - 1]])
        case (_, Crash) => None
        case (entry, Nothing) => Some((entry, before.value.1))
        case (entry, Delivered(r)) => Some((entry, before.value.1 + [r]))
  }

  ghost predicate AllAskable(n: nat, js: seq<nat>) { forall k :: 0 <= k < |js| ==> AskableAt(n, js, k) }

  ghost predicate AskableAt(n: nat, js: seq<nat>, k: nat)
    requires k < |js|
  {
    Askable(Got(n, js[..k]), js[k])
  }

  /**
    Frames of one message, delivered in any order any number of times, get through exactly when each can be
    asked about when it arrives; then every completed round has delivered the whole message once.
   */
  lemma {:induction false} DeliveredOncePerRound(
      unzip: seq<byte> -> Option<seq<byte>>, id: Uuid, source: seq<byte>, compressed: bool, payload: seq<byte>,
      frames: seq<Frame>, js: seq<nat>)
    requires IsFrameSet(frames, id, source, compressed, payload)
    requires forall k :: 0 <= k < |js| ==> js[k] < |frames|
    ensures
      var r := Arrivals(unzip, frames, js);
      (r.Some? <==> AllAskable(|frames|, js)) &&
      (r.Some? ==>
        Tracks(r.value.0, id, frames, compressed, Got(|frames|, js)) &&
        r.value.1 == seq(Rounds(|frames|, js), _ => Whole(unzip, frames, compressed)))
  {
    if js != [] {
      var n, before, j := |frames|, js[..|js| - 1], js[|js| - 1];
      DeliveredOncePerRound(unzip, id, source, compressed, payload, frames, before);
      AskableLast(n, js);
      var r := Arrivals(unzip, frames, before);
      if r.Some? {
        ArrivalMovesRound(unzip, id, source, compressed, payload, frames, r.value.0, Got(n, before), j);
      }
    }
  }

  lemma AskableLast(n: nat, js: seq<nat>)
    requires js != []
    ensures AllAskable(n, js) <==> AllAskable(n, js[..|js| - 1]) && Askable(Got(n, js[..|js| - 1]), js[|js| - 1])
  {
    var before := js[..|js| - 1];
    forall k | 0 <= k < |before| ensures AskableAt(n, js, k) <==> AskableAt(n, before, k) {
      assert js[..k] == before[..k];
    }
    if AllAskable(n, js) {
      assert AskableAt(n, js, |js| - 1);
    }
    if AllAskable(n, before) && Askable(Got(n, before), js[|js| - 1]) {
      forall k | 0 <= k < |js| ensures AskableAt(n, js, k) {
        assert k < |before| ==> AskableAt(n, before, k);
      }
    }
  }

  // ---------- Order ----------

  /** The delivery repeats a frame of its round or is the next frame of it. */
  ghost predicate NextOrRepeat(n: nat, js: seq<nat>, k: nat)
    requires k < |js|
  {
    js[k] in Got(n, js[..k]) || js[k] == |Got(n, js[..k])|
  }

  /** Each round's frames first arrive in order. */
  ghost predicate InOrder(n: nat, js: seq<nat>, upTo: nat)
    requires upTo <= |js|
  {
    forall k :: 0 <= k < upTo ==> NextOrRepeat(n, js, k)
  }

  /** Delivery k skips a frame of its round, and only frames before the skipped one follow. */
  ghost predicate SkipsAt(n: nat, js: seq<nat>, k: nat) {
    k < |js| && InOrder(n, js, k) && js[k] > |Got(n, js[..k])| &&
    forall m :: k < m < |js| ==> js[m] < |Got(n, js[..k])|
  }

  lemma {:induction false} InOrderIsPrefix(n: nat, js: seq<nat>, k: nat)
    requires k <= |js| && InOrder(n, js, k)
    ensures IsPrefix(Got(n, js[..k]))
  {
    if k > 0 {
      InOrderIsPrefix(n, js, k - 1);
      assert NextOrRepeat(n, js, k - 1);
      assert js[..k][..k - 1] == js[..k - 1];
      PrefixGrows(Got(n, js[..k - 1]), js[k - 1]);
    }
  }

  lemma PrefixGrows(got: set<nat>, j: nat)
    requires IsPrefix(got) && (j in got || j == |got|)
    ensures IsPrefix(got + {j})
  {
    if j in got {
      assert got + {j} == got;
    } else {
      assert |got + {j}| == |got| + 1;
    }
  }

  /** After a skip, deliveries before the gap change nothing, so the gap stays. */
  lemma {:induction false} GapStays(n: nat, js: seq<nat>, k: nat, m: nat)
    requires k < m <= |js| && InOrder(n, js, k) && |Got(n, js[..k])| < js[k] < n
    requires forall i :: k < i < m ==> js[i] < |Got(n, js[..k])|
    ensures Got(n, js[..m]) == Got(n, js[..k]) + {js[k]}
  {
    var got := Got(n, js[..k]);
    InOrderIsPrefix(n, js, k);
    if m == k + 1 {
      assert js[..m][..k] == js[..k];
      assert |got + {js[k]}| == |got| + 1;
    } else {
      GapStays(n, js, k, m - 1);
      assert js[..m][..m - 1] == js[..m - 1];
      assert got + {js[k]} + {js[m - 1]} == got + {js[k]};
      assert |got + {js[k]}| == |got| + 1;
    }
  }

  /** With a frame skipped, only frames before it can be asked about. */
  lemma AskableAcrossGap(got: set<nat>, p: nat, j: nat)
    requires IsPrefix(got) && p > |got|
    ensures Askable(got + {p}, j) <==> j < |got|
  {
    assert |got| !in got + {p} && p in got + {p} && |got + {p}| == |got| + 1;
    assert !IsPrefix(got + {p});
  }

  lemma {:induction false} FirstOutOfOrder(n: nat, js: seq<nat>, m: nat) returns (k: nat)
    requires m < |js| && !NextOrRepeat(n, js, m)
    ensures k <= m && !NextOrRepeat(n, js, k) && InOrder(n, js, k)
    decreases m
  {
    if i :| 0 <= i < m && !NextOrRepeat(n, js, i) {
      k := FirstOutOfOrder(n, js, i);
    } else {
      k := m;
    }
  }

  lemma {:induction false} SkipIsTheLastNew(n: nat, js: seq<nat>, k: nat, m: nat)
    requires AllAskable(n, js) && k < m <= |js| && InOrder(n, js, k) && |Got(n, js[..k])| < js[k] < n
    ensures forall i :: k < i < m ==> js[i] < |Got(n, js[..k])|
  {
    if m > k + 1 {
      SkipIsTheLastNew(n, js, k, m - 1);
      GapStays(n, js, k, m - 1);
      InOrderIsPrefix(n, js, k);
      assert AskableAt(n, js, m - 1);
      AskableAcrossGap(Got(n, js[..k]), js[k], js[m - 1]);
    }
  }

  /**
    The delegate survives a delivery exactly when the frames of every round first arrive in order, except
    that the last round may end, unfinished, with one frame too early and repeats of frames before the gap.
   */
  lemma SurvivesExactlyInOrder(n: nat, js: seq<nat>)
    requires forall k :: 0 <= k < |js| ==> js[k] < n
    ensures AllAskable(n, js) <==> InOrder(n, js, |js|) || exists k :: SkipsAt(n, js, k)
  {
    if InOrder(n, js, |js|) {
      forall k | 0 <= k < |js| ensures AskableAt(n, js, k) {
        InOrderIsPrefix(n, js, k);
      }
    } else if k :| SkipsAt(n, js, k) {
      SkipIsAskable(n, js, k);
    } else if AllAskable(n, js) {
      var m :| 0 <= m < |js| && !NextOrRepeat(n, js, m);
      var k := FirstOutOfOrder(n, js, m);
      InOrderIsPrefix(n, js, k);
      SkipIsTheLastNew(n, js, k, |js|);
      assert SkipsAt(n, js, k);
    }
  }

  lemma SkipIsAskable(n: nat, js: seq<nat>, k: nat)
    requires SkipsAt(n, js, k) && js[k] < n
    ensures AllAskable(n, js)
  {
    forall m | 0 <= m < |js| ensures AskableAt(n, js, m) {
      if m <= k {
        InOrderIsPrefix(n, js, m);
      } else {
        GapStays(n, js, k, m);
        InOrderIsPrefix(n, js, k);
        AskableAcrossGap(Got(n, js[..k]), js[k], js[m]);
      }
    }
  }

  /**
    Frames of one message get through the delegate exactly in that order, and then every completed round has
    delivered the whole message once.
   */
  lemma DelegateNeedsOrder(
      unzip: seq<byte> -> Option<seq<byte>>, id: Uuid, source: seq<byte>, compressed: bool, payload: seq<byte>,
      frames: seq<Frame>, js: seq<nat>)
    requires IsFrameSet(frames, id, source, compressed, payload)
    requires forall k :: 0 <= k < |js| ==> js[k] < |frames|
    ensures
      var r, n := Arrivals(unzip, frames, js), |frames|;
      (r.Some? <==> InOrder(n, js, |js|) || exists k :: SkipsAt(n, js, k)) &&
      (r.Some? ==> r.value.1 == seq(Rounds(n, js), _ => Whole(unzip, frames, compressed)))
  {
    DeliveredOncePerRound(unzip, id, source, compressed, payload, frames, js);
    SurvivesExactlyInOrder(|frames|, js);
  }

  /** A delivery that leaves no round unfinished survives exactly when every round is in order. */
  lemma FinishedRoundsNeedOrder(n: nat, js: seq<nat>)
    requires (forall k :: 0 <= k < |js| ==> js[k] < n) && Got(n, js) == {}
    ensures AllAskable(n, js) <==> InOrder(n, js, |js|)
  {
    SurvivesExactlyInOrder(n, js);
    if k :| SkipsAt(n, js, k) {
      GapStays(n, js, k, |js|);
      assert js[..|js|] == js;
    }
  }

  lemma GotOneMore(n: nat, js: seq<nat>, j: nat)
    ensures Got(n, js + [j]) == Next(n, Got(n, js), j)
  {
    assert (js + [j])[..|js|] == js;
  }

  lemma RoundStarts(n: nat, p: nat)
    requires n > 1
    ensures Next(n, {}, p) == {p}
  {
    assert {} + {p} == {p};
  }

  /** Once a round is complete, any frame but the first, arriving twice, is not askable the second time. */
  lemma LateRepeatsAreNotAskable(n: nat, js: seq<nat>, p: nat)
    requires Got(n, js) == {} && 0 < p < n
    ensures !AllAskable(n, js + [p] + [p])
  {
    var all := js + [p] + [p];
    GotOneMore(n, js, p);
    RoundStarts(n, p);
    NotAskable(Got(n, js + [p]), p);
    assert all[..|all| - 1] == js + [p];
    AskableLast(n, all);
  }

  lemma NotAskable(got: set<nat>, j: nat)
    requires got != {} && 0 !in got
    ensures !Askable(got, j)
  {
    var i :| i in got;
    assert |got| > 0;
  }

  lemma TwoFramesMakeARound(n: nat, js: seq<nat>)
    requires n == 2 && Got(n, js) == {}
    ensures Got(n, js + [0] + [1]) == {}
  {
    GotOneMore(n, js, 0);
    assert {} + {0} == {0} && |{0}| == 1;
    GotOneMore(n, js + [0], 1);
    assert |{0} + {1}| == 2;
  }

  /** Once a round is complete, any frame but the first that arrives twice crashes the delegate. */
  lemma LateRepeatsCrash(unzip: seq<byte> -> Option<seq<byte>>, id: Uuid, source: seq<byte>, compressed: bool,
                         payload: seq<byte>, frames: seq<Frame>, js: seq<nat>, p: nat)
    requires IsFrameSet(frames, id, source, compressed, payload) && 0 < p < |frames|
    requires (forall k :: 0 <= k < |js| ==> js[k] < |frames|) && Got(|frames|, js) == {}
    ensures Arrivals(unzip, frames, js + [p] + [p]).None?
  {
    LateRepeatsAreNotAskable(|frames|, js, p);
    DeliveredOncePerRound(unzip, id, source, compressed, payload, frames, js + [p] + [p]);
  }

  /** A two-frame message arrives in order and its last frame comes twice more: the delegate crashes. */
  lemma RepeatsAfterCompletionCrash(unzip: seq<byte> -> Option<seq<byte>>, id: Uuid, source: seq<byte>, compressed: bool,
                                    payload: seq<byte>, frames: seq<Frame>) returns (js: seq<nat>)
    requires IsFrameSet(frames, id, source, compressed, payload) && |frames| == 2
    ensures js == [0, 1, 1, 1] && Arrivals(unzip, frames, js).None?
  {
    var first: seq<nat> := [] + [0] + [1];
    TwoFramesMakeARound(|frames|, []);
    LateRepeatsCrash(unzip, id, source, compressed, payload, frames, first, 1);
    js := first + [1] + [1];
  }
}
