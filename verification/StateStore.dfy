/**
  The off-chain node's state store: one flat byte-keyed database that behaves like separate tables for the
  last seen height, the missing block ranges, the missing events and their index.
 */
module StateStore {
  import opened Prelude
  import opened Bytes
  import opened Lexicographic
  import opened StateKeys
  import opened MissingEventCodec
  import opened TableIterator
  import Paging

  type Db = map<seq<byte>, seq<byte>>

  ghost function Suffixes(db: Db, f: Family): set<seq<byte>> {
    set k | k in db && Prefix(f) <= k :: k[|Prefix(f)|..]
  }

  /** The entries of one family, by the part of the key after its prefix. */
  ghost function Table(db: Db, f: Family): map<seq<byte>, seq<byte>> {
    map x | x in Suffixes(db, f) && Key(f, x) in db :: db[Key(f, x)]
  }

  lemma TableHas(db: Db, f: Family, x: seq<byte>)
    ensures x in Table(db, f) <==> Key(f, x) in db
    ensures x in Table(db, f) ==> Table(db, f)[x] == db[Key(f, x)]
  {
    assert Key(f, x)[|Prefix(f)|..] == x;
  }

  /** Writing or deleting a key of one family changes that table alone, at that entry alone. */
  lemma PutTable(db: Db, f: Family, x: seq<byte>, v: seq<byte>, g: Family)
    ensures Table(db[Key(f, x) := v], g) == if g == f then Table(db, g)[x := v] else Table(db, g)
  {
    var db' := db[Key(f, x) := v];
    forall y ensures Lookup(Table(db', g), y) == if g == f && y == x then Some(v) else Lookup(Table(db, g), y) {
      SameEntry(db, db', f, x, g, y);
    }
    SameLookups(Table(db', g), if g == f then Table(db, g)[x := v] else Table(db, g));
  }

  lemma DeleteTable(db: Db, f: Family, x: seq<byte>, g: Family)
    ensures Table(db - {Key(f, x)}, g) == if g == f then Table(db, g) - {x} else Table(db, g)
  {
    var db' := db - {Key(f, x)};
    forall y ensures Lookup(Table(db', g), y) == if g == f && y == x then None else Lookup(Table(db, g), y) {
      SameEntry(db, db', f, x, g, y);
    }
    SameLookups(Table(db', g), if g == f then Table(db, g) - {x} else Table(db, g));
  }

  function Lookup(m: map<seq<byte>, seq<byte>>, y: seq<byte>): Option<seq<byte>> {
    if y in m then Some(m[y]) else None
  }

  lemma SameLookups(a: map<seq<byte>, seq<byte>>, b: map<seq<byte>, seq<byte>>)
    requires forall y :: Lookup(a, y) == Lookup(b, y)
    ensures a == b
  {
    forall y ensures y in a <==> y in b {
      assert Lookup(a, y) == Lookup(b, y);
    }
    forall y | y in a ensures a[y] == b[y] {
      assert Lookup(a, y) == Lookup(b, y);
    }
  }

  lemma SameEntry(db: Db, db': Db, f: Family, x: seq<byte>, g: Family, y: seq<byte>)
    ensures Key(g, y) == Key(f, x) <==> g == f && y == x
    ensures (y in Table(db, g) <==> Key(g, y) in db) && (y in Table(db', g) <==> Key(g, y) in db')
    ensures y in Table(db, g) ==> Table(db, g)[y] == db[Key(g, y)]
    ensures y in Table(db', g) ==> Table(db', g)[y] == db'[Key(g, y)]
  {
    TableHas(db, g, y);
    TableHas(db', g, y);
    if g != f { FamiliesNeverCollide(g, y, f, x); } else { KeyInjective(f, y, x); }
  }

  // ---------- The tables as values ----------

  const ZERO_ID: Id := [0, 0, 0, 0, 0, 0, 0, 0, 0, 0, 0, 0, 0, 0, 0, 0]

  datatype BlockRange = BlockRange(low: int64, high: int64)

  /** The missing-event tables: counter, index by event id, records by internal id (None: undecodable bytes). */
  datatype Records = Records(
    counter: Id,
    index: map<seq<byte>, seq<byte>>,
    events: map<seq<byte>, Option<MissingEvent>>)

  /** What the flat store stands for. */
  datatype State = State(
    height: Option<int64>,
    rangeCounter: Id,
    ranges: map<seq<byte>, Option<BlockRange>>,
    missing: Records)

  function RangeBytes(r: BlockRange): seq<byte> { Int64Bytes(r.low) + Int64Bytes(r.high) }

  function BytesRange(bs: seq<byte>): Option<BlockRange> {
    if |bs| != 16 then None else Some(BlockRange(BytesInt64(bs[..8]), BytesInt64(bs[8..])))
  }

  lemma RangeRoundTrip(r: BlockRange)
    ensures BytesRange(RangeBytes(r)) == Some(r)
  {
    assert RangeBytes(r)[..8] == Int64Bytes(r.low) && RangeBytes(r)[8..] == Int64Bytes(r.high);
    Int64RoundTrip(r.low);
    Int64RoundTrip(r.high);
  }

  ghost function DecodedEvents(tc: TimeCodec, raw: map<seq<byte>, seq<byte>>): map<seq<byte>, Option<MissingEvent>> {
    Mapped(raw, bs => Unmarshal(tc, bs))
  }

  ghost function DecodedRanges(raw: map<seq<byte>, seq<byte>>): map<seq<byte>, Option<BlockRange>> {
    Mapped(raw, BytesRange)
  }

  /** The single entry of a family whose key is its name alone. */
  function Entry(db: Db, f: Family): Option<seq<byte>> {
    if Key(f, []) in db then Some(db[Key(f, [])]) else None
  }

  ghost predicate EntryHas(db: Db, f: Family, width: nat) {
    Entry(db, f).Some? ==> |Entry(db, f).value| == width
  }

  /** Counters hold 16 bytes and the height 8. */
  ghost predicate WellFormed(db: Db) {
    EntryHas(db, LastSeenBlockHeight, 8) && EntryHas(db, MissingBlocksCounter, 16) && EntryHas(db, MissingEventsCounter, 16)
  }

  function CounterOf(entry: Option<seq<byte>>): Id
    requires entry.Some? ==> |entry.value| == 16
  {
    if entry.Some? then entry.value else ZERO_ID
  }

  function HeightOf(entry: Option<seq<byte>>): Option<int64>
    requires entry.Some? ==> |entry.value| == 8
  {
    if entry.Some? then Some(BytesInt64(entry.value)) else None
  }

  ghost function StateOf(tc: TimeCodec, db: Db): State
    requires WellFormed(db)
  {
    State(
      HeightOf(Entry(db, LastSeenBlockHeight)),
      CounterOf(Entry(db, MissingBlocksCounter)),
      DecodedRanges(Table(db, MissingBlocks)),
      Records(
        CounterOf(Entry(db, MissingEventsCounter)),
        Table(db, MissingEventsIndex),
        DecodedEvents(tc, Table(db, MissingEvents))))
  }

  lemma PutEntry(db: Db, f: Family, x: seq<byte>, v: seq<byte>, g: Family)
    ensures Entry(db[Key(f, x) := v], g) == if g == f && x == [] then Some(v) else Entry(db, g)
  {
    if g != f { FamiliesNeverCollide(g, [], f, x); } else { KeyInjective(f, [], x); }
  }

  lemma DeleteEntry(db: Db, f: Family, x: seq<byte>, g: Family)
    ensures Entry(db - {Key(f, x)}, g) == if g == f && x == [] then None else Entry(db, g)
  {
    if g != f { FamiliesNeverCollide(g, [], f, x); } else { KeyInjective(f, [], x); }
  }

  // ---------- Writes ----------

  /** One write of the database or of a batch. */
  datatype Write = Put(f: Family, x: seq<byte>, v: seq<byte>) | Delete(f: Family, x: seq<byte>)

  function Written(db: Db, w: Write): Db {
    match w
    case Put(f, x, v) => db[Key(f, x) := v]
    case Delete(f, x) => db - {Key(f, x)}
  }

  predicate IsTable(f: Family) { f.MissingBlocks? || f.MissingEvents? || f.MissingEventsIndex? }

  /** Single entries are written whole and never deleted. */
  predicate Legal(w: Write) {
    IsTable(w.f) || (w.Put? && w.x == [] && |w.v| == if w.f.LastSeenBlockHeight? then 8 else 16)
  }

  /** What a write does to the separate tables. */
  ghost function Effect(tc: TimeCodec, s: State, w: Write): State
    requires Legal(w)
  {
    match w
    case Put(f, x, v) => (
      match f
      case LastSeenBlockHeight => s.(height := Some(BytesInt64(v)))
      case MissingBlocksCounter => s.(rangeCounter := v)
      case MissingBlocks => s.(ranges := s.ranges[x := BytesRange(v)])
      case MissingEventsCounter => s.(missing := s.missing.(counter := v))
      case MissingEvents => s.(missing := s.missing.(events := s.missing.events[x := Unmarshal(tc, v)]))
      case MissingEventsIndex => s.(missing := s.missing.(index := s.missing.index[x := v])))
    case Delete(f, x) =>
      if f.MissingBlocks? then s.(ranges := s.ranges - {x})
      else if f.MissingEvents? then s.(missing := s.missing.(events := s.missing.events - {x}))
      else s.(missing := s.missing.(index := s.missing.index - {x}))
  }

  /** A write to the flat store is a write to one table: the flat store refines the separate maps. */
  lemma WriteRefines(tc: TimeCodec, db: Db, w: Write)
    requires WellFormed(db) && Legal(w)
    ensures WellFormed(Written(db, w))
    ensures StateOf(tc, Written(db, w)) == Effect(tc, StateOf(tc, db), w)
  {
    match w
    case Put(f, x, v) => PutState(tc, db, f, x, v);
    case Delete(f, x) => DeleteState(tc, db, f, x);
  }

  lemma PutState(tc: TimeCodec, db: Db, f: Family, x: seq<byte>, v: seq<byte>)
    requires WellFormed(db) && Legal(Put(f, x, v))
    ensures WellFormed(db[Key(f, x) := v])
    ensures StateOf(tc, db[Key(f, x) := v]) == Effect(tc, StateOf(tc, db), Put(f, x, v))
  {
    PutEntry(db, f, x, v, LastSeenBlockHeight);
    PutEntry(db, f, x, v, MissingBlocksCounter);
    PutEntry(db, f, x, v, MissingEventsCounter);
    PutTable(db, f, x, v, MissingBlocks);
    PutTable(db, f, x, v, MissingEvents);
    PutTable(db, f, x, v, MissingEventsIndex);
    PutDecoded(tc, Table(db, f), x, v);
  }

  lemma PutDecoded(tc: TimeCodec, raw: map<seq<byte>, seq<byte>>, x: seq<byte>, v: seq<byte>)
    ensures DecodedEvents(tc, raw[x := v]) == DecodedEvents(tc, raw)[x := Unmarshal(tc, v)]
    ensures DecodedRanges(raw[x := v]) == DecodedRanges(raw)[x := BytesRange(v)]
  {
    PutMapped(raw, x, v, bs => Unmarshal(tc, bs));
    PutMapped(raw, x, v, BytesRange);
  }

  ghost function Mapped<T>(raw: map<seq<byte>, seq<byte>>, decode: seq<byte> -> T): map<seq<byte>, T> {
    map x | x in raw :: decode(raw[x])
  }

  lemma PutMapped<T>(raw: map<seq<byte>, seq<byte>>, x: seq<byte>, v: seq<byte>, decode: seq<byte> -> T)
    ensures Mapped(raw[x := v], decode) == Mapped(raw, decode)[x := decode(v)]
    ensures Mapped(raw - {x}, decode) == Mapped(raw, decode) - {x}
  {
  }

  lemma DeleteState(tc: TimeCodec, db: Db, f: Family, x: seq<byte>)
    requires WellFormed(db) && Legal(Delete(f, x))
    ensures WellFormed(db - {Key(f, x)})
    ensures StateOf(tc, db - {Key(f, x)}) == Effect(tc, StateOf(tc, db), Delete(f, x))
  {
    DeleteEntry(db, f, x, LastSeenBlockHeight);
    DeleteEntry(db, f, x, MissingBlocksCounter);
    DeleteEntry(db, f, x, MissingEventsCounter);
    DeleteTable(db, f, x, MissingBlocks);
    DeleteTable(db, f, x, MissingEvents);
    DeleteTable(db, f, x, MissingEventsIndex);
    DeleteDecoded(tc, Table(db, f), x);
  }

  lemma DeleteDecoded(tc: TimeCodec, raw: map<seq<byte>, seq<byte>>, x: seq<byte>)
    ensures DecodedEvents(tc, raw - {x}) == DecodedEvents(tc, raw) - {x}
    ensures DecodedRanges(raw - {x}) == DecodedRanges(raw) - {x}
  {
    PutMapped(raw, x, [], bs => Unmarshal(tc, bs));
    PutMapped(raw, x, [], BytesRange);
  }

  /** Reading a key of one of the tables. */
  lemma ReadIndex(tc: TimeCodec, db: Db, f: Family, x: seq<byte>)
    requires WellFormed(db) && f.MissingEventsIndex?
    ensures var t := StateOf(tc, db).missing.index;
      (x in t <==> Key(f, x) in db) && (x in t ==> t[x] == db[Key(f, x)])
  {
    TableHas(db, f, x);
  }

  lemma ReadEvent(tc: TimeCodec, db: Db, f: Family, x: seq<byte>)
    requires WellFormed(db) && f.MissingEvents?
    ensures var t := StateOf(tc, db).missing.events;
      (x in t <==> Key(f, x) in db) && (x in t ==> t[x] == Unmarshal(tc, db[Key(f, x)]))
  {
    TableHas(db, f, x);
  }

  // ---------- Operations on the tables ----------

  function WithHeight(s: State, height: int64): State { s.(height := Some(height)) }

  /** A new range goes under the next range id. */
  function AddedRange(s: State, r: BlockRange): State {
    var id := Successor(s.rangeCounter);
    s.(rangeCounter := id, ranges := s.ranges[id := Some(r)])
  }

  function UpdatedRange(s: State, id: Id, r: BlockRange): State { s.(ranges := s.ranges[id := Some(r)]) }

  function RemovedRange(s: State, id: Id): State { s.(ranges := s.ranges - {id}) }

  function WithMissing(s: State, t: Records): State { s.(missing := t) }

  /** What is stored for e: its bytes, read back. */
  function AsStored(tc: TimeCodec, e: MissingEvent): Option<MissingEvent> { Unmarshal(tc, Marshal(tc, e)) }

  /** One event of a batch: earlier records are looked up in the tables as they were before the batch. */
  function AddedOne(tc: TimeCodec, before: Records, t: Records, e: MissingEvent): Records {
    var id := Successor(t.counter);
    var kept := if e.eventId in before.index then t.events - {before.index[e.eventId]} else t.events;
    Records(id, t.index[e.eventId := id], kept[id := AsStored(tc, e)])
  }

  function Added(tc: TimeCodec, t: Records, es: seq<MissingEvent>): Records {
    if es == [] then t else AddedOne(tc, t, Added(tc, t, es[..|es| - 1]), es[|es| - 1])
  }

  /** One more request, counted in 64 bits. */
  function Bumped(e: MissingEvent, now: Time): MissingEvent {
    e.(retriedUnicast := true, lastRetryTime := now,
       retryCount := if e.retryCount == 0x7FFF_FFFF_FFFF_FFFF then -0x8000_0000_0000_0000 else e.retryCount + 1)
  }

  predicate Marked(t: Records, eventId: seq<byte>) {
    eventId in t.index && t.index[eventId] in t.events && t.events[t.index[eventId]].Some?
  }

  function Incremented(tc: TimeCodec, t: Records, eventId: seq<byte>, now: Time): Records {
    if !Marked(t, eventId) then t
    else
      var id := t.index[eventId];
      t.(events := t.events[id := AsStored(tc, Bumped(t.events[id].value, now))])
  }

  function Removed(t: Records, eventId: seq<byte>): Records {
    if eventId !in t.index then t
    else t.(index := t.index - {eventId}, events := t.events - {t.index[eventId]})
  }

  ghost function WithEvent(tc: TimeCodec, s: State, id: seq<byte>, e: MissingEvent): State {
    s.(missing := s.missing.(events := s.missing.events[id := AsStored(tc, e)]))
  }

  function PutEventWrite(tc: TimeCodec, ghost s: State, id: seq<byte>, e: MissingEvent): (w: Write)
    ensures Legal(w) && Effect(tc, s, w) == WithEvent(tc, s, id, e)
  {
    Put(MissingEvents, id, Marshal(tc, e))
  }

  /** The two writes of a new range. */
  method AddRangeWrites(tc: TimeCodec, ghost s: State, id: Id, r: BlockRange) returns (counter: Write, range: Write)
    requires id == Successor(s.rangeCounter)
    ensures Legal(counter) && Legal(range) && Effect(tc, Effect(tc, s, counter), range) == AddedRange(s, r)
  {
    RangeRoundTrip(r);
    counter, range := Put(MissingBlocksCounter, [], id), Put(MissingBlocks, id, RangeBytes(r));
  }

  /** The write that replaces a range. */
  method UpdateRangeWrite(tc: TimeCodec, ghost s: State, id: Id, r: BlockRange) returns (w: Write)
    ensures Legal(w) && Effect(tc, s, w) == UpdatedRange(s, id, r)
  {
    RangeRoundTrip(r);
    w := Put(MissingBlocks, id, RangeBytes(r));
  }

  // ---------- The store ----------

  class LevelDBStore {
    const tc: TimeCodec
    var db: Db

    ghost predicate Valid()
      reads this
    {
      WellFormed(db)
    }

    ghost function View(): State
      reads this
      requires Valid()
    {
      StateOf(tc, db)
    }

    constructor (tc: TimeCodec)
      ensures this.tc == tc && db == map[] && Valid()
    {
      this.tc := tc;
      db := map[];
    }

    method Apply(w: Write)
      requires Valid() && Legal(w)
      modifies this
      ensures Valid() && View() == Effect(tc, old(View()), w)
    {
      WriteRefines(tc, db, w);
      db := Written(db, w);
    }

    method SetLastSeenBlockHeight(height: int64)
      requires Valid()
      modifies this
      ensures Valid() && View() == WithHeight(old(View()), height)
    {
      Int64RoundTrip(height);
      Apply(Put(LastSeenBlockHeight, [], Int64Bytes(height)));
    }

    method GetLastSeenBlockHeight() returns (height: Option<int64>)
      requires Valid()
      ensures height == View().height
    {
      height := HeightOf(Entry(db, LastSeenBlockHeight));
    }

    /** Stores a range under the next range id. */
    method AddMissingBlocks(r: BlockRange) returns (id: Id)
      requires Valid()
      modifies this
      ensures Valid() && id == Successor(old(View()).rangeCounter) && View() == AddedRange(old(View()), r)
    {
      id := GetNextKey(CounterOf(Entry(db, MissingBlocksCounter)));
      var counterWrite, rangeWrite := AddRangeWrites(tc, View(), id, r);
      Apply(counterWrite);
      Apply(rangeWrite);
    }

    method UpdateMissingBlockRange(id: Id, r: BlockRange)
      requires Valid()
      modifies this
      ensures Valid() && View() == UpdatedRange(old(View()), id, r)
    {
      var w := UpdateRangeWrite(tc, View(), id, r);
      Apply(w);
    }

    method RemoveMissingBlockRange(id: Id)
      requires Valid()
      modifies this
      ensures Valid() && View() == RemovedRange(old(View()), id)
    {
      Apply(Delete(MissingBlocks, id));
    }

    /** Records one more request for an event; fails when it is not marked missing. */
    method IncrementMissingEventRetryCount(eventId: seq<byte>, now: Time) returns (ok: bool)
      requires Valid()
      modifies this
      ensures Valid() && View() == WithMissing(old(View()), Incremented(tc, old(View()).missing, eventId, now))
      ensures ok == Marked(old(View()).missing, eventId)
    {
      var internalId := GetIndex(eventId);
      if internalId.None? {
        return false;
      }
      var value := GetEvent(internalId.value);
      if value.None? || value.value.None? {
        return false;
      }
      PutEvent(internalId.value, Bumped(value.value.value, now));
      return true;
    }

    method RemoveMissingEvent(eventId: seq<byte>)
      requires Valid()
      modifies this
      ensures Valid() && View() == WithMissing(old(View()), Removed(old(View()).missing, eventId))
    {
      var internalId := GetIndex(eventId);
      if internalId.None? {
        return;
      }
      Apply(Delete(MissingEventsIndex, eventId));
      Apply(Delete(MissingEvents, internalId.value));
    }

    method GetIndex(eventId: seq<byte>) returns (id: Option<seq<byte>>)
      requires Valid()
      ensures id == var t := View().missing.index; if eventId in t then Some(t[eventId]) else None
    {
      ReadIndex(tc, db, MissingEventsIndex, eventId);
      var key := Key(MissingEventsIndex, eventId);
      id := if key in db then Some(db[key]) else None;
    }

    method GetEvent(id: seq<byte>) returns (value: Option<Option<MissingEvent>>)
      requires Valid()
      ensures value == var t := View().missing.events; if id in t then Some(t[id]) else None
    {
      ReadEvent(tc, db, MissingEvents, id);
      var key := Key(MissingEvents, id);
      value := if key in db then Some(Unmarshal(tc, db[key])) else None;
    }

    method PutEvent(id: seq<byte>, e: MissingEvent)
      requires Valid()
      modifies this
      ensures Valid()
      ensures View() == WithEvent(tc, old(View()), id, e)
    {
      var w := PutEventWrite(tc, View(), id, e);
      Apply(w);
    }

    /**
      Adds events under fresh internal ids, in one transaction: the counter is written first, then a batch
      built from what the transaction held.
     */
    method AddMissingEvents(events: seq<MissingEvent>) returns (ids: seq<Id>)
      requires Valid()
      modifies this
      ensures Valid() && View() == WithMissing(old(View()), Added(tc, old(View()).missing, events))
      ensures |ids| == |events|
      ensures forall i :: 0 <= i < |events| ==> ids[i] == CounterAfter(old(View()).missing.counter, i + 1)
    {
      ghost var s := View();
      var counter := GetCounter();
      var last;
      ids, last := NextIds(counter, |events|);
      AddedCounter(tc, s.missing, events);
      PutCounter(last);
      var batch := BuildBatch(events, ids, s.missing);
      WriteBatch(batch);
    }

    method GetCounter() returns (counter: Id)
      requires Valid()
      ensures counter == View().missing.counter
    {
      counter := CounterOf(Entry(db, MissingEventsCounter));
    }

    method PutCounter(counter: Id)
      requires Valid()
      modifies this
      ensures Valid() && View() == WithCounter(old(View()), counter)
    {
      Apply(Put(MissingEventsCounter, [], counter));
    }

    /** The internal ids of a batch. */
    method NextIds(counter: Id, n: nat) returns (ids: seq<Id>, last: Id)
      ensures |ids| == n && last == CounterAfter(counter, n)
      ensures forall i :: 0 <= i < n ==> ids[i] == CounterAfter(counter, i + 1)
    {
      last := counter;
      ids := [];
      for i := 0 to n
        invariant |ids| == i && last == CounterAfter(counter, i)
        invariant forall k :: 0 <= k < i ==> ids[k] == CounterAfter(counter, k + 1)
      {
        last := GetNextKey(last);
        ids := ids + [last];
      }
    }

    /** The writes of a batch; indexes are read from the transaction, which the batch has not reached yet. */
    method BuildBatch(events: seq<MissingEvent>, ids: seq<Id>, ghost t: Records) returns (batch: seq<Write>)
      requires Valid() && View().missing == t.(counter := View().missing.counter)
      requires |ids| == |events|
      requires forall i :: 0 <= i < |events| ==> ids[i] == CounterAfter(t.counter, i + 1)
      ensures AllLegal(batch)
      ensures Effects(tc, View(), batch) == WithRecords(View(), Added(tc, t, events))
    {
      batch := [];
      for i := 0 to |events|
        invariant AllLegal(batch)
        invariant Effects(tc, View(), batch) == WithRecords(View(), Added(tc, t, events[..i]))
      {
        var event := events[i];
        var prevInternalId := GetIndex(event.eventId);
        var encoded := Marshal(tc, event);
        EffectsOfEvent(tc, View(), batch, event.eventId, ids[i], prevInternalId, encoded);
        batch := batch + EventWrites(event.eventId, ids[i], prevInternalId, encoded);
        AddedStep(tc, t, events, i);
        AddedCounter(tc, t, events[..i]);
      }
      assert events[..|events|] == events;
    }

    method WriteBatch(batch: seq<Write>)
      requires Valid() && AllLegal(batch)
      modifies this
      ensures Valid() && View() == Effects(tc, old(View()), batch)
    {
      ghost var s := View();
      for i := 0 to |batch|
        invariant Valid() && View() == Effects(tc, s, batch[..i])
      {
        assert batch[..i + 1][..i] == batch[..i];
        Apply(batch[i]);
      }
      assert batch[..|batch|] == batch;
    }

    /** Counts the entries of the index. */
    method MissingEventCount() returns (count: nat)
      requires Valid()
      ensures count == |View().missing.index|
    {
      count := CountEntries(db, MissingEventsIndex);
    }

    /** A page of at most `limit` records after a cursor; fails on ids that are too short or long, and on records that do not decode. */
    method GetMissingEvents(after: Option<Id>, limit: int) returns (r: Result<seq<(seq<byte>, MissingEvent)>, string>)
      requires Valid()
      ensures limit <= 0 ==> r.Err?
      ensures Strict(ByteOrder) && (limit > 0 ==> IsPage(Readable(View().missing.events), ByteOrder, after, limit, r))
      ensures r.Ok? ==>
                forall i :: 0 <= i < |r.value| ==>
                  |r.value[i].0| == 16 && r.value[i].0 in View().missing.events &&
                  View().missing.events[r.value[i].0] == Some(r.value[i].1)
    {
      ByteOrderIsStrict();
      if limit <= 0 {
        return Err("limit must be greater than 0");
      }
      var snapshot := SnapshotOf(tc, db, MissingEvents);
      r := ReadPage(Readable(snapshot), ByteOrder, after, limit);
    }
  }

  // ---------- Iterating a family ----------

  ghost predicate WideIds(ids: set<seq<byte>>) { forall id :: id in ids ==> |id| == 16 }

  /** What a page read makes of the records: ids of another width than 16 bytes are errors. */
  function Readable(t: map<seq<byte>, Option<MissingEvent>>): (r: map<seq<byte>, Option<MissingEvent>>)
    ensures r.Keys == t.Keys
    ensures WideIds(t.Keys) ==> r == t
  {
    map id | id in t :: if |id| == 16 then t[id] else None
  }

  /** What an iterator over the records sees from the moment it is opened. */
  function SnapshotOf(tc: TimeCodec, db: Db, f: Family): (t: map<seq<byte>, Option<MissingEvent>>)
    requires WellFormed(db) && f.MissingEvents?
    ensures t == StateOf(tc, db).missing.events
  {
    SuffixesAreKeys(db, f);
    DecodedSnapshot(tc, db, f);
    map x | x in (set k | k in db && Prefix(f) <= k :: k[|Prefix(f)|..]) && Key(f, x) in db :: Unmarshal(tc, db[Key(f, x)])
  }

  lemma DecodedSnapshot(tc: TimeCodec, db: Db, f: Family)
    ensures DecodedEvents(tc, Table(db, f)) ==
      map x | x in (set k | k in db && Prefix(f) <= k :: k[|Prefix(f)|..]) && Key(f, x) in db :: Unmarshal(tc, db[Key(f, x)])
  {
    assert Suffixes(db, f) == set k | k in db && Prefix(f) <= k :: k[|Prefix(f)|..];
    forall x ensures x in Table(db, f) <==> x in Suffixes(db, f) && Key(f, x) in db {
      TableHas(db, f, x);
    }
  }

  /** The database keeps 16-byte ids in the order of their numbers. */
  lemma WideIdsAgree(ids: set<seq<byte>>)
    requires WideIds(ids)
    ensures Agrees(ids, ByteOrder, BigEndian)
  {
    forall a, b | a in ids && b in ids ensures ByteOrder(a, b) <==> BigEndian(a) < BigEndian(b) {
      ByteOrderIsNumericOrder(a, b);
    }
  }

  /** So a page of ids is a page of numbers. */
  lemma PageIsNumeric(all: set<seq<byte>>, ids: set<seq<byte>>, after: Option<seq<byte>>, limit: nat)
    requires Strict(ByteOrder) && WideIds(all) && ids <= all && (after.Some? ==> after.value in all)
    ensures Paging.Page(Numbers(ids, BigEndian), NumberOf(after, BigEndian), limit) ==
            NumbersIn(PageKeys(ids, ByteOrder, after, limit), BigEndian)
  {
    WideIdsAgree(all);
    PageNumbers(all, ids, ByteOrder, BigEndian, after, limit);
  }

  lemma SuffixesAreKeys(db: Db, f: Family)
    ensures Suffixes(db, f) == Table(db, f).Keys
  {
    forall x ensures x in Suffixes(db, f) <==> x in Table(db, f) {
      TableHas(db, f, x);
      if x in Suffixes(db, f) {
        var k :| k in db && Prefix(f) <= k && x == k[|Prefix(f)|..];
        assert k == Key(f, x);
      }
    }
  }

  /** One step per key of the family. */
  method CountEntries(db: Db, f: Family) returns (count: nat)
    ensures count == |Table(db, f)|
  {
    var keys := set k | k in db && Prefix(f) <= k;
    var rest := keys;
    count := 0;
    while rest != {}
      invariant count + |rest| == |keys|
      decreases |rest|
    {
      var k :| k in rest;
      rest := rest - {k};
      count := count + 1;
    }
    assert Suffixes(db, f) == set k | k in keys :: k[|Prefix(f)|..];
    SuffixesDiffer(Prefix(f), keys);
    SuffixesAreKeys(db, f);
  }

  lemma {:induction false} SuffixesDiffer(prefix: seq<byte>, keys: set<seq<byte>>)
    requires forall k :: k in keys ==> prefix <= k
    ensures |set k | k in keys :: k[|prefix|..]| == |keys|
  {
    var suffixes := set k | k in keys :: k[|prefix|..];
    if k :| k in keys {
      var rest := keys - {k};
      SuffixesDiffer(prefix, rest);
      var fewer := set j | j in rest :: j[|prefix|..];
      forall j | j in rest ensures j[|prefix|..] != k[|prefix|..] {
        assert j == prefix + j[|prefix|..] && k == prefix + k[|prefix|..];
      }
      assert suffixes == fewer + {k[|prefix|..]};
    } else {
      assert keys == {} && suffixes == {};
    }
  }

  /** The tables with other records, the written counter kept. */
  ghost function WithRecords(s: State, t: Records): State { s.(missing := t.(counter := s.missing.counter)) }

  ghost function WithCounter(s: State, counter: Id): State { s.(missing := s.missing.(counter := counter)) }

  ghost function CounterAfter(counter: Id, n: nat): Id {
    if n == 0 then counter else Successor(CounterAfter(counter, n - 1))
  }

  /** Below the bound, the successor of a counter is one more. */
  ghost predicate CountsUp(num: seq<byte> -> nat, bound: nat) {
    forall id: Id :: num(id) + 1 < bound ==> num(Successor(id)) == num(id) + 1
  }

  lemma CounterCountsUp(width: nat)
    requires width == 16
    ensures CountsUp(BigEndian, Pow256(width))
  {
    forall id: Id | BigEndian(id) + 1 < Pow256(width) ensures BigEndian(Successor(id)) == BigEndian(id) + 1 {
      SuccessorAddsOne(id);
    }
  }

  lemma {:induction false} CounterAddsIn(counter: Id, n: nat, num: seq<byte> -> nat, bound: nat)
    requires CountsUp(num, bound) && num(counter) + n < bound
    ensures num(CounterAfter(counter, n)) == num(counter) + n
  {
    if n > 0 {
      CounterAddsIn(counter, n - 1, num, bound);
    }
  }

  /** Before the counter wraps around, n ids on it is n higher. */
  lemma CounterAdds(counter: Id, n: nat)
    requires BigEndian(counter) + n < Pow256(|counter|)
    ensures BigEndian(CounterAfter(counter, n)) == BigEndian(counter) + n
  {
    CounterCountsUp(|counter|);
    CounterAddsIn(counter, n, BigEndian, Pow256(|counter|));
  }

  lemma {:induction false} AddedCounter(tc: TimeCodec, t: Records, es: seq<MissingEvent>)
    ensures Added(tc, t, es).counter == CounterAfter(t.counter, |es|)
  {
    if es != [] {
      AddedCounter(tc, t, es[..|es| - 1]);
    }
  }

  lemma AddedStep(tc: TimeCodec, t: Records, es: seq<MissingEvent>, i: nat)
    requires i < |es|
    ensures Added(tc, t, es[..i + 1]) == AddedOne(tc, t, Added(tc, t, es[..i]), es[i])
  {
    assert es[..i + 1][..i] == es[..i];
  }

  predicate AllLegal(ws: seq<Write>) { forall i :: 0 <= i < |ws| ==> Legal(ws[i]) }

  /** A batch is applied in order. */
  ghost function Effects(tc: TimeCodec, s: State, ws: seq<Write>): State
    requires AllLegal(ws)
  {
    if ws == [] then s else Effect(tc, Effects(tc, s, ws[..|ws| - 1]), ws[|ws| - 1])
  }

  function EventWrites(eventId: seq<byte>, id: Id, prev: Option<seq<byte>>, encoded: seq<byte>): (ws: seq<Write>)
    ensures AllLegal(ws)
  {
    [Put(MissingEventsIndex, eventId, id)] +
    (if prev.Some? then [Delete(MissingEvents, prev.value)] else []) +
    [Put(MissingEvents, id, encoded)]
  }

  lemma EffectsSnoc(tc: TimeCodec, s: State, ws: seq<Write>, w: Write)
    requires AllLegal(ws) && Legal(w)
    ensures AllLegal(ws + [w]) && Effects(tc, s, ws + [w]) == Effect(tc, Effects(tc, s, ws), w)
  {
    assert (ws + [w])[..|ws|] == ws;
  }

  lemma EffectsOfTwo(tc: TimeCodec, s: State, batch: seq<Write>, a: Write, b: Write)
    requires AllLegal(batch) && Legal(a) && Legal(b)
    ensures AllLegal(batch + [a] + [b])
    ensures Effects(tc, s, batch + [a] + [b]) == Effect(tc, Effect(tc, Effects(tc, s, batch), a), b)
  {
    EffectsSnoc(tc, s, batch, a);
    EffectsSnoc(tc, s, batch + [a], b);
  }

  /** The tables once an event's index entry and record are in place, and the record it had before is gone. */
  ghost function Placed(tc: TimeCodec, s: State, eventId: seq<byte>, id: Id, prev: Option<seq<byte>>, encoded: seq<byte>): State {
    var t := s.missing;
    var kept := if prev.Some? then t.events - {prev.value} else t.events;
    s.(missing := Records(t.counter, t.index[eventId := id], kept[id := Unmarshal(tc, encoded)]))
  }

  lemma PlacedInSteps(tc: TimeCodec, s: State, eventId: seq<byte>, id: Id, prev: Option<seq<byte>>, encoded: seq<byte>)
    ensures
      var indexed := Effect(tc, s, Put(MissingEventsIndex, eventId, id));
      var cleared := if prev.Some? then Effect(tc, indexed, Delete(MissingEvents, prev.value)) else indexed;
      Effect(tc, cleared, Put(MissingEvents, id, encoded)) == Placed(tc, s, eventId, id, prev, encoded)
  {
  }

  lemma EffectsOfEvent(tc: TimeCodec, s: State, batch: seq<Write>,
                       eventId: seq<byte>, id: Id, prev: Option<seq<byte>>, encoded: seq<byte>)
    requires AllLegal(batch)
    ensures AllLegal(batch + EventWrites(eventId, id, prev, encoded))
    ensures
      Effects(tc, s, batch + EventWrites(eventId, id, prev, encoded)) ==
      Placed(tc, Effects(tc, s, batch), eventId, id, prev, encoded)
  {
    var first, last := Put(MissingEventsIndex, eventId, id), Put(MissingEvents, id, encoded);
    PlacedInSteps(tc, Effects(tc, s, batch), eventId, id, prev, encoded);
    if prev.Some? {
      var mid := Delete(MissingEvents, prev.value);
      EffectsOfTwo(tc, s, batch, first, mid);
      EffectsSnoc(tc, s, batch + [first] + [mid], last);
      assert batch + EventWrites(eventId, id, prev, encoded) == batch + [first] + [mid] + [last];
    } else {
      EffectsOfTwo(tc, s, batch, first, last);
      assert batch + EventWrites(eventId, id, prev, encoded) == batch + [first] + [last];
    }
  }
}
