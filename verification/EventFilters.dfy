/**
  Event filters have two meanings: matched in memory against the live stream, and compiled to a Mongo query
  over the stored events. This module relates the two.
 */
module EventFilters {
  import opened Prelude
  import Hex

  datatype Property =
    | EventId | TxHash | Principal | EventType | Timestamp | ProviderName | ProviderGuid | Correlation | Channel
    | UnknownProperty(name: string)

  datatype Operator = Equal | After | Before | UnknownOperator(name: string)

  datatype Filter = Filter(property: Property, operator: Operator, value: string)

  type Guid = seq<byte>

  datatype Event = Event(
    eventId: seq<byte>, txHash: seq<byte>, principal: string, eventType: int, receivedTime: int,
    providerName: Option<string>, providerGuid: Option<Guid>, activityId: Option<Guid>, channel: string)

  /** Library parsers (times in milliseconds) and the lower-casing of strings. */
  datatype Text = Text(
    atoi: string -> Option<int>, uuid: string -> Option<Guid>, time: string -> Option<int>, lower: string -> string)

  datatype FilterError = InvalidFilter

  // ---------- The live stream ----------

  function Matches(x: Text, f: Filter, e: Event): Result<bool, FilterError> {
    match f.property
    case EventId => if !f.operator.Equal? then Err(InvalidFilter) else Ok(f.value == Hex.EncodeToString(e.eventId))
    case TxHash => if !f.operator.Equal? then Err(InvalidFilter) else Ok(f.value == Hex.EncodeToString(e.txHash))
    case Principal => if !f.operator.Equal? then Err(InvalidFilter) else Ok(f.value == e.principal)
    case EventType =>
      if !f.operator.Equal? || x.atoi(f.value).None? then Err(InvalidFilter) else Ok(x.atoi(f.value).value == e.eventType)
    case Timestamp =>
      if x.time(f.value).None? then Err(InvalidFilter)
      else if f.operator.After? then Ok(e.receivedTime > x.time(f.value).value)
      else if f.operator.Before? then Ok(e.receivedTime < x.time(f.value).value)
      else Err(InvalidFilter)
    case ProviderName =>
      if !f.operator.Equal? then Err(InvalidFilter)
      else Ok(e.providerName.Some? && x.lower(f.value) == x.lower(e.providerName.value))
    case ProviderGuid =>
      if !f.operator.Equal? || x.uuid(f.value).None? then Err(InvalidFilter) else Ok(e.providerGuid == x.uuid(f.value))
    case Correlation =>
      if !f.operator.Equal? || x.uuid(f.value).None? then Err(InvalidFilter) else Ok(e.activityId == x.uuid(f.value))
    case Channel =>
      if !f.operator.Equal? then Err(InvalidFilter) else Ok(x.lower(f.value) == x.lower(e.channel))
    case UnknownProperty(_) => Err(InvalidFilter)
  }

  /** Stops at the first filter that fails or does not match. */
  function LiveMatch(x: Text, fs: seq<Filter>, e: Event): Result<bool, FilterError> {
    if fs == [] then Ok(true)
    else if Matches(x, fs[0], e) != Ok(true) then Matches(x, fs[0], e)
    else LiveMatch(x, fs[1..], e)
  }

  method FiltersMatch(x: Text, event: Event, filters: seq<Filter>) returns (r: Result<bool, FilterError>)
    ensures r == LiveMatch(x, filters, event)
  {
    for i := 0 to |filters|
      invariant LiveMatch(x, filters, event) == LiveMatch(x, filters[i..], event)
    {
      var matches := Matches(x, filters[i], event);
      if matches.Err? {
        return matches;
      }
      if !matches.value {
        return Ok(false);
      }
    }
    return Ok(true);
  }

  /** The stream lets an event through exactly when every filter matches it. */
  lemma {:induction false} LiveMeansAll(x: Text, fs: seq<Filter>, e: Event)
    ensures LiveMatch(x, fs, e) == Ok(true) <==> forall i :: 0 <= i < |fs| ==> Matches(x, fs[i], e) == Ok(true)
  {
    if fs != [] {
      LiveMeansAll(x, fs[1..], e);
      assert forall i :: 0 < i < |fs| ==> fs[i] == fs[1..][i - 1];
    }
  }

  // ---------- The Mongo query ----------

  /** The document fields a query speaks of. */
  datatype Field =
    | MetadataEventId | TxHashField | MetadataPrincipal | SystemEventId | ReceivedTime | ProviderNameField
    | ProviderGuidField | ActivityId | ChannelField | ObjectId

  datatype Value = Hash(bytes: seq<byte>) | Number(n: int) | Str(s: string) | Uuid(guid: Guid)

  datatype Condition =
    | Is(value: Value)
    | Within(lt: Option<int>, gt: Option<int>)
    | AtMost(id: int)

  type Query = map<Field, Condition>

  /** Adds one filter to the query under construction; a later filter on the same field replaces an earlier. */
  function AddFilter(x: Text, q: Query, f: Filter): Result<Query, FilterError> {
    match f.property
    case EventId =>
      if !f.operator.Equal? || Hex.DecodeString(f.value).None? then Err(InvalidFilter)
      else Ok(q[MetadataEventId := Is(Hash(Hex.DecodeString(f.value).value))])
    case TxHash =>
      if !f.operator.Equal? || Hex.DecodeString(f.value).None? then Err(InvalidFilter)
      else Ok(q[TxHashField := Is(Hash(Hex.DecodeString(f.value).value))])
    case Principal => if !f.operator.Equal? then Err(InvalidFilter) else Ok(q[MetadataPrincipal := Is(Str(f.value))])
    case EventType =>
      if !f.operator.Equal? || x.atoi(f.value).None? then Err(InvalidFilter)
      else Ok(q[SystemEventId := Is(Number(x.atoi(f.value).value))])
    case Timestamp =>
      if x.time(f.value).None? then Err(InvalidFilter)
      else
        var range := if ReceivedTime in q && q[ReceivedTime].Within? then q[ReceivedTime] else Within(None, None);
        if f.operator.Before? then Ok(q[ReceivedTime := range.(lt := x.time(f.value))])
        else if f.operator.After? then Ok(q[ReceivedTime := range.(gt := x.time(f.value))])
        else Err(InvalidFilter)
    case ProviderName => if !f.operator.Equal? then Err(InvalidFilter) else Ok(q[ProviderNameField := Is(Str(f.value))])
    case ProviderGuid =>
      if !f.operator.Equal? || x.uuid(f.value).None? then Err(InvalidFilter)
      else Ok(q[ProviderGuidField := Is(Uuid(x.uuid(f.value).value))])
    case Correlation =>
      if !f.operator.Equal? || x.uuid(f.value).None? then Err(InvalidFilter)
      else Ok(q[ActivityId := Is(Uuid(x.uuid(f.value).value))])
    case Channel => if !f.operator.Equal? then Err(InvalidFilter) else Ok(q[ChannelField := Is(Str(f.value))])
    case UnknownProperty(_) => Ok(q)
  }

  function Initial(first: Option<int>): Query {
    if first.Some? then map[ObjectId := AtMost(first.value)] else map[]
  }

  function Built(x: Text, fs: seq<Filter>, first: Option<int>): Result<Query, FilterError> {
    if fs == [] then Ok(Initial(first))
    else
      var q := Built(x, fs[..|fs| - 1], first);
      if q.Err? then q else AddFilter(x, q.value, fs[|fs| - 1])
  }

  method BuildFilter(x: Text, filters: seq<Filter>, first: Option<int>) returns (r: Result<Query, FilterError>)
    ensures r == Built(x, filters, first)
  {
    var filter := Initial(first);
    for i := 0 to |filters|
      invariant Built(x, filters[..i], first) == Ok(filter)
    {
      assert filters[..i + 1][..i] == filters[..i];
      var added := AddFilter(x, filter, filters[i]);
      if added.Err? {
        BuiltFails(x, filters, first, i + 1);
        return added;
      }
      filter := added.value;
    }
    assert filters[..|filters|] == filters;
    return Ok(filter);
  }

  lemma {:induction false} BuiltFails(x: Text, fs: seq<Filter>, first: Option<int>, n: nat)
    requires n <= |fs| && Built(x, fs[..n], first).Err?
    ensures Built(x, fs, first) == Built(x, fs[..n], first)
    decreases |fs|
  {
    if n == |fs| {
      assert fs[..n] == fs;
    } else {
      assert fs[..|fs| - 1][..n] == fs[..n];
      BuiltFails(x, fs[..|fs| - 1], first, n);
    }
  }

  // ---------- What a query means ----------

  /** A field of the stored document; hashes and GUIDs are stored in one canonical spelling each. */
  function FieldOf(e: Event, k: Field): Option<Value> {
    match k
    case MetadataEventId => Some(Hash(e.eventId))
    case TxHashField => Some(Hash(e.txHash))
    case MetadataPrincipal => Some(Str(e.principal))
    case SystemEventId => Some(Number(e.eventType))
    case ReceivedTime => Some(Number(e.receivedTime))
    case ProviderNameField => if e.providerName.Some? then Some(Str(e.providerName.value)) else None
    case ProviderGuidField => if e.providerGuid.Some? then Some(Uuid(e.providerGuid.value)) else None
    case ActivityId => if e.activityId.Some? then Some(Uuid(e.activityId.value)) else None
    case ChannelField => Some(Str(e.channel))
    case ObjectId => None
  }

  /** Equality under the collation of the search: strings that differ in case alone are equal. */
  predicate Same(x: Text, a: Value, b: Value) {
    if a.Str? && b.Str? then x.lower(a.s) == x.lower(b.s) else a == b
  }

  predicate Holds(x: Text, c: Condition, v: Option<Value>) {
    match c
    case Is(value) => v.Some? && Same(x, value, v.value)
    case Within(lt, gt) =>
      v.Some? && v.value.Number? && (lt.Some? ==> v.value.n < lt.value) && (gt.Some? ==> v.value.n > gt.value)
    case AtMost(_) => v.Some?
  }

  ghost predicate Satisfies(x: Text, q: Query, e: Event) { forall k :: k in q ==> Holds(x, q[k], FieldOf(e, k)) }

  // ---------- The two meanings ----------

  /** A filter that compiles; unknown properties are ignored. */
  ghost predicate Compiles(x: Text, f: Filter) {
    match f.property
    case EventId => f.operator.Equal? && Hex.DecodeString(f.value).Some?
    case TxHash => f.operator.Equal? && Hex.DecodeString(f.value).Some?
    case Principal => f.operator.Equal?
    case EventType => f.operator.Equal? && x.atoi(f.value).Some?
    case Timestamp => (f.operator.After? || f.operator.Before?) && x.time(f.value).Some?
    case ProviderGuid => f.operator.Equal? && x.uuid(f.value).Some?
    case Correlation => f.operator.Equal? && x.uuid(f.value).Some?
    case ProviderName => f.operator.Equal?
    case Channel => f.operator.Equal?
    case UnknownProperty(_) => true
  }

  /** What a filter asks of an event in a search: as in the stream, but whatever the case of hashes and principals. */
  ghost predicate Found(x: Text, f: Filter, e: Event) {
    match f.property
    case EventId => Hex.DecodeString(f.value) == Some(e.eventId)
    case TxHash => Hex.DecodeString(f.value) == Some(e.txHash)
    case Principal => x.lower(f.value) == x.lower(e.principal)
    case UnknownProperty(_) => true
    case _ => Matches(x, f, e) == Ok(true)
  }

  /** What the stream asks on top of that: hashes in lower case, the very principal, and no unknown property. */
  ghost predicate Spelled(f: Filter, e: Event) {
    match f.property
    case EventId => Hex.AllLower(f.value)
    case TxHash => Hex.AllLower(f.value)
    case Principal => f.value == e.principal
    case UnknownProperty(_) => false
    case _ => true
  }

  lemma StreamAsksForSpelling(x: Text, f: Filter, e: Event)
    ensures Matches(x, f, e) == Ok(true) <==> Compiles(x, f) && Found(x, f, e) && Spelled(f, e)
  {
    if f.property.EventId? {
      Hex.TextIsBytes(f.value, e.eventId);
    } else if f.property.TxHash? {
      Hex.TextIsBytes(f.value, e.txHash);
    }
  }

  /** The place in the query that a filter fills: filters of the same place replace each other. */
  predicate SamePlace(f: Filter, g: Filter) { f.property == g.property && f.operator == g.operator }

  /** Only time filters make ranges. */
  ghost predicate Ranged(q: Query) {
    ObjectId !in q && forall k :: k in q ==> if k.ReceivedTime? then q[k].Within? else q[k].Is?
  }

  /** What the query says at the place of a filter. */
  ghost predicate SaysAt(x: Text, q: Query, f: Filter, e: Event) {
    match f.property
    case Timestamp =>
      ReceivedTime in q && q[ReceivedTime].Within? ==>
        (f.operator.Before? && q[ReceivedTime].lt.Some? ==> e.receivedTime < q[ReceivedTime].lt.value) &&
        (f.operator.After? && q[ReceivedTime].gt.Some? ==> e.receivedTime > q[ReceivedTime].gt.value)
    case _ => FieldFor(f.property) in q ==> Holds(x, q[FieldFor(f.property)], FieldOf(e, FieldFor(f.property)))
  }

  function FieldFor(p: Property): Field {
    match p
    case EventId => MetadataEventId
    case TxHash => TxHashField
    case Principal => MetadataPrincipal
    case EventType => SystemEventId
    case Timestamp => ReceivedTime
    case ProviderName => ProviderNameField
    case ProviderGuid => ProviderGuidField
    case Correlation => ActivityId
    case Channel => ChannelField
    case UnknownProperty(_) => ObjectId
  }

  /** Adding a filter makes its place say what the filter says, and leaves the other places. */
  lemma AddedSays(x: Text, q: Query, f: Filter, g: Filter, e: Event)
    requires Ranged(q) && Compiles(x, f) && Compiles(x, g)
    ensures AddFilter(x, q, f).Ok? && Ranged(AddFilter(x, q, f).value)
    ensures SaysAt(x, AddFilter(x, q, f).value, g, e) <==> if SamePlace(f, g) then Found(x, f, e) else SaysAt(x, q, g, e)
  {
    AddedIsRanged(x, q, f);
  }

  lemma AddedIsRanged(x: Text, q: Query, f: Filter)
    requires Ranged(q) && Compiles(x, f)
    ensures AddFilter(x, q, f).Ok? && Ranged(AddFilter(x, q, f).value)
  {
  }

  /** The last filter of a list at the place of g. */
  function LastAt(fs: seq<Filter>, g: Filter): Option<Filter> {
    if fs == [] then None
    else if SamePlace(fs[|fs| - 1], g) then Some(fs[|fs| - 1])
    else LastAt(fs[..|fs| - 1], g)
  }

  ghost predicate AllCompile(x: Text, fs: seq<Filter>) { forall i :: 0 <= i < |fs| ==> Compiles(x, fs[i]) }

  /** At each place, the query says what the last filter there says. */
  lemma {:induction false} LastFilterWins(x: Text, fs: seq<Filter>, g: Filter, e: Event)
    requires AllCompile(x, fs) && Compiles(x, g)
    ensures Built(x, fs, None).Ok? && Ranged(Built(x, fs, None).value)
    ensures SaysAt(x, Built(x, fs, None).value, g, e) <==>
            (LastAt(fs, g).Some? ==> Found(x, LastAt(fs, g).value, e))
  {
    if fs != [] {
      var n := |fs| - 1;
      LastFilterWins(x, fs[..n], g, e);
      AddedSays(x, Built(x, fs[..n], None).value, fs[n], g, e);
    }
  }

  ghost predicate Has(fs: seq<Filter>, p: Property, o: Operator) {
    exists i :: 0 <= i < |fs| && fs[i].property == p && fs[i].operator == o
  }

  /** Whatever the query asks was put there by a filter. */
  ghost predicate Asked(q: Query, fs: seq<Filter>) {
    (forall k :: k in q && !k.ReceivedTime? ==> AskedFor(fs, k)) &&
    (ReceivedTime in q && q[ReceivedTime].Within? ==>
       (q[ReceivedTime].lt.Some? ==> Has(fs, Timestamp, Before)) && (q[ReceivedTime].gt.Some? ==> Has(fs, Timestamp, After)))
  }

  ghost predicate AskedFor(fs: seq<Filter>, k: Field) {
    exists i :: 0 <= i < |fs| && FieldFor(fs[i].property) == k && !fs[i].property.Timestamp?
  }

  lemma AskedMore(fs: seq<Filter>, f: Filter)
    ensures forall k :: AskedFor(fs, k) ==> AskedFor(fs + [f], k)
    ensures forall p, o :: Has(fs, p, o) ==> Has(fs + [f], p, o)
    ensures Has(fs + [f], f.property, f.operator)
    ensures !f.property.Timestamp? ==> AskedFor(fs + [f], FieldFor(f.property))
  {
    var more := fs + [f];
    forall k | AskedFor(fs, k) ensures AskedFor(more, k) {
      var i :| 0 <= i < |fs| && FieldFor(fs[i].property) == k && !fs[i].property.Timestamp?;
      assert more[i] == fs[i];
    }
    forall p, o | Has(fs, p, o) ensures Has(more, p, o) {
      var i :| 0 <= i < |fs| && fs[i].property == p && fs[i].operator == o;
      assert more[i] == fs[i];
    }
    assert more[|fs|] == f;
  }

  lemma {:induction false} QueryIsAsked(x: Text, fs: seq<Filter>, e: Event)
    requires AllCompile(x, fs)
    ensures Built(x, fs, None).Ok? && Ranged(Built(x, fs, None).value) && Asked(Built(x, fs, None).value, fs)
  {
    if fs != [] {
      var n := |fs| - 1;
      QueryIsAsked(x, fs[..n], e);
      AddedSays(x, Built(x, fs[..n], None).value, fs[n], fs[n], e);
      AskedMore(fs[..n], fs[n]);
      assert fs[..n] + [fs[n]] == fs;
    }
  }

  /** A query holds of an event exactly when it holds at the place of every filter it was built from. */
  lemma SatisfiesByPlaces(x: Text, fs: seq<Filter>, q: Query, e: Event)
    requires AllCompile(x, fs) && Ranged(q) && Asked(q, fs)
    ensures Satisfies(x, q, e) <==> forall i :: 0 <= i < |fs| ==> SaysAt(x, q, fs[i], e)
  {
    if forall i :: 0 <= i < |fs| ==> SaysAt(x, q, fs[i], e) {
      forall k | k in q ensures Holds(x, q[k], FieldOf(e, k)) {
        if k.ReceivedTime? {
          if q[k].lt.Some? {
            var i :| 0 <= i < |fs| && fs[i].property == Timestamp && fs[i].operator == Before;
            assert SaysAt(x, q, fs[i], e);
          }
          if q[k].gt.Some? {
            var i :| 0 <= i < |fs| && fs[i].property == Timestamp && fs[i].operator == After;
            assert SaysAt(x, q, fs[i], e);
          }
        } else {
          assert AskedFor(fs, k);
          var i :| 0 <= i < |fs| && FieldFor(fs[i].property) == k && !fs[i].property.Timestamp?;
          assert SaysAt(x, q, fs[i], e);
        }
      }
    }
  }

  /** A query builds exactly when every filter compiles. */
  lemma {:induction false} BuildsExactly(x: Text, fs: seq<Filter>)
    ensures Built(x, fs, None).Ok? <==> AllCompile(x, fs)
  {
    if fs != [] {
      var n := |fs| - 1;
      BuildsExactly(x, fs[..n]);
      assert fs == fs[..n] + [fs[n]];
    }
  }

  /** An event satisfies a query exactly when the last filter at each place finds it. */
  lemma QueryMeansLastFilters(x: Text, fs: seq<Filter>, e: Event)
    requires Built(x, fs, None).Ok?
    ensures Satisfies(x, Built(x, fs, None).value, e) <==>
            forall i :: 0 <= i < |fs| ==> LastAt(fs, fs[i]).Some? && Found(x, LastAt(fs, fs[i]).value, e)
  {
    BuildsExactly(x, fs);
    QueryIsAsked(x, fs, e);
    SatisfiesByPlaces(x, fs, Built(x, fs, None).value, e);
    forall i | 0 <= i < |fs|
      ensures LastAt(fs, fs[i]).Some?
      ensures SaysAt(x, Built(x, fs, None).value, fs[i], e) <==> Found(x, LastAt(fs, fs[i]).value, e)
    {
      LastFilterWins(x, fs, fs[i], e);
      LastExists(fs, i);
    }
  }

  lemma {:induction false} LastExists(fs: seq<Filter>, i: nat)
    requires i < |fs|
    ensures LastAt(fs, fs[i]).Some?
    ensures (forall j :: i < j < |fs| ==> !SamePlace(fs[j], fs[i])) ==> LastAt(fs, fs[i]) == Some(fs[i])
  {
    if !SamePlace(fs[|fs| - 1], fs[i]) {
      LastExists(fs[..|fs| - 1], i);
    }
  }

  ghost predicate DistinctPlaces(fs: seq<Filter>) {
    forall i, j :: 0 <= i < j < |fs| ==> !SamePlace(fs[j], fs[i])
  }

  ghost predicate AllSpelled(fs: seq<Filter>, e: Event) { forall i :: 0 <= i < |fs| ==> Spelled(fs[i], e) }

  /** The search finds the event. */
  ghost predicate Finds(x: Text, fs: seq<Filter>, e: Event) {
    Built(x, fs, None).Ok? && Satisfies(x, Built(x, fs, None).value, e)
  }

  /**
    For any filters at distinct places, an event passes the live stream exactly when the search finds it and
    every filter is spelled as the stream asks.
   */
  lemma StreamAgreesWithSearch(x: Text, fs: seq<Filter>, e: Event)
    requires DistinctPlaces(fs)
    ensures LiveMatch(x, fs, e) == Ok(true) <==> Finds(x, fs, e) && AllSpelled(fs, e)
  {
    LiveMeansAll(x, fs, e);
    BuildsExactly(x, fs);
    forall i | 0 <= i < |fs|
      ensures LastAt(fs, fs[i]) == Some(fs[i])
      ensures Matches(x, fs[i], e) == Ok(true) <==> Compiles(x, fs[i]) && Found(x, fs[i], e) && Spelled(fs[i], e)
    {
      LastExists(fs, i);
      StreamAsksForSpelling(x, fs[i], e);
    }
    if Built(x, fs, None).Ok? {
      QueryMeansLastFilters(x, fs, e);
    }
  }

  /** Whatever the filters, what the stream passes the search finds. */
  lemma SearchFindsWhatStreams(x: Text, fs: seq<Filter>, e: Event)
    requires LiveMatch(x, fs, e) == Ok(true)
    ensures Finds(x, fs, e)
  {
    LiveMeansAll(x, fs, e);
    forall i | 0 <= i < |fs| ensures Compiles(x, fs[i]) && Found(x, fs[i], e) {
      StreamAsksForSpelling(x, fs[i], e);
    }
    BuildsExactly(x, fs);
    QueryMeansLastFilters(x, fs, e);
    forall i | 0 <= i < |fs| ensures LastAt(fs, fs[i]).Some? && LastAt(fs, fs[i]).value in fs {
      LastIsMember(fs, fs[i]);
      LastExists(fs, i);
    }
  }

  /** A filter that has only one spelling for what it finds. */
  ghost predicate SpelledUniquely(x: Text, f: Filter) {
    match f.property
    case EventId => Hex.AllLower(f.value)
    case TxHash => Hex.AllLower(f.value)
    case Principal => forall p :: x.lower(p) == x.lower(f.value) ==> p == f.value
    case UnknownProperty(_) => false
    case _ => true
  }

  /** An event that a filter on a hash, a principal or an unknown property finds. */
  ghost function SomeEvent(f: Filter, principal: string): Event {
    var hash := if Hex.DecodeString(f.value).Some? then Hex.DecodeString(f.value).value else [];
    Event(hash, hash, principal, 0, 0, None, None, None, "")
  }

  /**
    One filter that compiles: stream and search agree on every event exactly when the filter is on a hash in
    lower case, on a principal that has no other spelling, or on any other known property.
   */
  lemma FilterAgreesExactly(x: Text, f: Filter)
    requires Compiles(x, f)
    ensures SpelledUniquely(x, f) <==> forall e :: LiveMatch(x, [f], e) == Ok(true) <==> Finds(x, [f], e)
  {
    forall e ensures LiveMatch(x, [f], e) == Ok(true) <==> Finds(x, [f], e) && Spelled(f, e) {
      StreamAgreesWithSearch(x, [f], e);
    }
    forall e ensures Finds(x, [f], e) <==> Found(x, f, e) {
      OneFilterFinds(x, f, e);
    }
    if !SpelledUniquely(x, f) {
      var p := if f.property.Principal? then AnotherSpelling(x, f) else f.value;
      assert Found(x, f, SomeEvent(f, p)) && !Spelled(f, SomeEvent(f, p));
    }
  }

  ghost function AnotherSpelling(x: Text, f: Filter): (p: string)
    requires f.property.Principal? && !SpelledUniquely(x, f)
    ensures x.lower(p) == x.lower(f.value) && p != f.value
  {
    var p :| x.lower(p) == x.lower(f.value) && p != f.value;
    p
  }

  lemma OneFilterFinds(x: Text, f: Filter, e: Event)
    requires Compiles(x, f)
    ensures Finds(x, [f], e) <==> Found(x, f, e)
  {
    BuildsExactly(x, [f]);
    QueryMeansLastFilters(x, [f], e);
    LastExists([f], 0);
  }

  lemma {:induction false} LastIsMember(fs: seq<Filter>, g: Filter)
    ensures LastAt(fs, g).Some? ==> LastAt(fs, g).value in fs
  {
    if fs != [] && !SamePlace(fs[|fs| - 1], g) {
      LastIsMember(fs[..|fs| - 1], g);
    }
  }

  /** Two filters on the channel, the second one right: the search finds the event and the stream withholds it. */
  lemma SearchFindsMore(x: Text, e: Event, other: string)
    requires x.lower(other) != x.lower(e.channel)
    ensures
      var fs := [Filter(Channel, Equal, other), Filter(Channel, Equal, e.channel)];
      LiveMatch(x, fs, e) == Ok(false) && Finds(x, fs, e)
  {
    var fs := [Filter(Channel, Equal, other), Filter(Channel, Equal, e.channel)];
    BuildsExactly(x, fs);
    QueryMeansLastFilters(x, fs, e);
    assert LastAt(fs, fs[0]) == LastAt(fs, fs[1]) == Some(fs[1]);
    assert Found(x, fs[1], e);
  }
}
