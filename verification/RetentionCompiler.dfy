/**
  The compiler from retention policies to aggregation pipelines, and the proof that running the pipeline
  over any collection selects exactly the events the plain rule drops.
 */
module RetentionCompiler {
  import opened Prelude
  import opened RetentionRule
  import opened MongoPipeline

  // ---------- Stored events as documents ----------

  function EventDoc(e: Event): Document {
    EMPTY.(
      keyEventId := Hash(e.id),
      keyTimestamp := Date(e.time),
      keyPrincipal := Str(e.principal),
      keyChannel := Str(e.channel),
      keyEventTypeId := Num(e.typeId),
      keyProvider := if e.provider.None? then Null else Str(e.provider.value))
  }

  function Docs(es: seq<Event>): (ds: seq<Document>)
    ensures |ds| == |es|
  {
    if es == [] then [] else [EventDoc(es[0])] + Docs(es[1..])
  }

  ghost function EventSet(es: seq<Event>): set<Event> { set e | e in es }

  /** No two positions hold the same event hash: the collection's unique index. */
  ghost predicate UniqueIds(es: seq<Event>) {
    forall i, j :: 0 <= i < |es| && 0 <= j < |es| && es[i].id == es[j].id ==> i == j
  }

  // ---------- What the compiler emits ----------

  const EXTRACT_IDS := GroupPush(Const(Null), FieldOf(KeyEventId))

  const PROJECT_EVENTS_ONLY := Project(false, [Bind(Events, FieldOf(Events))])

  function LowerChar(c: char): char {
    if 'A' <= c <= 'Z' then c - 'A' + 'a' else c
  }

  function ToLower(s: string): string {
    seq(|s|, i requires 0 <= i < |s| => LowerChar(s[i]))
  }

  /** What the compiler compares providers with. */
  function StoredGuid(guid: string): string { "{" + ToLower(guid) + "}" }

  /** That is the one text that names the provider. */
  lemma StoredGuidNames(stored: string, guid: string)
    ensures stored == StoredGuid(guid) <==> NamesProvider(stored, guid)
  {
    var text := StoredGuid(guid);
    assert forall i :: 0 <= i < |guid| ==> text[i + 1] == LowerChar(guid[i]);
    if NamesProvider(stored, guid) {
      forall k | 0 <= k < |stored| ensures stored[k] == text[k] {
        if 0 < k <= |guid| {
          assert SameButLower(stored[k - 1 + 1], guid[k - 1]);
        }
      }
    }
  }

  function NeParts(m: Match): seq<Query> {
    (if m.channel.Some? then [Ne(KeyChannel, Str(m.channel.value))] else []) +
    (if m.eventId.Some? then [Ne(KeyEventTypeId, Num(m.eventId.value))] else []) +
    (if m.providerGuid.Some? then [Ne(KeyProvider, Str(StoredGuid(m.providerGuid.value)))] else [])
  }

  function EqParts(m: Match): seq<Query> {
    (if m.channel.Some? then [Eq(KeyChannel, Str(m.channel.value))] else []) +
    (if m.eventId.Some? then [Eq(KeyEventTypeId, Num(m.eventId.value))] else []) +
    (if m.providerGuid.Some? then [Eq(KeyProvider, Str(StoredGuid(m.providerGuid.value)))] else [])
  }

  /** The clause one timestamp filter contributes: the event does not match, or it matches and is too old. */
  function FilterClause(f: Filter, now: int): Query {
    AnyOf(NeParts(f.matching) +
          [AllOf([Lt(KeyTimestamp, Date(now - f.action.retentionPeriod))] + EqParts(f.matching))])
  }

  const PAIR_OF_PUSH := Object([Bind(EventId, FieldOf(KeyEventId)), Bind(Principal, FieldOf(KeyPrincipal))])

  const STRIP_PRINCIPAL := Object([Bind(EventId, VarFieldOf(EventId))])

  function PastBuffer(volume: nat): Expr {
    SliceOf(MapOver(FieldOf(Events), STRIP_PRINCIPAL), volume, SizeOf(FieldOf(Events)))
  }

  function DropNewest(slice: Expr): Stage {
    Project(true, [Bind(Principal, FieldOf(GroupId)), Bind(Events, slice)])
  }

  const FLATTEN_STAGES :=
    [Unwind(Events), ReplaceRoot(Events)] + [GroupPush(Const(Null), FieldOf(EventId)), PROJECT_EVENTS_ONLY]

  function PerPrincipalStages(volume: nat): seq<Stage> {
    [GroupPush(FieldOf(KeyPrincipal), PAIR_OF_PUSH), DropNewest(PastBuffer(volume))] + FLATTEN_STAGES
  }

  /** The rows the driver reads back: none at all, or one row holding the hashes to delete. */
  ghost predicate Reports(out: seq<Document>, ids: set<nat>) {
    if ids == {} then out == []
    else
      |out| == 1 && out[0].events.Arr? &&
      (forall b :: b in out[0].events.items ==> b.Hash?) &&
      (forall id :: Hash(id) in out[0].events.items <==> id in ids)
  }

  ghost function ExpiredIds(p: Policy, now: int, c: set<Event>): set<nat> {
    set e | e in c && Expired(p, now, c, e) :: e.id
  }

  /** On every collection the pipeline runs without error and reports exactly the expired events. */
  ghost predicate Implements(stages: seq<Stage>, p: Policy, now: int) {
    forall es: seq<Event> :: UniqueIds(es) ==>
      Run(stages, Docs(es)).Some? &&
      Reports(Run(stages, Docs(es)).value, ExpiredIds(p, now, EventSet(es)))
  }

  // ---------- Matching ----------

  lemma ClauseMeaning(f: Filter, now: int, e: Event)
    requires IsTimestamp(f)
    ensures Holds(FilterClause(f, now), EventDoc(e)) <==> !Retains(f, e, now)
  {
    var d, ne := EventDoc(e), NeParts(f.matching);
    var lt := Lt(KeyTimestamp, Date(now - f.action.retentionPeriod));
    var tooOld := AllOf([lt] + EqParts(f.matching));
    NePartsMeaning(f.matching, e);
    EqPartsMeaning(f.matching, e);
    assert ([lt] + EqParts(f.matching))[0] == lt;
    assert forall i :: 0 <= i < |EqParts(f.matching)| ==> ([lt] + EqParts(f.matching))[i + 1] == EqParts(f.matching)[i];
    assert Holds(tooOld, d) <==> e.time < now - f.action.retentionPeriod && MatchesEvent(f.matching, e);
    assert (ne + [tooOld])[|ne|] == tooOld;
    assert forall i :: 0 <= i < |ne| ==> (ne + [tooOld])[i] == ne[i];
  }

  lemma NePartsMeaning(m: Match, e: Event)
    ensures (exists i :: 0 <= i < |NeParts(m)| && Holds(NeParts(m)[i], EventDoc(e))) <==> !MatchesEvent(m, e)
  {
    var ne := NeParts(m);
    if m.channel.Some? { assert ne[0] == Ne(KeyChannel, Str(m.channel.value)); }
    if m.eventId.Some? {
      assert ne[if m.channel.Some? then 1 else 0] == Ne(KeyEventTypeId, Num(m.eventId.value));
    }
    if m.providerGuid.Some? {
      assert ne[|ne| - 1] == Ne(KeyProvider, Str(StoredGuid(m.providerGuid.value)));
      if e.provider.Some? {
        StoredGuidNames(e.provider.value, m.providerGuid.value);
      }
    }
  }

  lemma EqPartsMeaning(m: Match, e: Event)
    ensures (forall i :: 0 <= i < |EqParts(m)| ==> Holds(EqParts(m)[i], EventDoc(e))) <==> MatchesEvent(m, e)
  {
    var eq := EqParts(m);
    if m.channel.Some? { assert eq[0] == Eq(KeyChannel, Str(m.channel.value)); }
    if m.eventId.Some? {
      assert eq[if m.channel.Some? then 1 else 0] == Eq(KeyEventTypeId, Num(m.eventId.value));
    }
    if m.providerGuid.Some? {
      assert eq[|eq| - 1] == Eq(KeyProvider, Str(StoredGuid(m.providerGuid.value)));
      if e.provider.Some? {
        StoredGuidNames(e.provider.value, m.providerGuid.value);
      }
    }
  }

  /** The events no timestamp filter keeps, in collection order. */
  function Unretained(p: Policy, now: int, es: seq<Event>): seq<Event> {
    if es == [] then []
    else (if Retained(p, es[0], now) then [] else [es[0]]) + Unretained(p, now, es[1..])
  }

  lemma {:induction false} SelectsUnretained(q: Query, p: Policy, now: int, es: seq<Event>)
    requires forall e :: Holds(q, EventDoc(e)) <==> !Retained(p, e, now)
    ensures SelectDocs(q, Docs(es)) == Docs(Unretained(p, now, es))
  {
    if es != [] {
      assert Docs(es)[1..] == Docs(es[1..]);
      SelectsUnretained(q, p, now, es[1..]);
      var rest := Unretained(p, now, es[1..]);
      assert Holds(q, Docs(es)[0]) <==> !Retained(p, es[0], now);
      if Retained(p, es[0], now) {
        assert [] + rest == rest;
        assert [] + Docs(rest) == Docs(rest);
      } else {
        assert ([es[0]] + rest)[1..] == rest;
      }
    }
  }

  lemma {:induction false} UnretainedElements(p: Policy, now: int, es: seq<Event>)
    requires UniqueIds(es)
    ensures UniqueIds(Unretained(p, now, es))
    ensures forall e :: e in Unretained(p, now, es) <==> e in es && !Retained(p, e, now)
  {
    if es != [] {
      assert UniqueIds(es[1..]);
      UnretainedElements(p, now, es[1..]);
      assert es == [es[0]] + es[1..];
      forall k | 0 <= k < |Unretained(p, now, es[1..])|
        ensures Unretained(p, now, es[1..])[k].id != es[0].id
      {
        assert Unretained(p, now, es[1..])[k] in es[1..];
      }
    }
  }

  // ---------- Sorting ----------

  function Insert(e: Event, s: seq<Event>): seq<Event> {
    if s == [] || Newer(e, s[0]) then [e] + s else [s[0]] + Insert(e, s[1..])
  }

  function Sorted(es: seq<Event>): seq<Event> {
    if es == [] then [] else Insert(es[0], Sorted(es[1..]))
  }

  lemma {:induction false} InsertDocs(e: Event, s: seq<Event>)
    ensures InsertDoc(KeyTimestamp, EventDoc(e), Docs(s)) == Docs(Insert(e, s))
  {
    if s == [] {
    } else {
      assert Docs(s)[1..] == Docs(s[1..]);
      InsertDocs(e, s[1..]);
      if Newer(e, s[0]) {
        assert ([e] + s)[1..] == s;
      } else {
        assert ([s[0]] + Insert(e, s[1..]))[1..] == Insert(e, s[1..]);
      }
    }
  }

  lemma {:induction false} SortedDocs(es: seq<Event>)
    ensures SortDocs(KeyTimestamp, Docs(es)) == Docs(Sorted(es))
  {
    if es != [] {
      assert Docs(es)[1..] == Docs(es[1..]);
      SortedDocs(es[1..]);
      InsertDocs(es[0], Sorted(es[1..]));
    }
  }

  ghost predicate NewestFirst(s: seq<Event>) {
    forall i, j :: 0 <= i < j < |s| ==> Newer(s[i], s[j])
  }

  lemma {:induction false} InsertKeepsOrder(e: Event, s: seq<Event>)
    requires NewestFirst(s)
    requires forall x :: x in s ==> x.id != e.id
    ensures NewestFirst(Insert(e, s))
    ensures forall x :: x in Insert(e, s) <==> x == e || x in s
  {
    if s == [] || Newer(e, s[0]) {
    } else {
      assert s == [s[0]] + s[1..];
      InsertKeepsOrder(e, s[1..]);
      var r := Insert(e, s[1..]);
      forall k | 0 <= k < |r| ensures Newer(s[0], r[k]) {
        assert r[k] in r;
      }
    }
  }

  lemma {:induction false} SortedIsNewestFirst(es: seq<Event>)
    requires UniqueIds(es)
    ensures NewestFirst(Sorted(es))
    ensures forall x :: x in Sorted(es) <==> x in es
  {
    if es != [] {
      assert UniqueIds(es[1..]);
      assert es == [es[0]] + es[1..];
      SortedIsNewestFirst(es[1..]);
      forall x | x in Sorted(es[1..]) ensures x.id != es[0].id {
        var k :| 0 <= k < |es[1..]| && es[1..][k] == x;
        assert es[k + 1] == x;
      }
      InsertKeepsOrder(es[0], Sorted(es[1..]));
    }
  }

  /** In a newest-first sequence, an event's position counts the events newer than it. */
  lemma {:induction false} PositionIsRank(s: seq<Event>, i: nat)
    requires NewestFirst(s) && i < |s|
    ensures |set x | x in s && Newer(x, s[i])| == i
  {
    assert (set x | x in s && Newer(x, s[i])) == EventSet(s[..i]);
    PrefixSize(s, i);
  }

  lemma {:induction false} PrefixSize(s: seq<Event>, i: nat)
    requires NewestFirst(s) && i <= |s|
    ensures |EventSet(s[..i])| == i
  {
    if i > 0 {
      PrefixSize(s, i - 1);
      assert s[..i] == s[..i - 1] + [s[i - 1]];
      assert EventSet(s[..i]) == EventSet(s[..i - 1]) + {s[i - 1]};
    }
  }

  // ---------- Reporting a sequence of events ----------

  function Hashes(es: seq<Event>): (hs: seq<Bson>)
    ensures |hs| == |es| && forall i :: 0 <= i < |es| ==> hs[i] == Hash(es[i].id)
  {
    seq(|es|, i requires 0 <= i < |es| => Hash(es[i].id))
  }

  function Report(es: seq<Event>): seq<Document> {
    if es == [] then [] else [EMPTY.(events := Arr(Hashes(es)))]
  }

  lemma PushedHit(key: Expr, push: Expr, d: Document, rest: seq<Document>)
    ensures Pushed(key, push, ValueOf(key, d), [d] + rest) == [ValueOf(push, d)] + Pushed(key, push, ValueOf(key, d), rest)
  {
    assert ([d] + rest)[1..] == rest;
  }

  lemma PushedMiss(key: Expr, push: Expr, k: Bson, d: Document, rest: seq<Document>)
    requires ValueOf(key, d) != k
    ensures Pushed(key, push, k, [d] + rest) == Pushed(key, push, k, rest)
  {
    assert ([d] + rest)[1..] == rest;
  }

  lemma GroupKeysStep(key: Expr, d: Document, rest: seq<Document>)
    ensures
      var ks := GroupKeys(key, rest);
      GroupKeys(key, [d] + rest) == if ValueOf(key, d) in ks then ks else [ValueOf(key, d)] + ks
  {
    assert ([d] + rest)[1..] == rest;
  }

  /** Grouping everything under one key gathers the pushed values in order. */
  lemma {:induction false} PushedAll(key: Expr, push: Expr, k: Bson, docs: seq<Document>, items: seq<Bson>)
    requires |docs| == |items|
    requires forall i :: 0 <= i < |docs| ==> ValueOf(push, docs[i]) == items[i] && ValueOf(key, docs[i]) == k
    ensures Pushed(key, push, k, docs) == items
    ensures GroupKeys(key, docs) == if docs == [] then [] else [k]
  {
    if docs != [] {
      PushedAll(key, push, k, docs[1..], items[1..]);
      assert items == [items[0]] + items[1..];
      assert docs == [docs[0]] + docs[1..];
      PushedHit(key, push, docs[0], docs[1..]);
      GroupKeysStep(key, docs[0], docs[1..]);
    }
  }

  lemma RunTwo(s: Stage, t: Stage, docs: seq<Document>)
    ensures Run([s, t], docs) == match RunStage(s, docs) case Some(out) => RunStage(t, out) case None => None
  {
    assert [s, t][1..] == [t] && [t][1..] == [];
    match RunStage(s, docs)
    case Some(out) =>
      match RunStage(t, out) { case Some(o) => assert Run([], o) == Some(o); case None => }
    case None =>
  }

  lemma GroupDocsStep(key: Expr, push: Expr, k: Bson, ks: seq<Bson>, docs: seq<Document>)
    ensures GroupDocs(key, push, [k] + ks, docs) ==
            [EMPTY.(groupId := k, events := Arr(Pushed(key, push, k, docs)))] + GroupDocs(key, push, ks, docs)
  {
    assert ([k] + ks)[1..] == ks;
  }

  lemma OneGroup(key: Expr, push: Expr, k: Bson, docs: seq<Document>, g: Document)
    requires GroupKeys(key, docs) == [k]
    requires g == EMPTY.(groupId := k, events := Arr(Pushed(key, push, k, docs)))
    ensures RunStage(GroupPush(key, push), docs) == Some([g])
  {
    assert [k] + [] == [k];
    GroupDocsStep(key, push, k, [], docs);
    assert GroupDocs(key, push, [k], docs) == [g];
  }

  lemma BindOne(name: Field, e: Expr, d: Document, v: Document, b: Bson)
    requires Eval(e, d, v) == Some(b)
    ensures EvalBindings([Bind(name, e)], d, v) == Some(Put(EMPTY, name, b))
  {
    var bs := [Bind(name, e)];
    assert bs[1..] == [];
    assert EvalBindings(bs[1..], d, v) == Some(EMPTY);
  }

  lemma BindTwo(n1: Field, e1: Expr, n2: Field, e2: Expr, d: Document, v: Document, b1: Bson, b2: Bson)
    requires Eval(e1, d, v) == Some(b1) && Eval(e2, d, v) == Some(b2)
    ensures EvalBindings([Bind(n1, e1), Bind(n2, e2)], d, v) == Some(Put(Put(EMPTY, n2, b2), n1, b1))
  {
    var bs := [Bind(n1, e1), Bind(n2, e2)];
    assert bs[1..] == [Bind(n2, e2)];
    BindOne(n2, e2, d, v, b2);
  }

  lemma ProjectStep(keepId: bool, bs: seq<Binding>, g: Document, rest: seq<Document>, m: Document)
    requires EvalBindings(bs, g, EMPTY) == Some(m)
    requires ProjectDocs(keepId, bs, rest).Some?
    ensures ProjectDocs(keepId, bs, [g] + rest) ==
            Some([if keepId then m.(groupId := g.groupId) else m] + ProjectDocs(keepId, bs, rest).value)
  {
    assert ([g] + rest)[1..] == rest;
  }

  lemma ProjectOne(g: Document, m: Document)
    requires m == EMPTY.(events := g.events)
    ensures RunStage(PROJECT_EVENTS_ONLY, [g]) == Some([m])
  {
    var bs := [Bind(Events, FieldOf(Events))];
    BindOne(Events, FieldOf(Events), g, EMPTY, g.events);
    ProjectStep(false, bs, g, [], m);
    assert [g] + [] == [g] && [m] + [] == [m];
  }

  /** The two closing stages turn documents into the row the driver reads. */
  lemma CloseReport(push: Expr, docs: seq<Document>, items: seq<Bson>)
    requires |docs| == |items|
    requires forall i :: 0 <= i < |docs| ==> ValueOf(push, docs[i]) == items[i]
    ensures Run([GroupPush(Const(Null), push), PROJECT_EVENTS_ONLY], docs) ==
            Some(if items == [] then [] else [EMPTY.(events := Arr(items))])
  {
    PushedAll(Const(Null), push, Null, docs, items);
    RunTwo(GroupPush(Const(Null), push), PROJECT_EVENTS_ONLY, docs);
    if docs != [] {
      var g := EMPTY.(groupId := Null, events := Arr(items));
      OneGroup(Const(Null), push, Null, docs, g);
      ProjectOne(g, EMPTY.(events := Arr(items)));
    }
  }

  lemma {:induction false} DocsAt(es: seq<Event>, i: nat)
    requires i < |es|
    ensures Docs(es)[i] == EventDoc(es[i])
  {
    if i > 0 { DocsAt(es[1..], i - 1); }
  }

  lemma ExtractReports(es: seq<Event>)
    ensures Run([EXTRACT_IDS, PROJECT_EVENTS_ONLY], Docs(es)) == Some(Report(es))
  {
    forall i | 0 <= i < |es|
      ensures ValueOf(FieldOf(KeyEventId), Docs(es)[i]) == Hashes(es)[i]
    {
      DocsAt(es, i);
    }
    CloseReport(FieldOf(KeyEventId), Docs(es), Hashes(es));
  }

  lemma ReportMeaning(es: seq<Event>, ids: set<nat>)
    requires forall id :: id in ids <==> exists e :: e in es && e.id == id
    ensures Reports(Report(es), ids)
  {
    if es == [] {
    } else {
      assert es[0] in es;
      assert es[0].id in ids;
      forall id ensures Hash(id) in Hashes(es) <==> id in ids {
        if Hash(id) in Hashes(es) {
          var i :| 0 <= i < |es| && Hashes(es)[i] == Hash(id);
          assert es[i] in es;
        }
        if id in ids {
          var e :| e in es && e.id == id;
          var i :| 0 <= i < |es| && es[i] == e;
          assert Hashes(es)[i] == Hash(id);
        }
      }
    }
  }

  // ---------- Ranks ----------

  function Beyond(s: seq<Event>, volume: nat): seq<Event> {
    if volume >= |s| then [] else s[volume..]
  }

  /** With the buffer's competitors newest first, the expired ones are those past its volume. */
  lemma ExpiredIffBeyond(p: Policy, now: int, c: set<Event>, t: seq<Event>, e: Event)
    requires NewestFirst(t) && e in t
    requires forall x :: x in t <==> x in c && !Retained(p, x, now) && SameGroup(p, x, e)
    ensures Expired(p, now, c, e) <==> e in Beyond(t, Volume(p))
  {
    var i :| 0 <= i < |t| && t[i] == e;
    PositionIsRank(t, i);
    assert Ahead(p, now, c, e) == set x | x in t && Newer(x, t[i]);
    if i >= Volume(p) {
      assert t[Volume(p)..][i - Volume(p)] == e;
    }
  }

  // ---------- Grouping by principal ----------

  function OfPrincipal(s: seq<Event>, who: string): seq<Event> {
    if s == [] then []
    else (if s[0].principal == who then [s[0]] else []) + OfPrincipal(s[1..], who)
  }

  lemma {:induction false} OfPrincipalElements(s: seq<Event>, who: string)
    requires NewestFirst(s)
    ensures NewestFirst(OfPrincipal(s, who))
    ensures forall x :: x in OfPrincipal(s, who) <==> x in s && x.principal == who
  {
    if s != [] {
      OfPrincipalElements(s[1..], who);
      assert s == [s[0]] + s[1..];
      var rest := OfPrincipal(s[1..], who);
      forall k | 0 <= k < |rest| ensures Newer(s[0], rest[k]) {
        assert rest[k] in s[1..];
      }
    }
  }

  function PairDoc(e: Event): Bson { Doc(EMPTY.(eventId := Hash(e.id), principal := Str(e.principal))) }

  function PairDocs(t: seq<Event>): (r: seq<Bson>)
    ensures |r| == |t| && forall i :: 0 <= i < |t| ==> r[i] == PairDoc(t[i])
  {
    seq(|t|, i requires 0 <= i < |t| => PairDoc(t[i]))
  }

  function IdDoc(e: Event): Bson { Doc(EMPTY.(eventId := Hash(e.id))) }

  function IdDocs(t: seq<Event>): (r: seq<Bson>)
    ensures |r| == |t| && forall i :: 0 <= i < |t| ==> r[i] == IdDoc(t[i])
  {
    seq(|t|, i requires 0 <= i < |t| => IdDoc(t[i]))
  }

  /** The stage's key and pushed value, as far as the proof needs them. */
  ghost predicate PushesPairs(key: Expr, push: Expr) {
    forall e :: ValueOf(push, EventDoc(e)) == PairDoc(e) && ValueOf(key, EventDoc(e)) == Str(e.principal)
  }

  lemma PairOfPushPushesPairs()
    ensures PushesPairs(FieldOf(KeyPrincipal), PAIR_OF_PUSH)
  {
    forall e ensures ValueOf(PAIR_OF_PUSH, EventDoc(e)) == PairDoc(e) {
      BindTwo(EventId, FieldOf(KeyEventId), Principal, FieldOf(KeyPrincipal), EventDoc(e), EMPTY, Hash(e.id), Str(e.principal));
    }
  }

  lemma PairDocsCons(e: Event, t: seq<Event>)
    ensures PairDocs([e] + t) == [PairDoc(e)] + PairDocs(t)
  {
  }

  lemma {:induction false} PushedOfPrincipal(key: Expr, push: Expr, s: seq<Event>, who: string)
    requires PushesPairs(key, push)
    ensures Pushed(key, push, Str(who), Docs(s)) == PairDocs(OfPrincipal(s, who))
  {
    if s != [] {
      var e, rest := s[0], OfPrincipal(s[1..], who);
      PushedOfPrincipal(key, push, s[1..], who);
      assert ValueOf(push, EventDoc(e)) == PairDoc(e) && ValueOf(key, EventDoc(e)) == Str(e.principal);
      assert Docs(s) == [EventDoc(e)] + Docs(s[1..]);
      if e.principal == who {
        assert OfPrincipal(s, who) == [e] + rest;
        PushedHit(key, push, EventDoc(e), Docs(s[1..]));
        PairDocsCons(e, rest);
      } else {
        assert OfPrincipal(s, who) == rest;
        PushedMiss(key, push, Str(who), EventDoc(e), Docs(s[1..]));
      }
    }
  }

  /** The group keys are the principals that occur. */
  lemma {:induction false} KeysArePrincipals(key: Expr, push: Expr, s: seq<Event>)
    requires PushesPairs(key, push)
    ensures forall e :: e in s ==> Str(e.principal) in GroupKeys(key, Docs(s))
    ensures forall k :: k in GroupKeys(key, Docs(s)) ==> k.Str? && OfPrincipal(s, k.s) != []
  {
    if s != [] {
      KeysArePrincipals(key, push, s[1..]);
      assert ValueOf(push, EventDoc(s[0])) == PairDoc(s[0]);
      GroupKeysStep(key, EventDoc(s[0]), Docs(s[1..]));
      assert s == [s[0]] + s[1..];
    }
  }

  lemma {:induction false} EachEvaluates(items: seq<Bson>, body: Expr, d: Document, out: seq<Bson>)
    requires |items| == |out|
    requires forall i :: 0 <= i < |items| ==> items[i].Doc? && Eval(body, d, items[i].doc) == Some(out[i])
    ensures EvalEach(items, body, d) == Some(out)
  {
    if items != [] {
      EachEvaluates(items[1..], body, d, out[1..]);
      assert out == [out[0]] + out[1..];
    } else {
      assert out == [];
    }
  }

  function GroupDoc(k: Bson, t: seq<Event>): Document { EMPTY.(groupId := k, events := Arr(PairDocs(t))) }

  /** The expression keeps only the event id of a pushed pair. */
  ghost predicate StripsPairs(strip: Expr) {
    forall e, g :: Eval(strip, g, PairDoc(e).doc) == Some(IdDoc(e))
  }

  lemma StripPrincipalStrips()
    ensures StripsPairs(STRIP_PRINCIPAL)
  {
    forall e, g ensures Eval(STRIP_PRINCIPAL, g, PairDoc(e).doc) == Some(IdDoc(e)) {
      BindOne(EventId, VarFieldOf(EventId), g, PairDoc(e).doc, Hash(e.id));
    }
  }

  lemma SliceEvaluates(strip: Expr, g: Document, items: seq<Bson>, out: seq<Bson>, volume: nat)
    requires g.events == Arr(items) && |items| == |out| && items != []
    requires forall i :: 0 <= i < |items| ==> items[i].Doc? && Eval(strip, g, items[i].doc) == Some(out[i])
    ensures Eval(SliceOf(MapOver(FieldOf(Events), strip), volume, SizeOf(FieldOf(Events))), g, EMPTY) ==
            Some(Arr(Window(out, volume, |out|)))
  {
    EachEvaluates(items, strip, g, out);
    assert Eval(FieldOf(Events), g, EMPTY) == Some(Arr(items));
    assert Eval(MapOver(FieldOf(Events), strip), g, EMPTY) == Some(Arr(out));
    assert Eval(SizeOf(FieldOf(Events)), g, EMPTY) == Some(Num(|items|));
  }

  /** The slice that drops a principal's newest events; its count is never rejected. */
  lemma SlicesGroup(strip: Expr, k: Bson, t: seq<Event>, volume: nat)
    requires StripsPairs(strip) && t != []
    ensures Eval(SliceOf(MapOver(FieldOf(Events), strip), volume, SizeOf(FieldOf(Events))), GroupDoc(k, t), EMPTY) ==
            Some(Arr(IdDocs(Beyond(t, volume))))
  {
    SliceEvaluates(strip, GroupDoc(k, t), PairDocs(t), IdDocs(t), volume);
    assert Window(IdDocs(t), volume, |t|) == IdDocs(Beyond(t, volume));
  }

  function Row(k: Bson, t: seq<Event>): Document {
    EMPTY.(principal := k, events := Arr(IdDocs(t)), groupId := k)
  }

  function Past(k: Bson, s: seq<Event>, volume: nat): seq<Event> {
    if k.Str? then Beyond(OfPrincipal(s, k.s), volume) else []
  }

  function Rows(ks: seq<Bson>, s: seq<Event>, volume: nat): seq<Document> {
    if ks == [] then [] else [Row(ks[0], Past(ks[0], s, volume))] + Rows(ks[1..], s, volume)
  }

  /** The events reported for the groups ks, group after group. */
  function AllPast(ks: seq<Bson>, s: seq<Event>, volume: nat): seq<Event> {
    if ks == [] then [] else Past(ks[0], s, volume) + AllPast(ks[1..], s, volume)
  }

  ghost predicate GroupsAs(key: Expr, push: Expr, slice: Expr, k: Bson, docs: seq<Document>, s: seq<Event>, volume: nat) {
    k.Str? &&
    Pushed(key, push, k, docs) == PairDocs(OfPrincipal(s, k.s)) &&
    Eval(slice, GroupDoc(k, OfPrincipal(s, k.s)), EMPTY) == Some(Arr(IdDocs(Past(k, s, volume))))
  }

  lemma {:induction false} ProjectsRows(
      key: Expr, push: Expr, slice: Expr, ks: seq<Bson>, docs: seq<Document>, s: seq<Event>, volume: nat)
    requires forall k :: k in ks ==> GroupsAs(key, push, slice, k, docs, s, volume)
    ensures RunStage(DropNewest(slice), GroupDocs(key, push, ks, docs)) == Some(Rows(ks, s, volume))
  {
    if ks != [] {
      var k := ks[0];
      ProjectsRows(key, push, slice, ks[1..], docs, s, volume);
      assert ks == [k] + ks[1..];
      assert GroupsAs(key, push, slice, k, docs, s, volume);
      GroupDocsStep(key, push, k, ks[1..], docs);
      var rest := GroupDocs(key, push, ks[1..], docs);
      RowStep(slice, GroupDoc(k, OfPrincipal(s, k.s)), Arr(IdDocs(Past(k, s, volume))), rest, Rows(ks[1..], s, volume));
      assert Rows(ks, s, volume) == [Row(k, Past(k, s, volume))] + Rows(ks[1..], s, volume);
    }
  }

  lemma RowStep(slice: Expr, g: Document, sliced: Bson, rest: seq<Document>, rows: seq<Document>)
    requires Eval(slice, g, EMPTY) == Some(sliced)
    requires RunStage(DropNewest(slice), rest) == Some(rows)
    ensures RunStage(DropNewest(slice), [g] + rest) ==
            Some([EMPTY.(principal := g.groupId, events := sliced, groupId := g.groupId)] + rows)
  {
    var bs := [Bind(Principal, FieldOf(GroupId)), Bind(Events, slice)];
    BindTwo(Principal, FieldOf(GroupId), Events, slice, g, EMPTY, g.groupId, sliced);
    ProjectStep(true, bs, g, rest, EMPTY.(principal := g.groupId, events := sliced));
  }

  /** Each document's events field holds the id of the corresponding event. */
  ghost predicate HoldIds(u: seq<Document>, es: seq<Event>) {
    |u| == |es| && forall i :: 0 <= i < |u| ==> u[i].events == IdDoc(es[i])
  }

  lemma {:induction false} UnwindsItems(d: Document, es: seq<Event>)
    ensures HoldIds(UnwindItems(Events, d, IdDocs(es)), es)
  {
    if es != [] {
      assert IdDocs(es)[1..] == IdDocs(es[1..]);
      UnwindsItems(d, es[1..]);
    }
  }

  lemma {:induction false} UnwindsRows(ks: seq<Bson>, s: seq<Event>, volume: nat)
    ensures HoldIds(UnwindDocs(Events, Rows(ks, s, volume)), AllPast(ks, s, volume))
  {
    if ks != [] {
      var rows := Rows(ks, s, volume);
      assert rows[1..] == Rows(ks[1..], s, volume);
      UnwindsRows(ks[1..], s, volume);
      UnwindsItems(rows[0], Past(ks[0], s, volume));
    }
  }

  lemma {:induction false} ReplacesRoots(u: seq<Document>, es: seq<Event>)
    requires HoldIds(u, es)
    ensures ReplaceRoots(Events, u).Some?
    ensures
      var out := ReplaceRoots(Events, u).value;
      |out| == |es| && forall i :: 0 <= i < |es| ==> out[i].eventId == Hash(es[i].id)
  {
    if u != [] {
      ReplacesRoots(u[1..], es[1..]);
    }
  }

  lemma {:induction false} AllPastElements(ks: seq<Bson>, s: seq<Event>, volume: nat)
    requires NewestFirst(s)
    requires forall k :: k in ks ==> k.Str?
    ensures forall e :: e in AllPast(ks, s, volume) <==>
              Str(e.principal) in ks && e in Beyond(OfPrincipal(s, e.principal), volume)
  {
    if ks != [] {
      AllPastElements(ks[1..], s, volume);
      assert ks == [ks[0]] + ks[1..];
      assert ks[0] in ks;
      OfPrincipalElements(s, ks[0].s);
    }
  }

  lemma GroupAndDrop(s: seq<Event>, volume: nat, ks: seq<Bson>)
    requires ks == GroupKeys(FieldOf(KeyPrincipal), Docs(s))
    ensures RunStage(DropNewest(PastBuffer(volume)), GroupDocs(FieldOf(KeyPrincipal), PAIR_OF_PUSH, ks, Docs(s))) ==
            Some(Rows(ks, s, volume))
  {
    PairOfPushPushesPairs();
    StripPrincipalStrips();
    KeysArePrincipals(FieldOf(KeyPrincipal), PAIR_OF_PUSH, s);
    forall k | k in ks ensures GroupsAs(FieldOf(KeyPrincipal), PAIR_OF_PUSH, PastBuffer(volume), k, Docs(s), s, volume) {
      PushedOfPrincipal(FieldOf(KeyPrincipal), PAIR_OF_PUSH, s, k.s);
      SlicesGroup(STRIP_PRINCIPAL, k, OfPrincipal(s, k.s), volume);
    }
    ProjectsRows(FieldOf(KeyPrincipal), PAIR_OF_PUSH, PastBuffer(volume), ks, Docs(s), s, volume);
  }

  /** The closing four stages flatten the rows into one report. */
  lemma FlattenReports(rows: seq<Document>, es: seq<Event>)
    requires HoldIds(UnwindDocs(Events, rows), es)
    ensures Run(FLATTEN_STAGES, rows) == Some(Report(es))
  {
    var u := UnwindDocs(Events, rows);
    ReplacesRoots(u, es);
    var roots := ReplaceRoots(Events, u).value;
    var close := [GroupPush(Const(Null), FieldOf(EventId)), PROJECT_EVENTS_ONLY];
    assert Run(close, roots) == Some(Report(es)) by { CloseReport(FieldOf(EventId), roots, Hashes(es)); }
    RunInThree(Unwind(Events), ReplaceRoot(Events), close, rows, u, roots, Report(es));
  }

  lemma RunInThree(
      a: Stage, b: Stage, rest: seq<Stage>,
      x0: seq<Document>, x1: seq<Document>, x2: seq<Document>, x3: seq<Document>)
    requires RunStage(a, x0) == Some(x1) && RunStage(b, x1) == Some(x2) && Run(rest, x2) == Some(x3)
    ensures Run([a, b] + rest, x0) == Some(x3)
  {
    RunTwo(a, b, x0);
    RunConcat([a, b], rest, x0);
  }

  lemma PerPrincipalRun(ks: seq<Bson>, s: seq<Event>, volume: nat)
    requires ks == GroupKeys(FieldOf(KeyPrincipal), Docs(s))
    ensures Run(PerPrincipalStages(volume), Docs(s)) == Some(Report(AllPast(ks, s, volume)))
  {
    GroupAndDrop(s, volume, ks);
    UnwindsRows(ks, s, volume);
    FlattenReports(Rows(ks, s, volume), AllPast(ks, s, volume));
    RunInThree(GroupPush(FieldOf(KeyPrincipal), PAIR_OF_PUSH), DropNewest(PastBuffer(volume)), FLATTEN_STAGES, Docs(s),
               GroupDocs(FieldOf(KeyPrincipal), PAIR_OF_PUSH, ks, Docs(s)), Rows(ks, s, volume), Report(AllPast(ks, s, volume)));
  }

  lemma PastEvents(ks: seq<Bson>, s: seq<Event>, volume: nat) returns (past: seq<Event>)
    requires NewestFirst(s) && ks == GroupKeys(FieldOf(KeyPrincipal), Docs(s))
    ensures past == AllPast(ks, s, volume)
    ensures forall e :: e in past <==> e in s && e in Beyond(OfPrincipal(s, e.principal), volume)
  {
    past := AllPast(ks, s, volume);
    PairOfPushPushesPairs();
    KeysArePrincipals(FieldOf(KeyPrincipal), PAIR_OF_PUSH, s);
    AllPastElements(ks, s, volume);
    forall e | e in past ensures e in s { OfPrincipalElements(s, e.principal); }
  }

  /** The six stages of a per-principal buffer report the events past each principal's newest ones. */
  lemma PerPrincipalReports(s: seq<Event>, volume: nat) returns (past: seq<Event>)
    requires NewestFirst(s)
    ensures Run(PerPrincipalStages(volume), Docs(s)) == Some(Report(past))
    ensures forall e :: e in past <==> e in s && e in Beyond(OfPrincipal(s, e.principal), volume)
  {
    var ks := GroupKeys(FieldOf(KeyPrincipal), Docs(s));
    past := PastEvents(ks, s, volume);
    PerPrincipalRun(ks, s, volume);
  }

  // ---------- The whole pipeline ----------

  /** The clauses together say that no timestamp filter keeps the event. */
  ghost predicate MatcherMeans(matcher: seq<Query>, p: Policy, now: int) {
    forall e: Event :: Holds(AllOf(matcher), EventDoc(e)) <==> !Retained(p, e, now)
  }

  function MatchPart(matcher: seq<Query>): seq<Stage> {
    if matcher == [] then [] else [MatchStage(AllOf(matcher))]
  }

  lemma {:induction false} NothingRetained(p: Policy, now: int, es: seq<Event>)
    requires forall e :: e in es ==> !Retained(p, e, now)
    ensures Unretained(p, now, es) == es
  {
    if es != [] {
      assert es[0] in es;
      NothingRetained(p, now, es[1..]);
    }
  }

  lemma MatchRun(matcher: seq<Query>, p: Policy, now: int, es: seq<Event>)
    requires MatcherMeans(matcher, p, now)
    ensures Run(MatchPart(matcher), Docs(es)) == Some(Docs(Unretained(p, now, es)))
  {
    if matcher == [] {
      forall e | e in es ensures !Retained(p, e, now) {
        assert Holds(AllOf(matcher), EventDoc(e));
      }
      NothingRetained(p, now, es);
    } else {
      var stage := MatchStage(AllOf(matcher));
      SelectsUnretained(AllOf(matcher), p, now, es);
      assert [stage][1..] == [];
      assert Run([], Docs(Unretained(p, now, es))) == Some(Docs(Unretained(p, now, es)));
    }
  }

  /** A run of the match stage followed by rest is a run of rest over the events no filter keeps. */
  lemma AfterMatch(matcher: seq<Query>, p: Policy, now: int, es: seq<Event>, rest: seq<Stage>)
    requires MatcherMeans(matcher, p, now)
    ensures Run(MatchPart(matcher) + rest, Docs(es)) == Run(rest, Docs(Unretained(p, now, es)))
  {
    MatchRun(matcher, p, now, es);
    RunConcat(MatchPart(matcher), rest, Docs(es));
  }

  /** The same with the sort stage in between. */
  lemma AfterSort(matcher: seq<Query>, p: Policy, now: int, es: seq<Event>, rest: seq<Stage>)
    requires MatcherMeans(matcher, p, now)
    ensures Run(MatchPart(matcher) + [SortDescending(KeyTimestamp)] + rest, Docs(es)) ==
            Run(rest, Docs(Sorted(Unretained(p, now, es))))
  {
    var sort := SortDescending(KeyTimestamp);
    SortedDocs(Unretained(p, now, es));
    AfterMatch(matcher, p, now, es, [sort] + rest);
    assert MatchPart(matcher) + [sort] + rest == MatchPart(matcher) + ([sort] + rest);
    assert ([sort] + rest)[1..] == rest;
  }

  lemma SortedUnretained(p: Policy, now: int, es: seq<Event>) returns (s: seq<Event>)
    requires UniqueIds(es)
    ensures s == Sorted(Unretained(p, now, es)) && NewestFirst(s)
    ensures forall e :: e in s <==> e in es && !Retained(p, e, now)
  {
    UnretainedElements(p, now, es);
    SortedIsNewestFirst(Unretained(p, now, es));
    s := Sorted(Unretained(p, now, es));
  }

  lemma ReportsExpired(p: Policy, now: int, es: seq<Event>, past: seq<Event>)
    requires forall e :: e in past <==> e in es && Expired(p, now, EventSet(es), e)
    ensures Reports(Report(past), ExpiredIds(p, now, EventSet(es)))
  {
    ReportMeaning(past, ExpiredIds(p, now, EventSet(es)));
  }

  lemma NoCountImplements(matcher: seq<Query>, p: Policy, now: int)
    requires MatcherMeans(matcher, p, now) && !HasCount(p)
    ensures Implements(MatchPart(matcher) + [EXTRACT_IDS, PROJECT_EVENTS_ONLY], p, now)
  {
    forall es: seq<Event> | UniqueIds(es)
      ensures Run(MatchPart(matcher) + [EXTRACT_IDS, PROJECT_EVENTS_ONLY], Docs(es)).Some?
      ensures Reports(Run(MatchPart(matcher) + [EXTRACT_IDS, PROJECT_EVENTS_ONLY], Docs(es)).value,
                      ExpiredIds(p, now, EventSet(es)))
    {
      AfterMatch(matcher, p, now, es, [EXTRACT_IDS, PROJECT_EVENTS_ONLY]);
      ExtractReports(Unretained(p, now, es));
      UnretainedElements(p, now, es);
      ReportsExpired(p, now, es, Unretained(p, now, es));
    }
  }

  lemma {:induction false} DocsFrom(es: seq<Event>, n: nat)
    requires n <= |es|
    ensures Docs(es)[n..] == Docs(es[n..])
  {
    if n > 0 {
      DocsFrom(es[1..], n - 1);
      assert Docs(es)[n..] == Docs(es[1..])[n - 1..];
      assert es[n..] == es[1..][n - 1..];
    }
  }

  lemma GlobalImplements(matcher: seq<Query>, p: Policy, now: int)
    requires MatcherMeans(matcher, p, now) && !PerPrincipal(p)
    ensures Implements(MatchPart(matcher) + [SortDescending(KeyTimestamp)] +
                       [Skip(Volume(p)), EXTRACT_IDS, PROJECT_EVENTS_ONLY], p, now)
  {
    var rest := [Skip(Volume(p)), EXTRACT_IDS, PROJECT_EVENTS_ONLY];
    var stages := MatchPart(matcher) + [SortDescending(KeyTimestamp)] + rest;
    forall es: seq<Event> | UniqueIds(es)
      ensures Run(stages, Docs(es)).Some?
      ensures Reports(Run(stages, Docs(es)).value, ExpiredIds(p, now, EventSet(es)))
    {
      AfterSort(matcher, p, now, es, rest);
      var s := SortedUnretained(p, now, es);
      var past := Beyond(s, Volume(p));
      SkipReports(s, Volume(p));
      forall e ensures e in past <==> e in es && Expired(p, now, EventSet(es), e) {
        if e in s { ExpiredIffBeyond(p, now, EventSet(es), s, e); }
      }
      ReportsExpired(p, now, es, past);
    }
  }

  lemma SkipReports(s: seq<Event>, volume: nat)
    ensures Run([Skip(volume), EXTRACT_IDS, PROJECT_EVENTS_ONLY], Docs(s)) == Some(Report(Beyond(s, volume)))
  {
    if volume < |s| { DocsFrom(s, volume); }
    assert [Skip(volume), EXTRACT_IDS, PROJECT_EVENTS_ONLY][1..] == [EXTRACT_IDS, PROJECT_EVENTS_ONLY];
    ExtractReports(Beyond(s, volume));
  }

  lemma PrincipalImplements(matcher: seq<Query>, p: Policy, now: int)
    requires MatcherMeans(matcher, p, now) && PerPrincipal(p)
    ensures Implements(MatchPart(matcher) + [SortDescending(KeyTimestamp)] + PerPrincipalStages(Volume(p)), p, now)
  {
    var rest := PerPrincipalStages(Volume(p));
    var stages := MatchPart(matcher) + [SortDescending(KeyTimestamp)] + rest;
    forall es: seq<Event> | UniqueIds(es)
      ensures Run(stages, Docs(es)).Some?
      ensures Reports(Run(stages, Docs(es)).value, ExpiredIds(p, now, EventSet(es)))
    {
      AfterSort(matcher, p, now, es, rest);
      var s := SortedUnretained(p, now, es);
      var past := PerPrincipalReports(s, Volume(p));
      forall e ensures e in past <==> e in es && Expired(p, now, EventSet(es), e) {
        OfPrincipalElements(s, e.principal);
        if e in s { ExpiredIffBeyond(p, now, EventSet(es), OfPrincipal(s, e.principal), e); }
      }
      ReportsExpired(p, now, es, past);
    }
  }

  // ---------- The compiler ----------

  datatype BuildError = ValidationFailed(cause: PolicyError) | InvalidPolicyType | InvalidRuleGrouping

  predicate IsGlobal(f: Filter) {
    f.action.kind == TimestampPolicy && (f.action.ruleGroup == GlobalGrouping || f.action.ruleGroup == NoGrouping)
  }

  ghost predicate IsFirstCount(p: Policy, i: nat) {
    i < |p.filters| && IsCount(p.filters[i]) && forall j :: 0 <= j < i ==> !IsCount(p.filters[j])
  }

  method GetCountFilter(p: Policy) returns (found: Option<Filter>)
    ensures found.None? <==> !HasCount(p)
    ensures found.Some? ==> found.value in p.filters && exists i: nat :: IsFirstCount(p, i) && found.value == p.filters[i]
  {
    for i := 0 to |p.filters|
      invariant forall j :: 0 <= j < i ==> !IsCount(p.filters[j])
    {
      if p.filters[i].action.kind == CountPolicy {
        assert IsFirstCount(p, i);
        return Some(p.filters[i]);
      }
    }
    return None;
  }

  lemma MatcherStep(matcher: seq<Query>, p: Policy, i: nat, now: int, clause: Query)
    requires i < |p.filters|
    requires MatcherMeans(matcher, Policy(p.filters[..i]), now)
    requires forall e :: Holds(clause, EventDoc(e)) <==> !Retains(p.filters[i], e, now)
    ensures MatcherMeans(matcher + [clause], Policy(p.filters[..i + 1]), now)
  {
    var before, after := Policy(p.filters[..i]), Policy(p.filters[..i + 1]);
    forall e: Event ensures Holds(AllOf(matcher + [clause]), EventDoc(e)) <==> !Retained(after, e, now) {
      assert Holds(AllOf(matcher), EventDoc(e)) <==> !Retained(before, e, now);
      assert (matcher + [clause])[|matcher|] == clause;
      assert forall k :: 0 <= k < |matcher| ==> (matcher + [clause])[k] == matcher[k];
      assert Retained(after, e, now) <==> Retained(before, e, now) || Retains(p.filters[i], e, now) by {
        if Retained(before, e, now) {
          var k :| 0 <= k < i && Retains(before.filters[k], e, now);
          assert Retains(after.filters[k], e, now);
        }
        if Retains(p.filters[i], e, now) { assert Retains(after.filters[i], e, now); }
        if Retained(after, e, now) {
          var k :| 0 <= k <= i && Retains(after.filters[k], e, now);
          if k < i { assert Retains(before.filters[k], e, now); }
        }
      }
    }
  }

  lemma MatcherSkip(matcher: seq<Query>, p: Policy, i: nat, now: int)
    requires i < |p.filters| && !IsTimestamp(p.filters[i])
    requires MatcherMeans(matcher, Policy(p.filters[..i]), now)
    ensures MatcherMeans(matcher, Policy(p.filters[..i + 1]), now)
  {
    var before, after := Policy(p.filters[..i]), Policy(p.filters[..i + 1]);
    forall e: Event ensures Retained(after, e, now) <==> Retained(before, e, now) {
      if Retained(before, e, now) {
        var k :| 0 <= k < i && Retains(before.filters[k], e, now);
        assert Retains(after.filters[k], e, now);
      }
      if Retained(after, e, now) {
        var k :| 0 <= k <= i && Retains(after.filters[k], e, now);
        assert Retains(before.filters[k], e, now);
      }
    }
  }

  /** The loop body for one timestamp filter: a clause that holds of exactly the events it does not keep. */
  method BuildClause(filter: Filter, now: int) returns (clause: Query)
    requires IsTimestamp(filter)
    ensures forall e :: Holds(clause, EventDoc(e)) <==> !Retains(filter, e, now)
  {
    var orClause: seq<Query> := [];
    var andClause := [Lt(KeyTimestamp, Date(now - filter.action.retentionPeriod))];
    if filter.matching.channel.Some? {
      orClause := orClause + [Ne(KeyChannel, Str(filter.matching.channel.value))];
      andClause := andClause + [Eq(KeyChannel, Str(filter.matching.channel.value))];
    }
    if filter.matching.eventId.Some? {
      orClause := orClause + [Ne(KeyEventTypeId, Num(filter.matching.eventId.value))];
      andClause := andClause + [Eq(KeyEventTypeId, Num(filter.matching.eventId.value))];
    }
    if filter.matching.providerGuid.Some? {
      var guid := StoredGuid(filter.matching.providerGuid.value);
      orClause := orClause + [Ne(KeyProvider, Str(guid))];
      andClause := andClause + [Eq(KeyProvider, Str(guid))];
    }
    clause := AnyOf(orClause + [AllOf(andClause)]);
    assert orClause == NeParts(filter.matching);
    assert andClause == [Lt(KeyTimestamp, Date(now - filter.action.retentionPeriod))] + EqParts(filter.matching);
    forall e ensures Holds(clause, EventDoc(e)) <==> !Retains(filter, e, now) {
      ClauseMeaning(filter, now, e);
    }
  }

  lemma TheCountFilter(p: Policy, f: Filter)
    requires Valid(p) && f in p.filters && IsCount(f)
    ensures HasCount(p) && p.filters[CountIndex(p)] == f
  {
    var i :| 0 <= i < |p.filters| && p.filters[i] == f;
    assert HasCount(p);
    assert IsCount(p.filters[CountIndex(p)]) && IsCount(p.filters[i]);
  }

  /**
    Every policy the validator accepts compiles, and the pipeline implements the plain rule on every
    collection; every other policy is refused with the validator's own error.
   */
  method BuildAggregate(p: Policy, now: int) returns (r: Result<seq<Stage>, BuildError>)
    ensures Valid(p) ==> r.Ok? && Implements(r.value, p, now)
    ensures !Valid(p) ==> r.Err? && r.error.ValidationFailed?
  {
    var invalid := Validate(p);
    if invalid.Some? {
      return Err(ValidationFailed(invalid.value));
    }

    var matcher: seq<Query> := [];
    for i := 0 to |p.filters|
      invariant MatcherMeans(matcher, Policy(p.filters[..i]), now)
    {
      var filter := p.filters[i];
      assert WellFormedFilter(filter);
      if !IsGlobal(filter) {
        MatcherSkip(matcher, p, i, now);
        continue;
      }
      if filter.action.kind != TimestampPolicy {
        return Err(InvalidPolicyType);
      }
      var clause := BuildClause(filter, now);
      MatcherStep(matcher, p, i, now, clause);
      matcher := matcher + [clause];
    }
    assert p.filters[..|p.filters|] == p.filters;

    var aggregate: seq<Stage> := [];
    if |matcher| > 0 {
      aggregate := aggregate + [MatchStage(AllOf(matcher))];
    }
    assert aggregate == MatchPart(matcher);

    var countFilter := GetCountFilter(p);
    if countFilter.None? {
      NoCountImplements(matcher, p, now);
      return Ok(aggregate + [EXTRACT_IDS, PROJECT_EVENTS_ONLY]);
    }
    TheCountFilter(p, countFilter.value);

    aggregate := aggregate + [SortDescending(KeyTimestamp)];
    var action := countFilter.value.action;
    if action.ruleGroup == GlobalGrouping || action.ruleGroup == NoGrouping {
      GlobalImplements(matcher, p, now);
      return Ok(aggregate + [Skip(action.volume), EXTRACT_IDS, PROJECT_EVENTS_ONLY]);
    } else if action.ruleGroup == PrincipalGrouping {
      PrincipalImplements(matcher, p, now);
      return Ok(aggregate + PerPrincipalStages(action.volume));
    } else {
      return Err(InvalidRuleGrouping);
    }
  }
}
