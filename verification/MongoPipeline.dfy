/**
  The fragment of MongoDB's aggregation language that the retention compiler targets: documents, match
  queries, expressions and pipeline stages, with an evaluator. A stage that the server would reject makes
  the whole run fail (None).
 */
module MongoPipeline {
  import opened Prelude

  /** Field names; a dotted path into a stored event counts as one name. */
  datatype Field =
    | KeyEventId | KeyTimestamp | KeyPrincipal
    | KeyChannel | KeyEventTypeId | KeyProvider
    | GroupId | Events | EventId | Principal

  datatype Bson =
    | Absent
    | Null
    | Num(n: int)
    | Date(t: int)
    | Str(s: string)
    | Hash(h: nat)
    | Arr(items: seq<Bson>)
    | Doc(doc: Document)

  /** A document holds a value, or Absent, in every field the pipelines name. */
  datatype Document = Document(
    keyEventId: Bson, keyTimestamp: Bson, keyPrincipal: Bson,
    keyChannel: Bson, keyEventTypeId: Bson, keyProvider: Bson,
    groupId: Bson, events: Bson, eventId: Bson, principal: Bson)

  const EMPTY := Document(Absent, Absent, Absent, Absent, Absent, Absent, Absent, Absent, Absent, Absent)

  function Get(d: Document, f: Field): Bson {
    match f
    case KeyEventId => d.keyEventId
    case KeyTimestamp => d.keyTimestamp
    case KeyPrincipal => d.keyPrincipal
    case KeyChannel => d.keyChannel
    case KeyEventTypeId => d.keyEventTypeId
    case KeyProvider => d.keyProvider
    case GroupId => d.groupId
    case Events => d.events
    case EventId => d.eventId
    case Principal => d.principal
  }

  function Put(d: Document, f: Field, b: Bson): Document {
    match f
    case KeyEventId => d.(keyEventId := b)
    case KeyTimestamp => d.(keyTimestamp := b)
    case KeyPrincipal => d.(keyPrincipal := b)
    case KeyChannel => d.(keyChannel := b)
    case KeyEventTypeId => d.(keyEventTypeId := b)
    case KeyProvider => d.(keyProvider := b)
    case GroupId => d.(groupId := b)
    case Events => d.(events := b)
    case EventId => d.(eventId := b)
    case Principal => d.(principal := b)
  }

  // ---------- Match queries ----------

  datatype Query =
    | Eq(field: Field, value: Bson)
    | Ne(field: Field, value: Bson)
    | Lt(field: Field, value: Bson)
    | AllOf(clauses: seq<Query>)
    | AnyOf(clauses: seq<Query>)

  predicate Holds(q: Query, d: Document) {
    match q
    case Eq(f, v) => Get(d, f) == v
    case Ne(f, v) => Get(d, f) != v
    case Lt(f, v) => Get(d, f).Date? && v.Date? && Get(d, f).t < v.t
    case AllOf(qs) => forall i :: 0 <= i < |qs| ==> Holds(qs[i], d)
    case AnyOf(qs) => exists i :: 0 <= i < |qs| && Holds(qs[i], d)
  }

  // ---------- Expressions ----------

  datatype Expr =
    | Const(value: Bson)
    | FieldOf(field: Field)                          // "$field"
    | VarFieldOf(field: Field)                       // "$$event.field"
    | Object(bindings: seq<Binding>)
    | MapOver(input: Expr, body: Expr)               // $map, binding $$event
    | SizeOf(input: Expr)                            // $size
    | SliceOf(input: Expr, skip: nat, count: Expr)   // $slice

  datatype Binding = Bind(name: Field, expr: Expr)

  /** Evaluates e in document d, where v is the document bound to $$event; None is a server error. */
  function Eval(e: Expr, d: Document, v: Document): Option<Bson>
    decreases e, 0
  {
    match e
    case Const(b) => Some(b)
    case FieldOf(f) => Some(Get(d, f))
    case VarFieldOf(f) => Some(Get(v, f))
    case Object(bs) =>
      (match EvalBindings(bs, d, v)
       case Some(m) => Some(Doc(m))
       case None => None)
    case MapOver(input, body) =>
      (match Eval(input, d, v)
       case Some(Arr(items)) =>
         (match EvalEach(items, body, d)
          case Some(out) => Some(Arr(out))
          case None => None)
       case _ => None)
    case SizeOf(input) =>
      (match Eval(input, d, v)
       case Some(Arr(items)) => Some(Num(|items|))
       case _ => None)
    case SliceOf(input, skip, count) =>
      // The server rejects a count that is not positive when a position is given.
      (match (Eval(input, d, v), Eval(count, d, v))
       case (Some(Arr(items)), Some(Num(n))) =>
         if n <= 0 then None else Some(Arr(Window(items, skip, n)))
       case _ => None)
  }

  function Window(items: seq<Bson>, skip: nat, n: nat): seq<Bson> {
    if skip >= |items| then []
    else if skip + n >= |items| then items[skip..]
    else items[skip..skip + n]
  }

  function EvalBindings(bs: seq<Binding>, d: Document, v: Document): Option<Document>
    decreases bs, 1
  {
    if bs == [] then Some(EMPTY)
    else
      assert bs[0].expr < bs[0];
      match (Eval(bs[0].expr, d, v), EvalBindings(bs[1..], d, v))
      case (Some(b), Some(rest)) => Some(Put(rest, bs[0].name, b))
      case _ => None
  }

  function EvalEach(items: seq<Bson>, body: Expr, d: Document): Option<seq<Bson>>
    decreases body, 1 + |items|
  {
    if items == [] then Some([])
    else if !items[0].Doc? then None
    else
      match (Eval(body, d, items[0].doc), EvalEach(items[1..], body, d))
      case (Some(b), Some(rest)) => Some([b] + rest)
      case _ => None
  }

  // ---------- Stages ----------

  datatype Stage =
    | MatchStage(query: Query)
    | SortDescending(sortKey: Field)
    | Skip(count: nat)
    | GroupPush(key: Expr, push: Expr)                   // {_id: key, events: {$push: push}}
    | Project(keepId: bool, bindings: seq<Binding>)
    | Unwind(array: Field)
    | ReplaceRoot(root: Field)

  function SelectDocs(q: Query, docs: seq<Document>): seq<Document> {
    if docs == [] then []
    else (if Holds(q, docs[0]) then [docs[0]] else []) + SelectDocs(q, docs[1..])
  }

  function TimeKey(b: Bson): int { if b.Date? then b.t else 0 }

  function IdKey(b: Bson): int { if b.Hash? then b.h else 0 }

  /** Later key first; the server may order ties freely, the model orders them by event hash. */
  predicate SortsBefore(f: Field, a: Document, b: Document) {
    TimeKey(Get(a, f)) > TimeKey(Get(b, f)) ||
    (TimeKey(Get(a, f)) == TimeKey(Get(b, f)) && IdKey(a.keyEventId) < IdKey(b.keyEventId))
  }

  function InsertDoc(f: Field, d: Document, sorted: seq<Document>): seq<Document> {
    if sorted == [] || SortsBefore(f, d, sorted[0]) then [d] + sorted
    else [sorted[0]] + InsertDoc(f, d, sorted[1..])
  }

  function SortDocs(f: Field, docs: seq<Document>): seq<Document> {
    if docs == [] then [] else InsertDoc(f, docs[0], SortDocs(f, docs[1..]))
  }

  function ValueOf(e: Expr, d: Document): Bson {
    match Eval(e, d, EMPTY)
    case Some(b) => b
    case None => Null
  }

  /** The distinct group keys (the server promises no order of groups). */
  function GroupKeys(key: Expr, docs: seq<Document>): seq<Bson> {
    if docs == [] then []
    else
      var rest := GroupKeys(key, docs[1..]);
      if ValueOf(key, docs[0]) in rest then rest else [ValueOf(key, docs[0])] + rest
  }

  function Pushed(key: Expr, push: Expr, k: Bson, docs: seq<Document>): seq<Bson> {
    if docs == [] then []
    else (if ValueOf(key, docs[0]) == k then [ValueOf(push, docs[0])] else []) + Pushed(key, push, k, docs[1..])
  }

  function GroupDocs(key: Expr, push: Expr, keys: seq<Bson>, docs: seq<Document>): seq<Document> {
    if keys == [] then []
    else
      [EMPTY.(groupId := keys[0], events := Arr(Pushed(key, push, keys[0], docs)))] +
      GroupDocs(key, push, keys[1..], docs)
  }

  function ProjectDocs(keepId: bool, bs: seq<Binding>, docs: seq<Document>): Option<seq<Document>> {
    if docs == [] then Some([])
    else
      match (EvalBindings(bs, docs[0], EMPTY), ProjectDocs(keepId, bs, docs[1..]))
      case (Some(m), Some(rest)) => Some([if keepId then m.(groupId := docs[0].groupId) else m] + rest)
      case _ => None
  }

  function UnwindItems(f: Field, d: Document, items: seq<Bson>): seq<Document> {
    if items == [] then [] else [Put(d, f, items[0])] + UnwindItems(f, d, items[1..])
  }

  function UnwindDocs(f: Field, docs: seq<Document>): seq<Document> {
    if docs == [] then []
    else
      (if Get(docs[0], f).Arr? then UnwindItems(f, docs[0], Get(docs[0], f).items) else []) + UnwindDocs(f, docs[1..])
  }

  function ReplaceRoots(f: Field, docs: seq<Document>): Option<seq<Document>> {
    if docs == [] then Some([])
    else if Get(docs[0], f).Doc? then
      match ReplaceRoots(f, docs[1..])
      case Some(rest) => Some([Get(docs[0], f).doc] + rest)
      case None => None
    else None
  }

  function RunStage(s: Stage, docs: seq<Document>): Option<seq<Document>> {
    match s
    case MatchStage(q) => Some(SelectDocs(q, docs))
    case SortDescending(f) => Some(SortDocs(f, docs))
    case Skip(n) => Some(if n >= |docs| then [] else docs[n..])
    case GroupPush(key, push) => Some(GroupDocs(key, push, GroupKeys(key, docs), docs))
    case Project(keepId, bs) => ProjectDocs(keepId, bs, docs)
    case Unwind(f) => Some(UnwindDocs(f, docs))
    case ReplaceRoot(f) => ReplaceRoots(f, docs)
  }

  function Run(stages: seq<Stage>, docs: seq<Document>): Option<seq<Document>> {
    if stages == [] then Some(docs)
    else
      match RunStage(stages[0], docs)
      case Some(out) => Run(stages[1..], out)
      case None => None
  }

  lemma {:induction false} RunConcat(s: seq<Stage>, t: seq<Stage>, docs: seq<Document>)
    ensures Run(s + t, docs) == match Run(s, docs) case Some(out) => Run(t, out) case None => None
  {
    if s == [] {
      assert s + t == t;
    } else {
      assert (s + t)[1..] == s[1..] + t;
      match RunStage(s[0], docs)
      case Some(out) => RunConcat(s[1..], t, out);
      case None =>
    }
  }
}
