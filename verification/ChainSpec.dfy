/**
  The on-chain applications as values: requests, verdicts, the state they keep, and two ways to execute a
  block. The deployed way judges every transaction against committed state plus pending lists and writes
  only at commit; the reference way writes each accepted transaction at once.

  Signature checks and the event hash are parameters. Store, JSON and hash calls are assumed to succeed.
 */
module ChainSpec {
  import opened Prelude
  import RetentionRule

  type Principal = string
  type Key = string
  type EventHash = nat
  type EventBody = string

  const ROLE_ADMIN := "admin"

  datatype Identity = Identity(key: Key, role: string)

  // A request whose inner data does not decode carries None.
  datatype SeedData = SeedData(principal: Principal, key: Key)
  datatype RegisterData = RegisterData(principal: Principal, role: string, key: Key)
  datatype CreateData = CreateData(offChainHash: string, event: EventBody)
  datatype Body =
    | Seed(seed: Option<SeedData>)
    | Register(register: Option<RegisterData>)
    | Create(create: Option<CreateData>)
    | SetPolicy(policy: Option<RetentionRule.Policy>)
    | OtherRequest

  datatype Payload = Payload(body: Body, principal: Principal, signature: string)

  datatype AppName = IdentityName | EventsName | RetentionPolicyName | OtherName

  datatype Tx = Undecodable | Request(app: AppName, payload: Option<Payload>)

  datatype Block = Block(height: nat, time: int, txs: seq<Tx>)

  datatype SigCheck = Malformed | Mismatch | Genuine

  datatype Crypto = Crypto(
    verify: (Key, Payload) -> SigCheck,
    hash: (nat, Principal, EventBody) -> EventHash)

  /** All that is asked of the event hash: events of different heights never share one. */
  ghost predicate HeightSeparating(cr: Crypto) {
    forall h1: nat, p1, e1, h2: nat, p2, e2 :: cr.hash(h1, p1, e1) == cr.hash(h2, p2, e2) ==> h1 == h2
  }

  datatype Code =
    | CodeOk | EncodingError | UnknownApp | UnknownError | InvalidSignature | UnknownRequestType
    | AlreadySeeded | Unauthorized | PrincipalAlreadyExists | DuplicateEvent | PolicyAlreadySet | InvalidPolicy

  datatype EventRecord = EventRecord(
    id: EventHash, receivedTime: int, principal: Principal, offChainHash: string, event: EventBody)

  datatype StoredPolicy = StoredPolicy(policy: RetentionRule.Policy, author: Principal, appliedAt: int)

  datatype ChainState = ChainState(
    identities: map<Principal, Identity>,
    seeded: bool,
    events: map<EventHash, EventRecord>,
    policy: Option<StoredPolicy>)

  const GENESIS := ChainState(map[], false, map[], None)

  /** A deferred write: what the commit closure of an accepted transaction does. */
  datatype CommitOp =
    | StoreSeed(seedPrincipal: Principal, seedIdentity: Identity)
    | StoreIdentity(principal: Principal, identity: Identity)
    | StoreEvent(record: EventRecord)
    | StorePolicy(stored: StoredPolicy)

  function Apply(st: ChainState, op: CommitOp): ChainState {
    match op
    case StoreSeed(p, i) => st.(identities := st.identities[p := i], seeded := true)
    case StoreIdentity(p, i) => st.(identities := st.identities[p := i])
    case StoreEvent(r) => st.(events := st.events[r.id := r])
    case StorePolicy(s) => st.(policy := Some(s))
  }

  function ApplyAll(st: ChainState, ops: seq<CommitOp>): ChainState {
    if ops == [] then st else Apply(ApplyAll(st, ops[..|ops| - 1]), ops[|ops| - 1])
  }

  // ---------- Judging one transaction ----------

  /** What an application looks at when it judges a transaction. */
  datatype View = View(
    identities: map<Principal, Identity>,   // whose signature and role count
    seeded: bool,
    taken: set<Principal>,
    created: set<EventHash>,
    policySet: bool)

  datatype Verdict = Refused(code: Code) | Accepted(op: CommitOp)

  function Authenticate(cr: Crypto, identities: map<Principal, Identity>, p: Payload): Result<Identity, Code> {
    if p.principal !in identities then Err(UnknownError)
    else
      match cr.verify(identities[p.principal].key, p)
      case Malformed => Err(UnknownError)
      case Mismatch => Err(InvalidSignature)
      case Genuine => Ok(identities[p.principal])
  }

  function JudgeIdentity(cr: Crypto, v: View, p: Payload): Verdict {
    if p.body.Seed? then
      if p.body.seed.None? then Refused(EncodingError)
      else if v.seeded then Refused(AlreadySeeded)
      else
        var d := p.body.seed.value;
        Accepted(StoreSeed(d.principal, Identity(d.key, ROLE_ADMIN)))
    else
      match Authenticate(cr, v.identities, p)
      case Err(code) => Refused(code)
      case Ok(requester) =>
        if !p.body.Register? then Refused(UnknownRequestType)
        else if requester.role != ROLE_ADMIN then Refused(Unauthorized)
        else if p.body.register.None? then Refused(EncodingError)
        else
          var d := p.body.register.value;
          if d.principal in v.taken then Refused(PrincipalAlreadyExists)
          else Accepted(StoreIdentity(d.principal, Identity(d.key, d.role)))
  }

  function JudgeEvent(cr: Crypto, v: View, height: nat, time: int, p: Payload): Verdict {
    match Authenticate(cr, v.identities, p)
    case Err(code) => Refused(code)
    case Ok(_) =>
      if !p.body.Create? then Refused(UnknownRequestType)
      else if p.body.create.None? then Refused(EncodingError)
      else
        var d := p.body.create.value;
        var id := cr.hash(height, p.principal, d.event);
        if id in v.created then Refused(DuplicateEvent)
        else Accepted(StoreEvent(EventRecord(id, time, p.principal, d.offChainHash, d.event)))
  }

  function JudgePolicy(cr: Crypto, v: View, time: int, p: Payload): Verdict {
    match Authenticate(cr, v.identities, p)
    case Err(code) => Refused(code)
    case Ok(requester) =>
      if requester.role != ROLE_ADMIN then Refused(Unauthorized)
      else if v.policySet then Refused(PolicyAlreadySet)
      else if !p.body.SetPolicy? then Refused(UnknownRequestType)
      else if p.body.policy.None? then Refused(EncodingError)
      else if !RetentionRule.Valid(p.body.policy.value) then Refused(InvalidPolicy)
      else Accepted(StorePolicy(StoredPolicy(p.body.policy.value, p.principal, time)))
  }

  function Judge(cr: Crypto, v: View, height: nat, time: int, tx: Tx): Verdict {
    match tx
    case Undecodable => Refused(EncodingError)
    case Request(app, payload) =>
      if app.OtherName? then Refused(UnknownApp)
      else if payload.None? then Refused(EncodingError)
      else
        match app
        case IdentityName => JudgeIdentity(cr, v, payload.value)
        case EventsName => JudgeEvent(cr, v, height, time, payload.value)
        case RetentionPolicyName => JudgePolicy(cr, v, time, payload.value)
  }

  function CodeOf(verdict: Verdict): Code {
    match verdict case Refused(c) => c case Accepted(_) => CodeOk
  }

  // ---------- The deployed way: pending lists, then commit ----------

  datatype Pending = Pending(
    seeded: bool, registering: seq<Principal>, creating: seq<EventHash>, policy: Option<StoredPolicy>)

  const NOTHING_PENDING := Pending(false, [], [], None)

  function Enqueue(pend: Pending, op: CommitOp): Pending {
    match op
    case StoreSeed(p, _) => pend.(seeded := true, registering := pend.registering + [p])
    case StoreIdentity(p, _) => pend.(registering := pend.registering + [p])
    case StoreEvent(r) => pend.(creating := pend.creating + [r.id])
    case StorePolicy(s) => pend.(policy := Some(s))
  }

  /** Committed state plus pending lists; created events are looked up in the pending list alone. */
  function PendingView(st: ChainState, pend: Pending): View {
    View(st.identities,
         st.seeded || pend.seeded,
         st.identities.Keys + (set p | p in pend.registering),
         (set id | id in pend.creating),
         st.policy.Some? || pend.policy.Some?)
  }

  datatype Finalized = Finalized(codes: seq<Code>, ops: seq<CommitOp>, pend: Pending)

  function Finalize(cr: Crypto, st: ChainState, pend: Pending, height: nat, time: int, txs: seq<Tx>): (r: Finalized)
    ensures |r.codes| == |txs|
  {
    if txs == [] then Finalized([], [], pend)
    else
      var r := Finalize(cr, st, pend, height, time, txs[..|txs| - 1]);
      var verdict := Judge(cr, PendingView(st, r.pend), height, time, txs[|txs| - 1]);
      match verdict
      case Refused(c) => r.(codes := r.codes + [c])
      case Accepted(op) => Finalized(r.codes + [CodeOk], r.ops + [op], Enqueue(r.pend, op))
  }

  datatype Executed = Executed(codes: seq<Code>, state: ChainState)

  function FinalizeThenCommit(cr: Crypto, st: ChainState, b: Block): Executed {
    var f := Finalize(cr, st, NOTHING_PENDING, b.height, b.time, b.txs);
    Executed(f.codes, ApplyAll(st, f.ops))
  }

  // ---------- The reference way: every accepted transaction is written at once ----------

  /** Authorisation is by the identities of the block's start; everything else is current state. */
  function CurrentView(auth: map<Principal, Identity>, cur: ChainState): View {
    View(auth, cur.seeded, cur.identities.Keys, cur.events.Keys, cur.policy.Some?)
  }

  function Immediate(cr: Crypto, st: ChainState, height: nat, time: int, txs: seq<Tx>): (r: Executed)
    ensures |r.codes| == |txs|
  {
    if txs == [] then Executed([], st)
    else
      var r := Immediate(cr, st, height, time, txs[..|txs| - 1]);
      match Judge(cr, CurrentView(st.identities, r.state), height, time, txs[|txs| - 1])
      case Refused(c) => r.(codes := r.codes + [c])
      case Accepted(op) => Executed(r.codes + [CodeOk], Apply(r.state, op))
  }

  // ---------- Runs ----------

  datatype RunResult = RunResult(codes: seq<seq<Code>>, state: ChainState)

  ghost predicate HeightsIncrease(blocks: seq<Block>) {
    forall i, j :: 0 <= i < j < |blocks| ==> blocks[i].height < blocks[j].height
  }

  /** The chain after any sequence of blocks, from genesis, executed the deployed way. */
  function Chain(cr: Crypto, blocks: seq<Block>): (r: RunResult)
    ensures |r.codes| == |blocks|
    ensures forall k :: 0 <= k < |blocks| ==> |r.codes[k]| == |blocks[k].txs|
  {
    if blocks == [] then RunResult([], GENESIS)
    else
      var r := Chain(cr, blocks[..|blocks| - 1]);
      var e := FinalizeThenCommit(cr, r.state, blocks[|blocks| - 1]);
      RunResult(r.codes + [e.codes], e.state)
  }

  function ImmediateChain(cr: Crypto, blocks: seq<Block>): RunResult {
    if blocks == [] then RunResult([], GENESIS)
    else
      var r := ImmediateChain(cr, blocks[..|blocks| - 1]);
      var b := blocks[|blocks| - 1];
      var e := Immediate(cr, r.state, b.height, b.time, b.txs);
      RunResult(r.codes + [e.codes], e.state)
  }

  // ---------- The two ways agree ----------

  /** Every committed event hash was generated at a height below the given one. */
  ghost predicate EventsBelow(cr: Crypto, st: ChainState, height: nat) {
    forall id :: id in st.events ==> exists h: nat, p: Principal, e: EventBody :: h < height && id == cr.hash(h, p, e)
  }

  ghost predicate PendingMatches(st: ChainState, f: Finalized, cur: ChainState) {
    cur == ApplyAll(st, f.ops) &&
    (cur.seeded <==> st.seeded || f.pend.seeded) &&
    cur.identities.Keys == st.identities.Keys + (set p | p in f.pend.registering) &&
    cur.events.Keys == st.events.Keys + (set id | id in f.pend.creating) &&
    (cur.policy.Some? <==> st.policy.Some? || f.pend.policy.Some?)
  }

  lemma {:induction false} TwoPhaseAgrees(cr: Crypto, st: ChainState, height: nat, time: int, txs: seq<Tx>)
    requires HeightSeparating(cr) && EventsBelow(cr, st, height)
    ensures
      var f, i := Finalize(cr, st, NOTHING_PENDING, height, time, txs), Immediate(cr, st, height, time, txs);
      f.codes == i.codes && PendingMatches(st, f, i.state)
  {
    if txs == [] {
      assert NOTHING_PENDING.registering == [] && NOTHING_PENDING.creating == [];
    } else {
      var before, tx := txs[..|txs| - 1], txs[|txs| - 1];
      TwoPhaseAgrees(cr, st, height, time, before);
      var f, i := Finalize(cr, st, NOTHING_PENDING, height, time, before), Immediate(cr, st, height, time, before);
      SameVerdict(cr, st, f, i.state, height, time, tx);
      match Judge(cr, PendingView(st, f.pend), height, time, tx)
      case Refused(_) =>
      case Accepted(op) => EnqueueMatches(st, f, i.state, op);
    }
  }

  /** The pending lists hide nothing a judgement depends on. */
  lemma SameVerdict(cr: Crypto, st: ChainState, f: Finalized, cur: ChainState, height: nat, time: int, tx: Tx)
    requires HeightSeparating(cr) && EventsBelow(cr, st, height) && PendingMatches(st, f, cur)
    ensures Judge(cr, PendingView(st, f.pend), height, time, tx) ==
            Judge(cr, CurrentView(st.identities, cur), height, time, tx)
  {
    if tx.Request? && tx.app.EventsName? && tx.payload.Some? {
      var p := tx.payload.value;
      if p.body.Create? && p.body.create.Some? {
        NewHashIsFresh(cr, st, height, p.principal, p.body.create.value.event);
      }
    }
  }

  lemma NewHashIsFresh(cr: Crypto, st: ChainState, height: nat, p: Principal, e: EventBody)
    requires HeightSeparating(cr) && EventsBelow(cr, st, height)
    ensures cr.hash(height, p, e) !in st.events
  {
  }

  lemma EnqueueMatches(st: ChainState, f: Finalized, cur: ChainState, op: CommitOp)
    requires PendingMatches(st, f, cur)
    ensures PendingMatches(st, Finalized(f.codes + [CodeOk], f.ops + [op], Enqueue(f.pend, op)), Apply(cur, op))
  {
    assert (f.ops + [op])[..|f.ops|] == f.ops;
  }

  /** A block executed with pending lists and a later commit is a block executed immediately. */
  lemma BlockEquivalence(cr: Crypto, st: ChainState, b: Block)
    requires HeightSeparating(cr) && EventsBelow(cr, st, b.height)
    ensures FinalizeThenCommit(cr, st, b) == Immediate(cr, st, b.height, b.time, b.txs)
  {
    TwoPhaseAgrees(cr, st, b.height, b.time, b.txs);
  }

  lemma {:induction false} ImmediateKeepsEventsBelow(cr: Crypto, st: ChainState, height: nat, time: int, txs: seq<Tx>)
    requires EventsBelow(cr, st, height + 1)
    ensures EventsBelow(cr, Immediate(cr, st, height, time, txs).state, height + 1)
  {
    if txs != [] {
      ImmediateKeepsEventsBelow(cr, st, height, time, txs[..|txs| - 1]);
    }
  }

  lemma {:induction false} ChainEventsBelow(cr: Crypto, blocks: seq<Block>, height: nat)
    requires HeightSeparating(cr) && HeightsIncrease(blocks)
    requires forall i :: 0 <= i < |blocks| ==> blocks[i].height < height
    ensures EventsBelow(cr, Chain(cr, blocks).state, height)
  {
    if blocks != [] {
      var before, b := blocks[..|blocks| - 1], blocks[|blocks| - 1];
      var st := Chain(cr, before).state;
      ChainEventsBelow(cr, before, b.height);
      BlockEquivalence(cr, st, b);
      assert EventsBelow(cr, st, b.height + 1);
      ImmediateKeepsEventsBelow(cr, st, b.height, b.time, b.txs);
    }
  }

  /** Over every run with increasing heights, the deployed chain and the reference chain never differ. */
  lemma {:induction false} ChainEquivalence(cr: Crypto, blocks: seq<Block>)
    requires HeightSeparating(cr) && HeightsIncrease(blocks)
    ensures Chain(cr, blocks) == ImmediateChain(cr, blocks)
  {
    if blocks != [] {
      var before, b := blocks[..|blocks| - 1], blocks[|blocks| - 1];
      ChainEquivalence(cr, before);
      ChainEventsBelow(cr, before, b.height);
      BlockEquivalence(cr, Chain(cr, before).state, b);
    }
  }
}
