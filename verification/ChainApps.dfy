/**
  The multiplexed application and its three sub-applications as they run: each FinalizeBlock judges one
  transaction and remembers what is pending; the multiplexer queues the deferred writes and runs them at
  Commit. Every method is proved against the value-level chain.
 */
module ChainApps {
  import opened Prelude
  import RetentionRule
  import opened ChainSpec

  class IdentityApp {
    const crypto: Crypto
    var identities: map<Principal, Identity>
    var seeded: bool
    var txSeeded: bool
    var txRegistering: seq<Principal>

    constructor (crypto: Crypto)
      ensures this.crypto == crypto && identities == map[] && !seeded && !txSeeded && txRegistering == []
    {
      this.crypto := crypto;
      identities, seeded, txSeeded, txRegistering := map[], false, false, [];
    }

    /** Looks the requester up among the committed identities and checks its signature. */
    method ExtractIdentityData(p: Payload) returns (r: Result<Identity, Code>)
      ensures r == Authenticate(crypto, identities, p)
    {
      if p.principal !in identities {
        return Err(UnknownError);
      }
      var requester := identities[p.principal];
      match crypto.verify(requester.key, p) {
        case Malformed => return Err(UnknownError);
        case Mismatch => return Err(InvalidSignature);
        case Genuine => return Ok(requester);
      }
    }

    method FinalizeBlock(p: Payload) returns (v: Verdict)
      modifies this`txSeeded, this`txRegistering
      ensures forall w: View |
                w.identities == identities && w.seeded == (seeded || old(txSeeded)) &&
                w.taken == identities.Keys + (set x | x in old(txRegistering)) ::
                v == JudgeIdentity(crypto, w, p)
      ensures v.Refused? ==> txSeeded == old(txSeeded) && txRegistering == old(txRegistering)
      ensures v.Accepted? ==>
        (v.op.StoreSeed? && txSeeded && txRegistering == old(txRegistering) + [v.op.seedPrincipal]) ||
        (v.op.StoreIdentity? && txSeeded == old(txSeeded) && txRegistering == old(txRegistering) + [v.op.principal])
    {
      var requester := Identity("", "");
      if !p.body.Seed? {
        var extracted := ExtractIdentityData(p);
        if extracted.Err? {
          return Refused(extracted.error);
        }
        requester := extracted.value;
      }
      match p.body {
        case Seed(None) =>
          return Refused(EncodingError);
        case Seed(Some(d)) =>
          if seeded || txSeeded {
            return Refused(AlreadySeeded);
          }
          txSeeded := true;
          txRegistering := txRegistering + [d.principal];
          return Accepted(StoreSeed(d.principal, Identity(d.key, ROLE_ADMIN)));
        case Register(data) =>
          if requester.role != ROLE_ADMIN {
            return Refused(Unauthorized);
          }
          if data.None? {
            return Refused(EncodingError);
          }
          var d := data.value;
          if d.principal in identities || d.principal in txRegistering {
            return Refused(PrincipalAlreadyExists);
          }
          txRegistering := txRegistering + [d.principal];
          return Accepted(StoreIdentity(d.principal, Identity(d.key, d.role)));
        case _ =>
          return Refused(UnknownRequestType);
      }
    }

    /** The commit closure: forget what is pending, then write. */
    method Commit(principal: Principal, data: Identity, seeding: bool)
      modifies this
      ensures !txSeeded && txRegistering == []
      ensures identities == old(identities)[principal := data] && seeded == (seeding || old(seeded))
    {
      txSeeded, txRegistering := false, [];
      identities := identities[principal := data];
      if seeding {
        seeded := true;
      }
    }
  }

  class EventsApp {
    const identities: IdentityApp
    var events: map<EventHash, EventRecord>
    var txCreating: seq<EventHash>

    constructor (identities: IdentityApp)
      ensures this.identities == identities && events == map[] && txCreating == []
    {
      this.identities := identities;
      events, txCreating := map[], [];
    }

    method FinalizeBlock(height: nat, time: int, p: Payload) returns (v: Verdict)
      modifies this`txCreating
      ensures forall w: View |
                w.identities == identities.identities && w.created == (set x | x in old(txCreating)) ::
                v == JudgeEvent(identities.crypto, w, height, time, p)
      ensures v.Refused? ==> txCreating == old(txCreating)
      ensures v.Accepted? ==> v.op.StoreEvent? && txCreating == old(txCreating) + [v.op.record.id]
    {
      var requester := identities.ExtractIdentityData(p);
      if requester.Err? {
        return Refused(requester.error);
      }
      match p.body {
        case Create(None) =>
          return Refused(EncodingError);
        case Create(Some(d)) =>
          var id := identities.crypto.hash(height, p.principal, d.event);
          if id in txCreating {
            return Refused(DuplicateEvent);
          }
          txCreating := txCreating + [id];
          return Accepted(StoreEvent(EventRecord(id, time, p.principal, d.offChainHash, d.event)));
        case _ =>
          return Refused(UnknownRequestType);
      }
    }

    method Commit(r: EventRecord)
      modifies this
      ensures txCreating == [] && events == old(events)[r.id := r]
    {
      txCreating := [];
      events := events[r.id := r];
    }
  }

  class RetentionPolicyApp {
    const identities: IdentityApp
    var policy: Option<StoredPolicy>
    var txPolicy: Option<StoredPolicy>

    constructor (identities: IdentityApp)
      ensures this.identities == identities && policy.None? && txPolicy.None?
    {
      this.identities := identities;
      policy, txPolicy := None, None;
    }

    method FinalizeBlock(time: int, p: Payload) returns (v: Verdict)
      modifies this`txPolicy
      ensures forall w: View |
                w.identities == identities.identities && w.policySet == (policy.Some? || old(txPolicy).Some?) ::
                v == JudgePolicy(identities.crypto, w, time, p)
      ensures v.Refused? ==> txPolicy == old(txPolicy)
      ensures v.Accepted? ==> v.op.StorePolicy? && txPolicy == Some(v.op.stored)
    {
      var requester := identities.ExtractIdentityData(p);
      if requester.Err? {
        return Refused(requester.error);
      }
      if requester.value.role != ROLE_ADMIN {
        return Refused(Unauthorized);
      }
      if policy.Some? || txPolicy.Some? {
        return Refused(PolicyAlreadySet);
      }
      match p.body {
        case SetPolicy(None) =>
          return Refused(EncodingError);
        case SetPolicy(Some(requested)) =>
          var invalid := RetentionRule.Validate(requested);
          if invalid.Some? {
            return Refused(InvalidPolicy);
          }
          var stored := StoredPolicy(requested, p.principal, time);
          txPolicy := Some(stored);
          return Accepted(StorePolicy(stored));
        case _ =>
          return Refused(UnknownRequestType);
      }
    }

    method Commit(stored: StoredPolicy)
      modifies this
      ensures policy == Some(stored) && txPolicy.None?
    {
      policy := Some(stored);
      txPolicy := None;
    }
  }

  /** Whatever is pending will be forgotten by some queued commit closure of the same application. */
  ghost predicate Covers(ops: seq<CommitOp>, pend: Pending) {
    (pend.seeded || pend.registering != [] ==> exists i :: 0 <= i < |ops| && (ops[i].StoreSeed? || ops[i].StoreIdentity?)) &&
    (pend.creating != [] ==> exists i :: 0 <= i < |ops| && ops[i].StoreEvent?) &&
    (pend.policy.Some? ==> exists i :: 0 <= i < |ops| && ops[i].StorePolicy?)
  }

  lemma CoversOneMore(ops: seq<CommitOp>, pend: Pending, op: CommitOp)
    requires Covers(ops, pend)
    ensures Covers(ops + [op], Enqueue(pend, op))
  {
    var ops' := ops + [op];
    assert ops'[|ops|] == op;
    if i :| 0 <= i < |ops| && (ops[i].StoreSeed? || ops[i].StoreIdentity?) { assert ops'[i] == ops[i]; }
    if i :| 0 <= i < |ops| && ops[i].StoreEvent? { assert ops'[i] == ops[i]; }
    if i :| 0 <= i < |ops| && ops[i].StorePolicy? { assert ops'[i] == ops[i]; }
  }

  lemma {:induction false} FinalizeCovers(cr: Crypto, st: ChainState, height: nat, time: int, txs: seq<Tx>)
    ensures
      var f := Finalize(cr, st, NOTHING_PENDING, height, time, txs);
      Covers(f.ops, f.pend)
  {
    if txs != [] {
      var before := txs[..|txs| - 1];
      FinalizeCovers(cr, st, height, time, before);
      var f := Finalize(cr, st, NOTHING_PENDING, height, time, before);
      match Judge(cr, PendingView(st, f.pend), height, time, txs[|txs| - 1])
      case Refused(_) =>
      case Accepted(op) => CoversOneMore(f.ops, f.pend, op);
    }
  }

  /** Every commit closure first resets what its own application has pending. */
  function Forget(pend: Pending, op: CommitOp): Pending {
    match op
    case StoreSeed(_, _) => pend.(seeded := false, registering := [])
    case StoreIdentity(_, _) => pend.(seeded := false, registering := [])
    case StoreEvent(_) => pend.(creating := [])
    case StorePolicy(_) => pend.(policy := None)
  }

  lemma CoversRest(ops: seq<CommitOp>, i: nat, pend: Pending)
    requires i < |ops| && Covers(ops[i..], pend)
    ensures Covers(ops[i + 1..], Forget(pend, ops[i]))
  {
    var now, rest := ops[i..], ops[i + 1..];
    assert forall k :: 0 <= k < |rest| ==> rest[k] == now[k + 1];
    assert now[0] == ops[i];
  }

  class MultiplexedApplication {
    const identity: IdentityApp
    const events: EventsApp
    const retention: RetentionPolicyApp
    var commitFuncs: seq<CommitOp>
    var height: nat

    ghost predicate Valid()
      reads this
    {
      events.identities == identity && retention.identities == identity
    }

    ghost function State(): ChainState
      reads this, identity, events, retention
    {
      ChainState(identity.identities, identity.seeded, events.events, retention.policy)
    }

    ghost function Pend(): Pending
      reads this, identity, events, retention
    {
      Pending(identity.txSeeded, identity.txRegistering, events.txCreating, retention.txPolicy)
    }

    constructor (crypto: Crypto)
      ensures Valid() && fresh(identity) && fresh(events) && fresh(retention) && identity.crypto == crypto
      ensures State() == GENESIS && Pend() == NOTHING_PENDING && commitFuncs == []
    {
      var app := new IdentityApp(crypto);
      identity := app;
      events := new EventsApp(app);
      retention := new RetentionPolicyApp(app);
      commitFuncs, height := [], 0;
    }

    /** Routes one transaction to its application. */
    method Route(height: nat, time: int, tx: Tx) returns (v: Verdict)
      requires Valid()
      modifies identity`txSeeded, identity`txRegistering, events`txCreating, retention`txPolicy
      ensures v == Judge(identity.crypto, PendingView(old(State()), old(Pend())), height, time, tx)
      ensures State() == old(State())
      ensures Pend() == if v.Accepted? then Enqueue(old(Pend()), v.op) else old(Pend())
    {
      match tx {
        case Undecodable => return Refused(EncodingError);
        case Request(app, payload) =>
          if app.OtherName? { return Refused(UnknownApp); }
          if payload.None? { return Refused(EncodingError); }
          match app {
            case IdentityName => v := identity.FinalizeBlock(payload.value);
            case EventsName => v := events.FinalizeBlock(height, time, payload.value);
            case RetentionPolicyName => v := retention.FinalizeBlock(time, payload.value);
          }
      }
    }

    /** Judges the whole block, writing nothing; the accepted writes are queued in order. */
    method FinalizeBlock(b: Block) returns (results: seq<Code>)
      requires Valid() && Pend() == NOTHING_PENDING
      modifies this`commitFuncs, this`height
      modifies identity`txSeeded, identity`txRegistering, events`txCreating, retention`txPolicy
      ensures Valid() && State() == old(State()) && height == b.height
      ensures
        var f := Finalize(identity.crypto, State(), NOTHING_PENDING, b.height, b.time, b.txs);
        results == f.codes && commitFuncs == f.ops && Pend() == f.pend
      ensures Covers(commitFuncs, Pend())
    {
      commitFuncs, results := [], [];
      for i := 0 to |b.txs|
        invariant Valid() && State() == old(State())
        invariant Finalized(results, commitFuncs, Pend()) ==
                  Finalize(identity.crypto, State(), NOTHING_PENDING, b.height, b.time, b.txs[..i])
      {
        var v := Route(b.height, b.time, b.txs[i]);
        assert b.txs[..i + 1][..i] == b.txs[..i];
        match v {
          case Refused(code) =>
            results := results + [code];
          case Accepted(op) =>
            results := results + [CodeOk];
            commitFuncs := commitFuncs + [op];
        }
      }
      assert b.txs[..|b.txs|] == b.txs;
      FinalizeCovers(identity.crypto, State(), b.height, b.time, b.txs);
      height := b.height;
    }

    method RunCommitFunc(op: CommitOp)
      requires Valid()
      modifies identity, events, retention
      ensures State() == Apply(old(State()), op) && Pend() == Forget(old(Pend()), op)
    {
      match op {
        case StoreSeed(p, data) => identity.Commit(p, data, true);
        case StoreIdentity(p, data) => identity.Commit(p, data, false);
        case StoreEvent(r) => events.Commit(r);
        case StorePolicy(s) => retention.Commit(s);
      }
    }

    /** Runs the queued writes in order; afterwards nothing is pending. */
    method Commit()
      requires Valid() && Covers(commitFuncs, Pend())
      modifies identity, events, retention
      ensures Valid() && State() == ApplyAll(old(State()), commitFuncs)
      ensures Pend() == NOTHING_PENDING
    {
      assert commitFuncs[0..] == commitFuncs;
      for i := 0 to |commitFuncs|
        invariant Valid() && State() == ApplyAll(old(State()), commitFuncs[..i])
        invariant Covers(commitFuncs[i..], Pend())
      {
        assert commitFuncs[..i + 1][..i] == commitFuncs[..i];
        CoversRest(commitFuncs, i, Pend());
        RunCommitFunc(commitFuncs[i]);
      }
      assert commitFuncs[..|commitFuncs|] == commitFuncs;
    }

    /** One block through both phases: the value-level chain's block execution, ready for the next block. */
    method RunBlock(b: Block) returns (results: seq<Code>)
      requires Valid() && Pend() == NOTHING_PENDING
      modifies this`commitFuncs, this`height, identity, events, retention
      ensures Valid() && Pend() == NOTHING_PENDING && height == b.height
      ensures Executed(results, State()) == FinalizeThenCommit(identity.crypto, old(State()), b)
    {
      results := FinalizeBlock(b);
      Commit();
    }
  }
}
