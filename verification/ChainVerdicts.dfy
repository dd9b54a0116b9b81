/**
  What the chain's result codes mean: for every transaction of every block, from the block's start state, the
  state the transaction meets and the signature check alone. And what an accepted transaction writes.
 */
module ChainVerdicts {
  import opened Prelude
  import RetentionRule
  import opened ChainSpec

  // ---------- What a transaction asks for ----------

  /** A request that some application decodes. */
  ghost predicate Decoded(tx: Tx) { tx.Request? && !tx.app.OtherName? && tx.payload.Some? }

  ghost predicate Seeds(tx: Tx) { Decoded(tx) && tx.app.IdentityName? && tx.payload.value.body.Seed? }

  ghost predicate Registers(tx: Tx) { Decoded(tx) && tx.app.IdentityName? && tx.payload.value.body.Register? }

  ghost predicate CreatesEvent(tx: Tx) { Decoded(tx) && tx.app.EventsName? && tx.payload.value.body.Create? }

  ghost predicate SetsPolicy(tx: Tx) { Decoded(tx) && tx.app.RetentionPolicyName? && tx.payload.value.body.SetPolicy? }

  /** The application knows the request. */
  ghost predicate Understood(tx: Tx) { Seeds(tx) || Registers(tx) || CreatesEvent(tx) || SetsPolicy(tx) }

  /** The request's own data decodes. */
  ghost predicate Complete(tx: Tx)
    requires Decoded(tx)
  {
    match tx.payload.value.body
    case Seed(d) => d.Some?
    case Register(d) => d.Some?
    case Create(d) => d.Some?
    case SetPolicy(d) => d.Some?
    case OtherRequest => false
  }

  // ---------- On whose authority ----------

  /** Everything but the seed needs a signature. */
  ghost predicate NeedsSignature(tx: Tx) { Decoded(tx) && !Seeds(tx) }

  /** What the signature check says under the key that the named principal had at the block's start; None if it had none. */
  ghost function Checked(cr: Crypto, start: ChainState, tx: Tx): Option<SigCheck>
    requires Decoded(tx)
  {
    var p := tx.payload.value;
    if p.principal in start.identities then Some(cr.verify(start.identities[p.principal].key, p)) else None
  }

  ghost predicate Signed(cr: Crypto, start: ChainState, tx: Tx) {
    NeedsSignature(tx) && Checked(cr, start, tx) == Some(Genuine)
  }

  ghost predicate ByAdmin(cr: Crypto, start: ChainState, tx: Tx) {
    Signed(cr, start, tx) && start.identities[tx.payload.value.principal].role == "admin"
  }

  ghost function EventIdOf(cr: Crypto, height: nat, tx: Tx): EventHash
    requires CreatesEvent(tx) && Complete(tx)
  {
    cr.hash(height, tx.payload.value.principal, tx.payload.value.body.create.value.event)
  }

  // ---------- The codes ----------

  /** What a code says of a transaction that meets state cur in a block that started from start. */
  ghost predicate Means(cr: Crypto, start: ChainState, cur: ChainState, height: nat, tx: Tx, code: Code) {
    match code
    case CodeOk =>
      Understood(tx) && Complete(tx) &&
      (Seeds(tx) ==> !cur.seeded) &&
      (Registers(tx) ==> ByAdmin(cr, start, tx) && tx.payload.value.body.register.value.principal !in cur.identities) &&
      (CreatesEvent(tx) ==> Signed(cr, start, tx) && EventIdOf(cr, height, tx) !in cur.events) &&
      (SetsPolicy(tx) ==>
         ByAdmin(cr, start, tx) && cur.policy.None? && RetentionRule.Valid(tx.payload.value.body.policy.value))
    case UnknownApp => tx.Request? && tx.app.OtherName?
    case UnknownError => NeedsSignature(tx) && (Checked(cr, start, tx) == None || Checked(cr, start, tx) == Some(Malformed))
    case InvalidSignature => NeedsSignature(tx) && Checked(cr, start, tx) == Some(Mismatch)
    case AlreadySeeded => Seeds(tx) && Complete(tx) && cur.seeded
    case Unauthorized =>
      Signed(cr, start, tx) && !ByAdmin(cr, start, tx) && (Registers(tx) || tx.app.RetentionPolicyName?)
    case PrincipalAlreadyExists =>
      Registers(tx) && Complete(tx) && ByAdmin(cr, start, tx) && tx.payload.value.body.register.value.principal in cur.identities
    case DuplicateEvent => CreatesEvent(tx) && Complete(tx) && Signed(cr, start, tx) && EventIdOf(cr, height, tx) in cur.events
    case PolicyAlreadySet => Decoded(tx) && tx.app.RetentionPolicyName? && ByAdmin(cr, start, tx) && cur.policy.Some?
    case InvalidPolicy =>
      SetsPolicy(tx) && Complete(tx) && ByAdmin(cr, start, tx) && cur.policy.None? &&
      !RetentionRule.Valid(tx.payload.value.body.policy.value)
    case UnknownRequestType =>
      Decoded(tx) && !Understood(tx) && Signed(cr, start, tx) &&
      (tx.app.RetentionPolicyName? ==> ByAdmin(cr, start, tx) && cur.policy.None?)
    case EncodingError =>
      !tx.Request? || (!tx.app.OtherName? && tx.payload.None?) ||
      (Understood(tx) && !Complete(tx) && (NeedsSignature(tx) ==> Signed(cr, start, tx)) &&
       (Registers(tx) || SetsPolicy(tx) ==> ByAdmin(cr, start, tx)) && (SetsPolicy(tx) ==> cur.policy.None?))
  }

  /** What a transaction with its code leaves behind: if accepted, the data it asked for, and nothing else changes. */
  ghost function Written(cr: Crypto, cur: ChainState, height: nat, time: int, tx: Tx, code: Code): ChainState {
    if code != CodeOk || !Understood(tx) || !Complete(tx) then cur
    else
      var p := tx.payload.value;
      match p.body
      case Seed(Some(d)) => cur.(seeded := true, identities := cur.identities[d.principal := Identity(d.key, "admin")])
      case Register(Some(d)) => cur.(identities := cur.identities[d.principal := Identity(d.key, d.role)])
      case Create(Some(d)) =>
        var id := EventIdOf(cr, height, tx);
        cur.(events := cur.events[id := EventRecord(id, time, p.principal, d.offChainHash, d.event)])
      case SetPolicy(Some(policy)) => cur.(policy := Some(StoredPolicy(policy, p.principal, time)))
  }

  /** The state that transaction i of a block meets, as the codes of those before it tell. */
  ghost function Replayed(cr: Crypto, start: ChainState, b: Block, codes: seq<Code>, i: nat): ChainState
    requires i <= |b.txs| == |codes|
  {
    if i == 0 then start
    else Written(cr, Replayed(cr, start, b, codes, i - 1), b.height, b.time, b.txs[i - 1], codes[i - 1])
  }

  // ---------- One transaction ----------

  lemma IdentityVerdictMeans(cr: Crypto, start: ChainState, cur: ChainState, height: nat, tx: Tx, code: Code)
    requires Decoded(tx) && tx.app.IdentityName?
    ensures CodeOf(JudgeIdentity(cr, CurrentView(start.identities, cur), tx.payload.value)) == code <==>
            Means(cr, start, cur, height, tx, code)
  {
  }

  lemma EventVerdictMeans(cr: Crypto, start: ChainState, cur: ChainState, height: nat, time: int, tx: Tx, code: Code)
    requires Decoded(tx) && tx.app.EventsName?
    ensures CodeOf(JudgeEvent(cr, CurrentView(start.identities, cur), height, time, tx.payload.value)) == code <==>
            Means(cr, start, cur, height, tx, code)
  {
  }

  lemma PolicyVerdictMeans(cr: Crypto, start: ChainState, cur: ChainState, height: nat, time: int, tx: Tx, code: Code)
    requires Decoded(tx) && tx.app.RetentionPolicyName?
    ensures CodeOf(JudgePolicy(cr, CurrentView(start.identities, cur), time, tx.payload.value)) == code <==>
            Means(cr, start, cur, height, tx, code)
  {
  }

  lemma VerdictMeans(cr: Crypto, start: ChainState, cur: ChainState, height: nat, time: int, tx: Tx, code: Code)
    ensures CodeOf(Judge(cr, CurrentView(start.identities, cur), height, time, tx)) == code <==>
            Means(cr, start, cur, height, tx, code)
  {
    if Decoded(tx) {
      match tx.app
      case IdentityName => IdentityVerdictMeans(cr, start, cur, height, tx, code);
      case EventsName => EventVerdictMeans(cr, start, cur, height, time, tx, code);
      case RetentionPolicyName => PolicyVerdictMeans(cr, start, cur, height, time, tx, code);
    }
  }

  lemma VerdictWrites(cr: Crypto, start: ChainState, cur: ChainState, height: nat, time: int, tx: Tx)
    ensures
      var v := Judge(cr, CurrentView(start.identities, cur), height, time, tx);
      Written(cr, cur, height, time, tx, CodeOf(v)) == if v.Accepted? then Apply(cur, v.op) else cur
  {
  }

  // ---------- One block ----------

  /** The execution of the first i transactions of a block. */
  ghost function Before(cr: Crypto, st: ChainState, b: Block, i: nat): Executed
    requires i <= |b.txs|
  {
    Immediate(cr, st, b.height, b.time, b.txs[..i])
  }

  lemma BeforeNext(cr: Crypto, st: ChainState, b: Block, i: nat)
    requires i < |b.txs|
    ensures
      var r := Before(cr, st, b, i);
      var v := Judge(cr, CurrentView(st.identities, r.state), b.height, b.time, b.txs[i]);
      Before(cr, st, b, i + 1) == Executed(r.codes + [CodeOf(v)], if v.Accepted? then Apply(r.state, v.op) else r.state)
  {
    assert b.txs[..i + 1][..i] == b.txs[..i];
  }

  lemma {:induction false} CodesSoFar(cr: Crypto, st: ChainState, b: Block, i: nat)
    requires i <= |b.txs|
    ensures Before(cr, st, b, i).codes == Immediate(cr, st, b.height, b.time, b.txs).codes[..i]
    decreases |b.txs| - i
  {
    if i == |b.txs| {
      assert b.txs[..i] == b.txs;
    } else {
      var codes, c := Before(cr, st, b, i).codes, Before(cr, st, b, i + 1).codes;
      BeforeNext(cr, st, b, i);
      CodesSoFar(cr, st, b, i + 1);
      assert c[..i] == codes;
    }
  }

  lemma NextCode(cr: Crypto, st: ChainState, b: Block, i: nat)
    requires i < |b.txs|
    ensures
      var r := Before(cr, st, b, i);
      var v := Judge(cr, CurrentView(st.identities, r.state), b.height, b.time, b.txs[i]);
      Immediate(cr, st, b.height, b.time, b.txs).codes[i] == CodeOf(v) &&
      Before(cr, st, b, i + 1).state == if v.Accepted? then Apply(r.state, v.op) else r.state
  {
    BeforeNext(cr, st, b, i);
    CodesSoFar(cr, st, b, i + 1);
    assert Before(cr, st, b, i + 1).codes[i] == Immediate(cr, st, b.height, b.time, b.txs).codes[..i + 1][i];
  }

  lemma {:induction false} ReplayedIsExecuted(cr: Crypto, st: ChainState, b: Block, i: nat)
    requires i <= |b.txs|
    ensures Replayed(cr, st, b, Immediate(cr, st, b.height, b.time, b.txs).codes, i) ==
            Before(cr, st, b, i).state
  {
    if i == 0 {
      assert b.txs[..0] == [];
    } else {
      ReplayedIsExecuted(cr, st, b, i - 1);
      NextCode(cr, st, b, i - 1);
      VerdictWrites(cr, st, Before(cr, st, b, i - 1).state, b.height, b.time, b.txs[i - 1]);
    }
  }

  // ---------- Every chain ----------

  ghost function StartOf(cr: Crypto, blocks: seq<Block>, k: nat): ChainState
    requires k <= |blocks|
  {
    Chain(cr, blocks[..k]).state
  }

  /** The state that transaction i of block k meets. */
  ghost function Met(cr: Crypto, blocks: seq<Block>, k: nat, i: nat): ChainState
    requires k < |blocks| && i <= |blocks[k].txs|
  {
    Replayed(cr, StartOf(cr, blocks, k), blocks[k], Chain(cr, blocks).codes[k], i)
  }

  lemma {:induction false} CodesStay(cr: Crypto, blocks: seq<Block>, k: nat)
    requires k < |blocks|
    ensures Chain(cr, blocks).codes[k] == Chain(cr, blocks[..k + 1]).codes[k]
    decreases |blocks|
  {
    var n := |blocks| - 1;
    if k < n {
      CodesStay(cr, blocks[..n], k);
      assert blocks[..n][..k + 1] == blocks[..k + 1];
    } else {
      assert blocks[..k + 1] == blocks;
    }
  }

  lemma LastBlock(cr: Crypto, blocks: seq<Block>)
    requires HeightSeparating(cr) && HeightsIncrease(blocks) && blocks != []
    ensures
      var n := |blocks| - 1;
      var st, b, r := Chain(cr, blocks[..n]).state, blocks[n], Chain(cr, blocks);
      Executed(r.codes[n], r.state) == Immediate(cr, st, b.height, b.time, b.txs)
  {
    var n := |blocks| - 1;
    ChainEventsBelow(cr, blocks[..n], blocks[n].height);
    BlockEquivalence(cr, Chain(cr, blocks[..n]).state, blocks[n]);
  }

  lemma CodesOfBlock(cr: Crypto, blocks: seq<Block>, k: nat)
    requires HeightSeparating(cr) && HeightsIncrease(blocks) && k < |blocks|
    ensures
      var b, start := blocks[k], StartOf(cr, blocks, k);
      var r := Immediate(cr, start, b.height, b.time, b.txs);
      Chain(cr, blocks).codes[k] == r.codes && StartOf(cr, blocks, k + 1) == r.state
  {
    CodesStay(cr, blocks, k);
    LastBlock(cr, blocks[..k + 1]);
    assert blocks[..k + 1][..k] == blocks[..k];
  }

  /**
    In every chain, every code means what it says: transaction i of block k has a code exactly when the code's
    condition holds of the block's start state and the state the transaction meets. The block leaves the state
    that its codes tell.
   */
  lemma CodesMean(cr: Crypto, blocks: seq<Block>, k: nat, i: nat, code: Code)
    requires HeightSeparating(cr) && HeightsIncrease(blocks) && k < |blocks| && i < |blocks[k].txs|
    ensures Chain(cr, blocks).codes[k][i] == code <==>
            Means(cr, StartOf(cr, blocks, k), Met(cr, blocks, k, i), blocks[k].height, blocks[k].txs[i], code)
    ensures StartOf(cr, blocks, k + 1) == Met(cr, blocks, k, |blocks[k].txs|)
  {
    var b, start := blocks[k], StartOf(cr, blocks, k);
    CodesOfBlock(cr, blocks, k);
    ReplayedIsExecuted(cr, start, b, i);
    NextCode(cr, start, b, i);
    VerdictMeans(cr, start, Met(cr, blocks, k, i), b.height, b.time, b.txs[i], code);
    ReplayedIsExecuted(cr, start, b, |b.txs|);
    assert b.txs[..|b.txs|] == b.txs;
  }

  /**
    No accepted transaction but the seed is without a genuine signature of a principal known at the block's
    start; and a signature that does not match is answered so, and changes nothing.
   */
  lemma OnlySignedRequestsPass(cr: Crypto, blocks: seq<Block>, k: nat, i: nat)
    requires HeightSeparating(cr) && HeightsIncrease(blocks) && k < |blocks| && i < |blocks[k].txs|
    ensures
      var tx, code, identities := blocks[k].txs[i], Chain(cr, blocks).codes[k][i], StartOf(cr, blocks, k).identities;
      (code == CodeOk && !Seeds(tx) ==>
        Decoded(tx) &&
        var p := tx.payload.value;
        p.principal in identities && cr.verify(identities[p.principal].key, p) == Genuine) &&
      (NeedsSignature(tx) && tx.payload.value.principal in identities &&
       cr.verify(identities[tx.payload.value.principal].key, tx.payload.value) == Mismatch ==>
        code == InvalidSignature && Met(cr, blocks, k, i + 1) == Met(cr, blocks, k, i))
  {
    CodesMean(cr, blocks, k, i, CodeOk);
    CodesMean(cr, blocks, k, i, InvalidSignature);
  }

  // ---------- What is stored was asked for ----------

  /** Transaction i of block k was accepted and asked for this event. */
  ghost predicate AskedForEvent(cr: Crypto, blocks: seq<Block>, k: nat, i: nat, r: EventRecord) {
    k < |blocks| && i < |blocks[k].txs| && Chain(cr, blocks).codes[k][i] == CodeOk &&
    var tx := blocks[k].txs[i];
    CreatesEvent(tx) && Complete(tx) && Signed(cr, StartOf(cr, blocks, k), tx) &&
    var d := tx.payload.value.body.create.value;
    r == EventRecord(EventIdOf(cr, blocks[k].height, tx), blocks[k].time, tx.payload.value.principal, d.offChainHash, d.event)
  }

  /** Transaction i of block k was accepted, came from an admin and asked for this policy. */
  ghost predicate AskedForPolicy(cr: Crypto, blocks: seq<Block>, k: nat, i: nat, s: StoredPolicy) {
    k < |blocks| && i < |blocks[k].txs| && Chain(cr, blocks).codes[k][i] == CodeOk &&
    var tx := blocks[k].txs[i];
    SetsPolicy(tx) && Complete(tx) && ByAdmin(cr, StartOf(cr, blocks, k), tx) &&
    s == StoredPolicy(tx.payload.value.body.policy.value, tx.payload.value.principal, blocks[k].time)
  }

  ghost predicate EventAsked(cr: Crypto, blocks: seq<Block>, r: EventRecord) {
    exists k, i :: AskedForEvent(cr, blocks, k, i, r)
  }

  ghost predicate PolicyAsked(cr: Crypto, blocks: seq<Block>, s: StoredPolicy) {
    exists k, i :: AskedForPolicy(cr, blocks, k, i, s)
  }

  ghost predicate EventsAsked(cr: Crypto, blocks: seq<Block>, events: map<EventHash, EventRecord>) {
    forall id :: id in events ==> events[id].id == id && EventAsked(cr, blocks, events[id])
  }

  /** Whatever a state holds was asked for. */
  ghost predicate AllAsked(cr: Crypto, blocks: seq<Block>, st: ChainState) {
    EventsAsked(cr, blocks, st.events) && (st.policy.Some? ==> PolicyAsked(cr, blocks, st.policy.value))
  }

  lemma WrittenIsNewOrOld(cr: Crypto, cur: ChainState, height: nat, time: int, tx: Tx, code: Code)
    ensures
      var next := Written(cr, cur, height, time, tx, code);
      (next.events != cur.events ==>
        code == CodeOk && CreatesEvent(tx) && Complete(tx) &&
        var id, d := EventIdOf(cr, height, tx), tx.payload.value.body.create.value;
        next.events == cur.events[id := EventRecord(id, time, tx.payload.value.principal, d.offChainHash, d.event)]) &&
      (next.policy != cur.policy ==>
        code == CodeOk && SetsPolicy(tx) && Complete(tx) &&
        next.policy == Some(StoredPolicy(tx.payload.value.body.policy.value, tx.payload.value.principal, time)))
  {
  }

  lemma OneMoreAsked(cr: Crypto, blocks: seq<Block>, events: map<EventHash, EventRecord>, k: nat, i: nat, r: EventRecord)
    requires EventsAsked(cr, blocks, events) && AskedForEvent(cr, blocks, k, i, r)
    ensures EventsAsked(cr, blocks, events[r.id := r])
  {
  }

  lemma WrittenWasAsked(cr: Crypto, blocks: seq<Block>, k: nat, i: nat)
    requires HeightSeparating(cr) && HeightsIncrease(blocks) && k < |blocks| && i < |blocks[k].txs|
    requires AllAsked(cr, blocks, Met(cr, blocks, k, i))
    ensures AllAsked(cr, blocks, Met(cr, blocks, k, i + 1))
  {
    CodesMean(cr, blocks, k, i, CodeOk);
    var tx, b, cur, next := blocks[k].txs[i], blocks[k], Met(cr, blocks, k, i), Met(cr, blocks, k, i + 1);
    WrittenIsNewOrOld(cr, cur, b.height, b.time, tx, Chain(cr, blocks).codes[k][i]);
    if next.events != cur.events {
      OneMoreAsked(cr, blocks, cur.events, k, i, next.events[EventIdOf(cr, b.height, tx)]);
    }
    if next.policy != cur.policy {
      assert AskedForPolicy(cr, blocks, k, i, next.policy.value);
    }
  }

  lemma {:induction false} BlockWasAsked(cr: Crypto, blocks: seq<Block>, k: nat, i: nat)
    requires HeightSeparating(cr) && HeightsIncrease(blocks) && k < |blocks| && i <= |blocks[k].txs|
    requires AllAsked(cr, blocks, StartOf(cr, blocks, k))
    ensures AllAsked(cr, blocks, Met(cr, blocks, k, i))
  {
    if i > 0 {
      BlockWasAsked(cr, blocks, k, i - 1);
      WrittenWasAsked(cr, blocks, k, i - 1);
    }
  }

  lemma {:induction false} ChainWasAsked(cr: Crypto, blocks: seq<Block>, k: nat)
    requires HeightSeparating(cr) && HeightsIncrease(blocks) && k <= |blocks|
    ensures AllAsked(cr, blocks, StartOf(cr, blocks, k))
  {
    if k > 0 {
      ChainWasAsked(cr, blocks, k - 1);
      BlockWasAsked(cr, blocks, k - 1, |blocks[k - 1].txs|);
      EndOfBlock(cr, blocks, k - 1);
    }
  }

  lemma EndOfBlock(cr: Crypto, blocks: seq<Block>, k: nat)
    requires HeightSeparating(cr) && HeightsIncrease(blocks) && k < |blocks|
    ensures StartOf(cr, blocks, k + 1) == Met(cr, blocks, k, |blocks[k].txs|)
  {
    var b := blocks[k];
    CodesOfBlock(cr, blocks, k);
    ReplayedIsExecuted(cr, StartOf(cr, blocks, k), b, |b.txs|);
    assert b.txs[..|b.txs|] == b.txs;
  }

  /**
    Every event on the chain holds what some accepted transaction asked for, signed by the principal it names,
    and the policy is the one that an admin asked for.
   */
  lemma StoredWasAskedFor(cr: Crypto, blocks: seq<Block>)
    requires HeightSeparating(cr) && HeightsIncrease(blocks)
    ensures AllAsked(cr, blocks, Chain(cr, blocks).state)
  {
    ChainWasAsked(cr, blocks, |blocks|);
    assert blocks[..|blocks|] == blocks;
  }
}
