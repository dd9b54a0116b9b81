/**
  What every run of the chain keeps: nothing committed is ever overwritten, identities form a tree of
  registrations rooted at the single seed, and a cached retention policy stays true.
 */
module ChainHistory {
  import opened Prelude
  import RetentionRule
  import opened ChainSpec

  // ---------- Nothing is overwritten ----------

  ghost predicate SubMap<K, V>(a: map<K, V>, b: map<K, V>) {
    forall k :: k in a ==> k in b && b[k] == a[k]
  }

  /** Everything committed in a is still there, unchanged, in b. */
  ghost predicate Preserves(a: ChainState, b: ChainState) {
    SubMap(a.identities, b.identities) && SubMap(a.events, b.events) &&
    (a.seeded ==> b.seeded) && (a.policy.Some? ==> b.policy == a.policy)
  }

  /** An unseeded chain has no principals, and a stored policy is a valid one. */
  ghost predicate Sound(st: ChainState) {
    (!st.seeded ==> st.identities == map[]) &&
    (st.policy.Some? ==> RetentionRule.Valid(st.policy.value.policy))
  }

  predicate IsCreate(tx: Tx) {
    tx.Request? && tx.app.EventsName? && tx.payload.Some? && tx.payload.value.body.Create?
  }

  /** How many of the block's transactions were accepted event creations. */
  function Creates(txs: seq<Tx>, codes: seq<Code>): nat
    requires |txs| == |codes|
  {
    if txs == [] then 0
    else
      Creates(txs[..|txs| - 1], codes[..|txs| - 1]) +
      (if IsCreate(txs[|txs| - 1]) && codes[|txs| - 1] == CodeOk then 1 else 0)
  }

  function AllCreates(blocks: seq<Block>, codes: seq<seq<Code>>): nat
    requires |blocks| == |codes|
    requires forall k :: 0 <= k < |blocks| ==> |codes[k]| == |blocks[k].txs|
  {
    if blocks == [] then 0
    else
      var n := |blocks| - 1;
      AllCreates(blocks[..n], codes[..n]) + Creates(blocks[n].txs, codes[n])
  }

  /** One immediately executed transaction: writes only where nothing was. */
  lemma WriteOnce(cr: Crypto, auth: map<Principal, Identity>, cur: ChainState, height: nat, time: int, tx: Tx)
    requires Sound(cur) && (!cur.seeded ==> auth == map[])
    ensures
      var v := Judge(cr, CurrentView(auth, cur), height, time, tx);
      v.Accepted? ==>
        var next := Apply(cur, v.op);
        Sound(next) && Preserves(cur, next) &&
        |next.events| == |cur.events| + (if IsCreate(tx) then 1 else 0)
  {
  }

  lemma {:induction false} BlockWritesOnce(cr: Crypto, st: ChainState, height: nat, time: int, txs: seq<Tx>)
    requires Sound(st)
    ensures
      var r := Immediate(cr, st, height, time, txs);
      Sound(r.state) && Preserves(st, r.state) && |r.state.events| == |st.events| + Creates(txs, r.codes)
  {
    if txs != [] {
      var before, tx := txs[..|txs| - 1], txs[|txs| - 1];
      BlockWritesOnce(cr, st, height, time, before);
      var r := Immediate(cr, st, height, time, before);
      WriteOnce(cr, st.identities, r.state, height, time, tx);
      var codes := Immediate(cr, st, height, time, txs).codes;
      assert codes[..|txs| - 1] == r.codes;
    }
  }

  lemma PreservesTransitive(a: ChainState, b: ChainState, c: ChainState)
    requires Preserves(a, b) && Preserves(b, c)
    ensures Preserves(a, c)
  {
  }

  lemma {:induction false} ChainStepPreserves(cr: Crypto, blocks: seq<Block>)
    requires HeightSeparating(cr) && HeightsIncrease(blocks)
    ensures Sound(Chain(cr, blocks).state)
    ensures |Chain(cr, blocks).state.events| == AllCreates(blocks, Chain(cr, blocks).codes)
    ensures blocks != [] ==> Preserves(Chain(cr, blocks[..|blocks| - 1]).state, Chain(cr, blocks).state)
  {
    if blocks != [] {
      var n := |blocks| - 1;
      var before, b := blocks[..n], blocks[n];
      ChainStepPreserves(cr, before);
      ChainEventsBelow(cr, before, b.height);
      BlockEquivalence(cr, Chain(cr, before).state, b);
      BlockWritesOnce(cr, Chain(cr, before).state, b.height, b.time, b.txs);
      assert Chain(cr, blocks).codes[..n] == Chain(cr, before).codes;
    }
  }

  /**
    Over every run, every identity, event and policy committed by some block is still there, unchanged, at
    the end.
   */
  lemma {:induction false} NothingIsOverwritten(cr: Crypto, blocks: seq<Block>, k: nat)
    requires HeightSeparating(cr) && HeightsIncrease(blocks) && k <= |blocks|
    ensures Preserves(Chain(cr, blocks[..k]).state, Chain(cr, blocks).state)
  {
    if k == |blocks| {
      assert blocks[..k] == blocks;
    } else {
      var before := blocks[..|blocks| - 1];
      var a, b, c := Chain(cr, blocks[..k]).state, Chain(cr, before).state, Chain(cr, blocks).state;
      assert Preserves(a, b) by {
        NothingIsOverwritten(cr, before, k);
        assert before[..k] == blocks[..k];
      }
      assert Preserves(b, c) by { ChainStepPreserves(cr, blocks); }
      PreservesTransitive(a, b, c);
    }
  }

  // ---------- The registration tree ----------

  /** An identity as the chain's results show it: at which height, by whom (nobody, for the seed). */
  datatype Entry = Entry(height: nat, principal: Principal, identity: Identity, registrar: Option<Principal>)

  function TxEntries(height: nat, tx: Tx, code: Code): seq<Entry> {
    if code != CodeOk || !tx.Request? || !tx.app.IdentityName? || tx.payload.None? then []
    else
      var p := tx.payload.value;
      match p.body
      case Seed(Some(d)) => [Entry(height, d.principal, Identity(d.key, ROLE_ADMIN), None)]
      case Register(Some(d)) => [Entry(height, d.principal, Identity(d.key, d.role), Some(p.principal))]
      case _ => []
  }

  function BlockLog(height: nat, txs: seq<Tx>, codes: seq<Code>): seq<Entry>
    requires |txs| == |codes|
  {
    if txs == [] then []
    else
      var n := |txs| - 1;
      BlockLog(height, txs[..n], codes[..n]) + TxEntries(height, txs[n], codes[n])
  }

  /** All identities ever accepted, oldest first, read off the transactions and their result codes. */
  function ChainLog(blocks: seq<Block>, codes: seq<seq<Code>>): seq<Entry>
    requires |blocks| == |codes|
    requires forall k :: 0 <= k < |blocks| ==> |codes[k]| == |blocks[k].txs|
  {
    if blocks == [] then []
    else
      var n := |blocks| - 1;
      ChainLog(blocks[..n], codes[..n]) + BlockLog(blocks[n].height, blocks[n].txs, codes[n])
  }

  /** Entry i was registered by entry j: an admin, committed in a strictly earlier block. */
  ghost predicate RegisteredBy(log: seq<Entry>, i: nat, j: nat) {
    j < i < |log| && log[i].registrar == Some(log[j].principal) &&
    log[j].identity.role == ROLE_ADMIN && log[j].height < log[i].height
  }

  ghost predicate HasRegistrar(log: seq<Entry>, i: nat) { exists j :: RegisteredBy(log, i, j) }

  ghost predicate Listed(log: seq<Entry>, p: Principal) { exists i :: 0 <= i < |log| && log[i].principal == p }

  /** Each principal is listed once, with the identity the chain holds for it, and nobody else is. */
  ghost predicate ListsIdentities(log: seq<Entry>, identities: map<Principal, Identity>) {
    (forall i, j :: 0 <= i < j < |log| ==> log[i].principal != log[j].principal) &&
    (forall i :: 0 <= i < |log| ==> log[i].principal in identities && identities[log[i].principal] == log[i].identity) &&
    (forall p :: p in identities ==> Listed(log, p))
  }

  /** One seed, first; everyone else was registered by someone listed before. */
  ghost predicate OneSeed(log: seq<Entry>) {
    (forall i :: 0 <= i < |log| ==> (log[i].registrar.None? <==> i == 0)) &&
    (forall i :: 0 < i < |log| ==> HasRegistrar(log, i))
  }

  ghost predicate RegistrationTree(log: seq<Entry>, st: ChainState) {
    (st.seeded <==> log != []) && ListsIdentities(log, st.identities) && OneSeed(log)
  }

  lemma ListsOneMore(log: seq<Entry>, identities: map<Principal, Identity>, e: Entry)
    requires ListsIdentities(log, identities) && e.principal !in identities
    ensures ListsIdentities(log + [e], identities[e.principal := e.identity])
  {
    var log' := log + [e];
    forall p | p in identities[e.principal := e.identity] ensures Listed(log', p) {
      if p == e.principal {
        assert log'[|log|].principal == p;
      } else {
        var i :| 0 <= i < |log| && log[i].principal == p;
        assert log'[i].principal == p;
      }
    }
  }

  lemma RegistersOneMore(log: seq<Entry>, e: Entry, j: nat)
    requires OneSeed(log) && j < |log| && e.registrar == Some(log[j].principal)
    requires log[j].identity.role == ROLE_ADMIN && log[j].height < e.height
    ensures OneSeed(log + [e])
  {
    var log' := log + [e];
    forall i | 0 < i < |log'| ensures HasRegistrar(log', i) {
      if i == |log| {
        assert RegisteredBy(log', i, j);
      } else {
        assert HasRegistrar(log, i);
        var k :| RegisteredBy(log, i, k);
        assert RegisteredBy(log', i, k);
      }
    }
  }

  /** What an accepted identity transaction shows in the log, and on whose authority it was accepted. */
  lemma VerdictShows(cr: Crypto, v: View, height: nat, time: int, tx: Tx)
    ensures
      match Judge(cr, v, height, time, tx)
      case Refused(c) => TxEntries(height, tx, c) == []
      case Accepted(StoreSeed(p, i)) => TxEntries(height, tx, CodeOk) == [Entry(height, p, i, None)] && !v.seeded
      case Accepted(StoreIdentity(p, i)) =>
        tx.Request? && tx.payload.Some? &&
        var by' := tx.payload.value.principal;
        TxEntries(height, tx, CodeOk) == [Entry(height, p, i, Some(by'))] &&
        by' in v.identities && v.identities[by'].role == ROLE_ADMIN && p !in v.taken
      case Accepted(_) => TxEntries(height, tx, CodeOk) == []
  {
  }

  /** One transaction extends the tree by its entry; admins are looked up in the block's start state. */
  lemma TxGrowsTree(cr: Crypto, st: ChainState, start: seq<Entry>, cur: ChainState, log: seq<Entry>,
                    height: nat, time: int, tx: Tx, v: Verdict)
    requires Sound(cur) && RegistrationTree(start, st) && RegistrationTree(log, cur) && start <= log
    requires forall i :: 0 <= i < |start| ==> start[i].height < height
    requires v == Judge(cr, CurrentView(st.identities, cur), height, time, tx)
    ensures RegistrationTree(log + TxEntries(height, tx, CodeOf(v)), if v.Accepted? then Apply(cur, v.op) else cur)
  {
    VerdictShows(cr, CurrentView(st.identities, cur), height, time, tx);
    var es := TxEntries(height, tx, CodeOf(v));
    if v.Accepted? && v.op.StoreSeed? {
      assert log == [];
      ListsOneMore(log, cur.identities, es[0]);
    } else if v.Accepted? && v.op.StoreIdentity? {
      assert Listed(start, tx.payload.value.principal);
      var j :| 0 <= j < |start| && start[j].principal == tx.payload.value.principal;
      assert log[j] == start[j];
      ListsOneMore(log, cur.identities, es[0]);
      RegistersOneMore(log, es[0], j);
    } else {
      assert log + es == log;
    }
  }

  lemma ImmediateLast(cr: Crypto, st: ChainState, height: nat, time: int, txs: seq<Tx>, r: Executed, v: Verdict)
    requires txs != [] && r == Immediate(cr, st, height, time, txs[..|txs| - 1])
    requires v == Judge(cr, CurrentView(st.identities, r.state), height, time, txs[|txs| - 1])
    ensures Immediate(cr, st, height, time, txs) ==
            Executed(r.codes + [CodeOf(v)], if v.Accepted? then Apply(r.state, v.op) else r.state)
  {
  }

  lemma BlockLogLast(height: nat, txs: seq<Tx>, codes: seq<Code>, code: Code)
    requires |txs| == |codes| + 1
    ensures BlockLog(height, txs, codes + [code]) ==
            BlockLog(height, txs[..|codes|], codes) + TxEntries(height, txs[|codes|], code)
  {
    assert (codes + [code])[..|codes|] == codes;
  }

  lemma {:induction false} BlockGrowsTree(
      cr: Crypto, st: ChainState, start: seq<Entry>, height: nat, time: int, txs: seq<Tx>)
    requires Sound(st) && RegistrationTree(start, st)
    requires forall i :: 0 <= i < |start| ==> start[i].height < height
    ensures
      var r := Immediate(cr, st, height, time, txs);
      RegistrationTree(start + BlockLog(height, txs, r.codes), r.state)
  {
    if txs == [] {
      assert start + [] == start;
    } else {
      var n := |txs| - 1;
      var before, tx := txs[..n], txs[n];
      BlockGrowsTree(cr, st, start, height, time, before);
      BlockWritesOnce(cr, st, height, time, before);
      var r := Immediate(cr, st, height, time, before);
      var log := start + BlockLog(height, before, r.codes);
      var v := Judge(cr, CurrentView(st.identities, r.state), height, time, tx);
      TxGrowsTree(cr, st, start, r.state, log, height, time, tx, v);
      ImmediateLast(cr, st, height, time, txs, r, v);
      BlockLogLast(height, txs, r.codes, CodeOf(v));
      ConcatAssociative(start, BlockLog(height, before, r.codes), TxEntries(height, tx, CodeOf(v)));
    }
  }

  lemma {:induction false} BlockLogHeights(height: nat, txs: seq<Tx>, codes: seq<Code>)
    requires |txs| == |codes|
    ensures forall e :: e in BlockLog(height, txs, codes) ==> e.height == height
  {
    if txs != [] { BlockLogHeights(height, txs[..|txs| - 1], codes[..|txs| - 1]); }
  }

  lemma {:induction false} ChainLogHeights(blocks: seq<Block>, codes: seq<seq<Code>>, height: nat)
    requires |blocks| == |codes|
    requires forall k :: 0 <= k < |blocks| ==> |codes[k]| == |blocks[k].txs| && blocks[k].height < height
    ensures forall e :: e in ChainLog(blocks, codes) ==> e.height < height
  {
    if blocks != [] {
      var n := |blocks| - 1;
      ChainLogHeights(blocks[..n], codes[..n], height);
      BlockLogHeights(blocks[n].height, blocks[n].txs, codes[n]);
    }
  }

  /** In every reachable chain state the accepted identities form a registration tree. */
  lemma {:induction false} IdentitiesFormATree(cr: Crypto, blocks: seq<Block>)
    requires HeightSeparating(cr) && HeightsIncrease(blocks)
    ensures RegistrationTree(ChainLog(blocks, Chain(cr, blocks).codes), Chain(cr, blocks).state)
  {
    if blocks != [] {
      var n := |blocks| - 1;
      var before, b := blocks[..n], blocks[n];
      IdentitiesFormATree(cr, before);
      var r := Chain(cr, before);
      ChainStepPreserves(cr, before);
      ChainEventsBelow(cr, before, b.height);
      BlockEquivalence(cr, r.state, b);
      ChainLogHeights(before, r.codes, b.height);
      BlockGrowsTree(cr, r.state, ChainLog(before, r.codes), b.height, b.time, b.txs);
      assert Chain(cr, blocks).codes[..n] == r.codes;
    }
  }

  /** A chain of registrations from entry path[0] up to the seed. */
  ghost predicate LeadsToSeed(log: seq<Entry>, path: seq<nat>) {
    path != [] && path[|path| - 1] == 0 &&
    forall k :: 0 <= k < |path| - 1 ==> RegisteredBy(log, path[k], path[k + 1])
  }

  /** Following registrars upwards from any identity ends at the seed. */
  lemma {:induction false} EveryoneDescendsFromSeed(log: seq<Entry>, st: ChainState, i: nat) returns (path: seq<nat>)
    requires RegistrationTree(log, st) && i < |log|
    ensures LeadsToSeed(log, path) && path[0] == i
    decreases i
  {
    if i == 0 {
      path := [0];
    } else {
      assert HasRegistrar(log, i);
      var j :| RegisteredBy(log, i, j);
      var rest := EveryoneDescendsFromSeed(log, st, j);
      path := [i] + rest;
    }
  }

  // ---------- The retention agent's cache ----------

  datatype AgentStep = NewBlock(block: Block) | Fetch(reachable: bool)

  datatype Watched = Watched(blocks: seq<Block>, cached: Option<StoredPolicy>)

  /** The agent asks the chain only while it has no policy; the chain may be unreachable. */
  function WatchStep(cr: Crypto, w: Watched, s: AgentStep): Watched {
    match s
    case NewBlock(b) => w.(blocks := w.blocks + [b])
    case Fetch(reachable) =>
      if w.cached.None? && reachable then w.(cached := Chain(cr, w.blocks).state.policy) else w
  }

  function WatchRun(cr: Crypto, steps: seq<AgentStep>): Watched {
    if steps == [] then Watched([], None) else WatchStep(cr, WatchRun(cr, steps[..|steps| - 1]), steps[|steps| - 1])
  }

  /** Whatever the agent cached is the chain's policy for good, and it is valid, so no later scan can fail on it. */
  lemma {:induction false} CachedPolicyIsTrue(cr: Crypto, steps: seq<AgentStep>)
    requires HeightSeparating(cr) && HeightsIncrease(WatchRun(cr, steps).blocks)
    ensures
      var w := WatchRun(cr, steps);
      w.cached.Some? ==>
        Chain(cr, w.blocks).state.policy == w.cached && RetentionRule.Valid(w.cached.value.policy)
  {
    if steps != [] {
      var before, s := steps[..|steps| - 1], steps[|steps| - 1];
      var w, w' := WatchRun(cr, before), WatchRun(cr, steps);
      assert w.blocks <= w'.blocks;
      assert forall i :: 0 <= i < |w.blocks| ==> w'.blocks[i] == w.blocks[i];
      CachedPolicyIsTrue(cr, before);
      ChainStepPreserves(cr, w'.blocks);
      if s.NewBlock? {
        assert w'.blocks[..|w'.blocks| - 1] == w.blocks;
      }
    }
  }

  /** Step i asks a reachable chain that has a policy. */
  ghost predicate FetchesPolicy(cr: Crypto, steps: seq<AgentStep>, i: nat) {
    i < |steps| && steps[i] == Fetch(true) && Chain(cr, WatchRun(cr, steps[..i]).blocks).state.policy.Some?
  }

  ghost predicate HasFetched(cr: Crypto, steps: seq<AgentStep>) { exists i: nat :: FetchesPolicy(cr, steps, i) }

  lemma FetchesLast(cr: Crypto, steps: seq<AgentStep>)
    requires steps != []
    ensures HasFetched(cr, steps) <==> HasFetched(cr, steps[..|steps| - 1]) || FetchesPolicy(cr, steps, |steps| - 1)
  {
    var n := |steps| - 1;
    forall i: nat | i < n ensures FetchesPolicy(cr, steps, i) <==> FetchesPolicy(cr, steps[..n], i) {
      assert steps[..n][..i] == steps[..i];
    }
    if i: nat :| FetchesPolicy(cr, steps[..n], i) {
      assert FetchesPolicy(cr, steps, i);
    }
    if i: nat :| FetchesPolicy(cr, steps, i) {
      assert i < n ==> FetchesPolicy(cr, steps[..n], i);
    }
  }

  lemma StepCaches(cr: Crypto, w: Watched, s: AgentStep)
    ensures WatchStep(cr, w, s).cached.Some? <==> w.cached.Some? || (s == Fetch(true) && Chain(cr, w.blocks).state.policy.Some?)
  {
  }

  /** The agent has a policy exactly when it has once asked a reachable chain that had one. */
  lemma {:induction false} CachedExactlyOnceFetched(cr: Crypto, steps: seq<AgentStep>)
    ensures WatchRun(cr, steps).cached.Some? <==> HasFetched(cr, steps)
  {
    if steps != [] {
      var n := |steps| - 1;
      CachedExactlyOnceFetched(cr, steps[..n]);
      FetchesLast(cr, steps);
      StepCaches(cr, WatchRun(cr, steps[..n]), steps[n]);
    }
  }
}
