/** The retention agent: it fetches the policy once, caches it for good, and scans with it. */
module RetentionAgent {
  import opened Prelude
  import RetentionRule
  import RetentionCompiler
  import ChainSpec
  import ChainHistory
  import opened RetentionRuns

  datatype Outcome = Unreachable | NoPolicyYet | Scanned | Rejected

  class Agent {
    const events: EventCollection
    var policy: Option<ChainSpec.StoredPolicy>

    constructor (events: EventCollection)
      ensures this.events == events && policy == None
    {
      this.events := events;
      policy := None;
    }

    /** `answer` is what the chain client returns when it is asked: None when it fails. */
    method ScanAndDrop(answer: Option<Option<ChainSpec.StoredPolicy>>, now: int) returns (outcome: Outcome)
      requires events.Valid()
      modifies this, events
      ensures events.Valid()
      ensures policy == if old(policy).None? && answer.Some? then answer.value else old(policy)
      ensures outcome.Unreachable? <==> old(policy).None? && answer.None?
      ensures outcome.NoPolicyYet? <==> old(policy).None? && answer == Some(None)
      ensures outcome.Scanned? <==> policy.Some? && RetentionRule.Valid(policy.value.policy)
      ensures outcome.Scanned? ==> RetentionCompiler.EventSet(events.docs) == Step(policy.value.policy, Scan(now), old(RetentionCompiler.EventSet(events.docs)))
      ensures !outcome.Scanned? ==> events.docs == old(events.docs)
    {
      if policy.None? {
        if answer.None? {
          return Unreachable;
        }
        policy := answer.value;
        if policy.None? {
          return NoPolicyYet;
        }
      }
      var err := events.DropExpiredEvents(policy.value.policy, now);
      outcome := if err.Some? then Rejected else Scanned;
    }
  }

  /**
    When the client answers with the chain's policy, the policy the agent scans with is the chain's, now and
    after any further blocks, and no scan is rejected.
   */
  lemma AgentFollowsChain(cr: ChainSpec.Crypto, steps: seq<ChainHistory.AgentStep>, more: seq<ChainSpec.Block>)
    requires ChainSpec.HeightSeparating(cr)
    requires ChainSpec.HeightsIncrease(ChainHistory.WatchRun(cr, steps).blocks + more)
    ensures
      var w := ChainHistory.WatchRun(cr, steps);
      w.cached.Some? ==>
        ChainSpec.Chain(cr, w.blocks + more).state.policy == w.cached && RetentionRule.Valid(w.cached.value.policy)
  {
    var later := steps + NewBlocks(more);
    WatchOn(cr, steps, more);
    ChainHistory.CachedPolicyIsTrue(cr, later);
  }

  function NewBlocks(more: seq<ChainSpec.Block>): seq<ChainHistory.AgentStep> {
    seq(|more|, i requires 0 <= i < |more| => ChainHistory.NewBlock(more[i]))
  }

  lemma {:induction false} WatchOn(cr: ChainSpec.Crypto, steps: seq<ChainHistory.AgentStep>, more: seq<ChainSpec.Block>)
    ensures
      var w := ChainHistory.WatchRun(cr, steps);
      ChainHistory.WatchRun(cr, steps + NewBlocks(more)) == w.(blocks := w.blocks + more)
  {
    var w := ChainHistory.WatchRun(cr, steps);
    if more == [] {
      assert steps + NewBlocks(more) == steps && w.blocks + more == w.blocks;
    } else {
      var n := |more| - 1;
      WatchOn(cr, steps, more[..n]);
      var all := steps + NewBlocks(more);
      assert all[..|all| - 1] == steps + NewBlocks(more[..n]);
      assert w.blocks + more[..n] + [more[n]] == w.blocks + more;
    }
  }
}
