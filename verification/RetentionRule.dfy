/**
  Retention policies and the plain rule that retention-policies.md gives for them.

  A timestamp filter keeps the events it matches for a period; the optional count filter is a buffer
  that keeps the newest events no timestamp filter keeps, over the whole stream or per principal.
  Times are milliseconds, as in the stored documents. Event hashes are read as numbers.
 */
module RetentionRule {
  import opened Prelude

  datatype PolicyType = TimestampPolicy | CountPolicy | OtherPolicy(name: string)

  datatype RuleGrouping = NoGrouping | GlobalGrouping | PrincipalGrouping | OtherGrouping(name: string)

  datatype Match = Match(channel: Option<string>, eventId: Option<int>, providerGuid: Option<string>)

  datatype PolicyAction = PolicyAction(kind: PolicyType, ruleGroup: RuleGrouping, retentionPeriod: int, volume: nat)

  datatype Filter = Filter(title: string, matching: Match, action: PolicyAction)

  datatype Policy = Policy(filters: seq<Filter>)

  datatype Event = Event(
    id: nat,
    time: int,
    principal: string,
    channel: string,
    typeId: int,
    provider: Option<string>)

  // ---------- Validation ----------

  predicate IsCount(f: Filter) { f.action.kind == CountPolicy }

  predicate IsTimestamp(f: Filter) { f.action.kind == TimestampPolicy }

  predicate WellFormedFilter(f: Filter) {
    match f.action.kind
    case CountPolicy =>
      f.action.volume != 0 && f.action.retentionPeriod == 0 &&
      (f.action.ruleGroup == GlobalGrouping || f.action.ruleGroup == PrincipalGrouping)
    case TimestampPolicy =>
      f.action.volume == 0 && f.action.retentionPeriod != 0 &&
      (f.action.ruleGroup == GlobalGrouping || f.action.ruleGroup == NoGrouping)
    case OtherPolicy(_) => false
  }

  predicate AtMostOneCount(fs: seq<Filter>) {
    forall i, j :: 0 <= i < |fs| && 0 <= j < |fs| && IsCount(fs[i]) && IsCount(fs[j]) ==> i == j
  }

  /** What a deployable policy is. */
  predicate Valid(p: Policy) {
    p.filters != [] &&
    (forall i :: 0 <= i < |p.filters| ==> WellFormedFilter(p.filters[i])) &&
    AtMostOneCount(p.filters)
  }

  datatype PolicyError =
    | NoFilters | SecondCountFilter | ZeroVolume | CountWithPeriod | BadCountGrouping
    | ZeroPeriod | TimestampWithGrouping | TimestampWithVolume | UnknownPolicyType

  /** The validator run on chain, and again by every compiler run: it accepts exactly the valid policies. */
  method Validate(p: Policy) returns (err: Option<PolicyError>)
    ensures err.None? <==> Valid(p)
  {
    if |p.filters| == 0 {
      return Some(NoFilters);
    }
    var hasCountFilter := false;
    for i := 0 to |p.filters|
      invariant forall j :: 0 <= j < i ==> WellFormedFilter(p.filters[j])
      invariant hasCountFilter <==> exists j :: 0 <= j < i && IsCount(p.filters[j])
      invariant AtMostOneCount(p.filters[..i])
    {
      var filter := p.filters[i];
      assert p.filters[..i + 1] == p.filters[..i] + [filter];
      if filter.action.kind == CountPolicy {
        if hasCountFilter {
          ghost var j :| 0 <= j < i && IsCount(p.filters[j]);
          assert IsCount(p.filters[i]) && i != j;
          return Some(SecondCountFilter);
        }
        hasCountFilter := true;
        if filter.action.volume == 0 { return Some(ZeroVolume); }
        if filter.action.retentionPeriod != 0 { return Some(CountWithPeriod); }
        if filter.action.ruleGroup != GlobalGrouping && filter.action.ruleGroup != PrincipalGrouping {
          return Some(BadCountGrouping);
        }
      } else if filter.action.kind == TimestampPolicy {
        if filter.action.retentionPeriod == 0 { return Some(ZeroPeriod); }
        if filter.action.ruleGroup != NoGrouping && filter.action.ruleGroup != GlobalGrouping {
          return Some(TimestampWithGrouping);
        }
        if filter.action.volume != 0 { return Some(TimestampWithVolume); }
      } else {
        return Some(UnknownPolicyType);
      }
    }
    assert p.filters[..|p.filters|] == p.filters;
    return None;
  }

  // ---------- What valid policies say ----------

  /** The two things a filter can say: keep what matches for a period, or keep a buffer of the newest events. */
  datatype Rule =
    | KeepFor(title: string, matching: Match, period: int, spelledOut: bool)
    | Buffer(title: string, matching: Match, volume: nat, perPrincipal: bool)

  predicate Sensible(r: Rule) { if r.KeepFor? then r.period != 0 else r.volume > 0 }

  /** How a rule is written down. */
  function AsFilter(r: Rule): Filter {
    match r
    case KeepFor(title, matching, period, spelledOut) =>
      Filter(title, matching, PolicyAction(TimestampPolicy, if spelledOut then GlobalGrouping else NoGrouping, period, 0))
    case Buffer(title, matching, volume, perPrincipal) =>
      Filter(title, matching, PolicyAction(CountPolicy, if perPrincipal then PrincipalGrouping else GlobalGrouping, 0, volume))
  }

  /** The policy is these rules written down: at least one, all sensible, and at most one buffer. */
  ghost predicate Says(p: Policy, rs: seq<Rule>) {
    |rs| == |p.filters| > 0 &&
    (forall i :: 0 <= i < |rs| ==> Sensible(rs[i]) && p.filters[i] == AsFilter(rs[i])) &&
    (forall i, j :: 0 <= i < j < |rs| ==> !(rs[i].Buffer? && rs[j].Buffer?))
  }

  function ReadRule(f: Filter): Rule {
    if IsCount(f) then Buffer(f.title, f.matching, f.action.volume, f.action.ruleGroup == PrincipalGrouping)
    else KeepFor(f.title, f.matching, f.action.retentionPeriod, f.action.ruleGroup == GlobalGrouping)
  }

  /** A policy is valid exactly when it is sensible rules written down, with at most one buffer among them. */
  lemma ValidPoliciesSayRules(p: Policy)
    ensures Valid(p) <==> exists rs :: Says(p, rs)
  {
    if Valid(p) {
      var rs := seq(|p.filters|, i requires 0 <= i < |p.filters| => ReadRule(p.filters[i]));
      forall i | 0 <= i < |rs| ensures Sensible(rs[i]) && p.filters[i] == AsFilter(rs[i]) && (rs[i].Buffer? <==> IsCount(p.filters[i])) {
        assert WellFormedFilter(p.filters[i]);
      }
      assert Says(p, rs);
    }
    if rs: seq<Rule> :| Says(p, rs) {
      forall i | 0 <= i < |p.filters| ensures WellFormedFilter(p.filters[i]) && (IsCount(p.filters[i]) <==> rs[i].Buffer?) {
        assert p.filters[i] == AsFilter(rs[i]) && Sensible(rs[i]);
      }
    }
  }

  // ---------- The plain rule ----------

  /** A letter A to Z stands for the one 32 places on; every other character for itself. */
  predicate SameButLower(stored: char, c: char) {
    stored as int == c as int + if 'A' <= c <= 'Z' then 32 else 0
  }

  /** How stored documents name a provider: its GUID in braces, with every letter in lower case. */
  predicate NamesProvider(stored: string, guid: string) {
    |stored| == |guid| + 2 && stored[0] == '{' && stored[|guid| + 1] == '}' &&
    forall i :: 0 <= i < |guid| ==> SameButLower(stored[i + 1], guid[i])
  }

  /** The conditions of a match block are combined with a logical and; an empty block matches everything. */
  predicate MatchesEvent(m: Match, e: Event) {
    (m.channel.Some? ==> e.channel == m.channel.value) &&
    (m.eventId.Some? ==> e.typeId == m.eventId.value) &&
    (m.providerGuid.Some? ==> e.provider.Some? && NamesProvider(e.provider.value, m.providerGuid.value))
  }

  /** Timestamp filter f still keeps e at time now. */
  predicate Retains(f: Filter, e: Event, now: int) {
    IsTimestamp(f) && MatchesEvent(f.matching, e) && e.time >= now - f.action.retentionPeriod
  }

  predicate Retained(p: Policy, e: Event, now: int) {
    exists i :: 0 <= i < |p.filters| && Retains(p.filters[i], e, now)
  }

  /** Newest first; the event hash breaks ties, so this is a strict total order on distinct hashes. */
  predicate Newer(a: Event, b: Event) {
    a.time > b.time || (a.time == b.time && a.id < b.id)
  }

  ghost predicate HasCount(p: Policy) { exists i :: 0 <= i < |p.filters| && IsCount(p.filters[i]) }

  ghost function CountIndex(p: Policy): (i: nat)
    requires HasCount(p)
    ensures i < |p.filters| && IsCount(p.filters[i])
  {
    var i :| 0 <= i < |p.filters| && IsCount(p.filters[i]); i
  }

  /** The size of the buffer; a policy without a count filter has none. */
  ghost function Volume(p: Policy): nat {
    if HasCount(p) then p.filters[CountIndex(p)].action.volume else 0
  }

  ghost predicate PerPrincipal(p: Policy) {
    HasCount(p) && p.filters[CountIndex(p)].action.ruleGroup == PrincipalGrouping
  }

  /** The two events compete for the same buffer. */
  ghost predicate SameGroup(p: Policy, a: Event, b: Event) {
    PerPrincipal(p) ==> a.principal == b.principal
  }

  /** The events of c that compete with e for its buffer and are newer than e. */
  ghost function Ahead(p: Policy, now: int, c: set<Event>, e: Event): set<Event> {
    set x | x in c && !Retained(p, x, now) && SameGroup(p, x, e) && Newer(x, e)
  }

  /** e may be dropped: no timestamp filter keeps it and the buffer is full of newer events. */
  ghost predicate Expired(p: Policy, now: int, c: set<Event>, e: Event) {
    e in c && !Retained(p, e, now) && |Ahead(p, now, c, e)| >= Volume(p)
  }

  /** What one retention scan of c leaves. */
  ghost function Kept(p: Policy, now: int, c: set<Event>): set<Event> {
    set e | e in c && !Expired(p, now, c, e)
  }

  ghost predicate DistinctIds(c: set<Event>) {
    forall a, b :: a in c && b in c && a.id == b.id ==> a == b
  }
}
