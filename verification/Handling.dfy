/**
 * One query from start to end, as `handle_inner` of lib/pipeline.rs runs it, and its agreement with
 * the interleaved steps of the pipeline.
 */
module Handling {
  import opened Prelude
  import opened Quota
  import opened RuleEngine
  import opened Categories
  import opened Buffers
  import opened Headers
  import opened Packets
  import opened PacketExactness
  import opened Blocking
  import opened Storage
  import opened Policies
  import opened Pipeline
  import opened PipelineRuns

  /**
   * What the caller gets back: what the account's upstream, or the fallback without one, says to the
   * raw query; or a synthesized answer.
   */
  datatype Answer = FromUpstream(upstream: Option<Upstream>, raw: seq<byte>) | Synthesized(bytes: seq<byte>)

  /** What a decision does to the store, and the outcome. */
  function Ended(store: Store, decision: Option<Decision>, now: int): (Store, Outcome) {
    match decision
    case Some(Deny) => (store, Denied)
    case Some(Limit(id, count, window)) =>
      var (spent, ok) := Spent(store, (id, WindowStart(now, window)), count);
      (spent, if ok then LimitOk else LimitExceeded)
    case _ => (store, Allowed)
  }

  /** The store and the outcome of one query that nothing else interferes with. */
  function HandledAlone(store: Store, rules: seq<Rule>, index: CategoryMap, raw: seq<byte>, now: int)
    : (Store, Outcome)
  {
    match QueryName(raw)
    case Err(_) => (store, Failed)
    case Ok(qname) => Ended(store, Evaluate(rules, qname, Oracle(index, qname)), now)
  }

  function AnswerTo(raw: seq<byte>, outcome: Outcome, upstream: Option<Upstream>, policy: BlockPolicy): Result<Answer> {
    match QueryName(raw)
    case Err(e) => Err(e)
    case Ok(_) =>
      if outcome.Denied? || outcome.LimitExceeded? then
        match Synthesis(raw, policy)
        case Ok(bytes) => Ok(Synthesized(bytes))
        case Err(e) => Err(e)
      else Ok(FromUpstream(upstream, raw))
  }

  // ---------------------------------------------------------------- in the rules' own terms

  /** What comes back from a query, and what it leaves of the store. */
  datatype Handled = Handled(outcome: Outcome, answer: Result<Answer>, store: Store)

  /** Sent as it came to the account's own upstream, or to the fallback. */
  predicate IsForwarded(h: Handled, outcome: Outcome, known: Option<AccountPolicy>, raw: seq<byte>) {
    && h.outcome == outcome && h.answer.Ok? && h.answer.value.FromUpstream? && h.answer.value.raw == raw
    && (if known.Some? then known.value.upstream == h.answer.value.upstream else h.answer.value.upstream == None)
  }

  /** Answered by the synthesizer, or failed with it. */
  predicate IsBlocked(h: Handled, outcome: Outcome, policy: BlockPolicy, raw: seq<byte>) {
    && h.outcome == outcome
    && match Synthesis(raw, policy)
       case Ok(bytes) => h.answer.Ok? && h.answer.value.Synthesized? && h.answer.value.bytes == bytes
       case Err(e) => h.answer == Err(e)
  }

  /** The budget of a limit rule, decided and counted in the bucket of its window. */
  predicate IsLimited(h: Handled, rule: Rule, known: Option<AccountPolicy>, policy: BlockPolicy, store: Store,
                    raw: seq<byte>, now: int) {
    var limit := if rule.limitCount.Some? then rule.limitCount.value else 0;
    var bucket := (rule.id, WindowStart(now, if rule.limitWindow.Some? then rule.limitWindow.value else Month));
    var spent := if bucket in store.quota then store.quota[bucket] else 0;
    if spent < limit && limit > 0
    then IsForwarded(h, LimitOk, known, raw) && h.store == store.(quota := store.quota[bucket := spent + 1])
    else
      && IsBlocked(h, LimitExceeded, policy, raw)
      && h.store == (if limit > 0 then store.(quota := store.quota[bucket := spent]) else store)
  }

  /** What a rule does to the query it decides. */
  predicate ByRule(h: Handled, rule: Rule, known: Option<AccountPolicy>, policy: BlockPolicy, store: Store,
                   raw: seq<byte>, now: int) {
    match rule.action
    case AllowAction => IsForwarded(h, Allowed, known, raw) && h.store == store
    case DenyAction => IsBlocked(h, Denied, policy, raw) && h.store == store
    case LimitAction => IsLimited(h, rule, known, policy, store, raw, now)
  }

  /** By the first of the rules that hits the name, or by none. */
  ghost predicate RuledOver(h: Handled, rules: seq<Rule>, name: Text, oracle: Text -> bool,
                            known: Option<AccountPolicy>, policy: BlockPolicy, store: Store, raw: seq<byte>, now: int) {
    && ((forall k :: 0 <= k < |rules| ==> !Hits(rules[k], name, oracle)) ==>
          IsForwarded(h, Allowed, known, raw) && h.store == store)
    && forall k: nat :: FirstHit(rules, k, name, oracle) ==> ByRule(h, rules[k], known, policy, store, raw, now)
  }

  /** A query that parses is ruled over by the account's rules, about the name of its first question. */
  ghost predicate Treated(h: Handled, known: Option<AccountPolicy>, policy: BlockPolicy, store: Store,
                          index: CategoryMap, raw: seq<byte>, now: int) {
    match ParsePacket(raw, 0)
    case Err(e) => h == Handled(Failed, Err(e), store)
    case Ok(p) =>
      var name := if p.value.questions == [] then [] else p.value.questions[0].name;
      var rules := if known.Some? then known.value.rules else [];
      RuledOver(h, rules, name, Oracle(index, name), known, policy, store, raw, now)
  }

  /** An account without a cached policy has no rules, and no upstream of its own. */
  function PolicyOrNone(known: Option<AccountPolicy>): AccountPolicy {
    if known.Some? then known.value else AccountPolicy([], None)
  }

  function EndedWith(decision: Option<Decision>, known: Option<AccountPolicy>, policy: BlockPolicy, store: Store,
                     raw: seq<byte>, now: int): Handled
  {
    var (after, outcome) := Ended(store, decision, now);
    Handled(outcome, AnswerTo(raw, outcome, PolicyOrNone(known).upstream, policy), after)
  }

  function HandledWith(known: Option<AccountPolicy>, policy: BlockPolicy, store: Store, index: CategoryMap,
                       raw: seq<byte>, now: int): Handled
  {
    var own := PolicyOrNone(known);
    var (after, outcome) := HandledAlone(store, own.rules, index, raw, now);
    Handled(outcome, AnswerTo(raw, outcome, own.upstream, policy), after)
  }

  /** Its rules leave a query one treatment, the one it gets. */
  lemma HandledIsTreated(h: Handled, known: Option<AccountPolicy>, policy: BlockPolicy, store: Store,
                         index: CategoryMap, raw: seq<byte>, now: int)
    ensures Treated(h, known, policy, store, index, raw, now) <==>
            h == HandledWith(known, policy, store, index, raw, now)
  {
    hide ParsePacket, Evaluate, RuledOver, Ended, AnswerTo;
    if QueryName(raw).Err? {
      FailedQuery(raw, PolicyOrNone(known).upstream, policy);
    } else {
      var rules, name := PolicyOrNone(known).rules, QueryName(raw).value;
      RulesTreat(h, rules, name, Oracle(index, name), known, policy, store, raw, now);
    }
  }

  lemma RulesTreat(h: Handled, rules: seq<Rule>, name: Text, oracle: Text -> bool,
                   known: Option<AccountPolicy>, policy: BlockPolicy, store: Store, raw: seq<byte>, now: int)
    requires QueryName(raw).Ok?
    ensures RuledOver(h, rules, name, oracle, known, policy, store, raw, now) <==>
            h == EndedWith(Evaluate(rules, name, oracle), known, policy, store, raw, now)
  {
    hide QueryName, Evaluate, Hits, ByRule, IsForwarded, EndedWith, FirstHit;
    var decision := Evaluate(rules, name, oracle);
    EvaluateByFields(rules, name, oracle);
    DecisionTreats(h, known, policy, store, raw, now);
    forall k: nat | FirstHit(rules, k, name, oracle)
      ensures k < |rules| && Hits(rules[k], name, oracle)
      ensures ByRule(h, rules[k], known, policy, store, raw, now) <==>
              h == EndedWith(decision, known, policy, store, raw, now)
    {
      FirstHitInside(rules, k, name, oracle);
      RuleTreats(h, rules[k], decision, known, policy, store, raw, now);
    }
  }

  lemma FirstHitInside(rules: seq<Rule>, k: nat, qname: Text, inCategory: Text -> bool)
    requires FirstHit(rules, k, qname, inCategory)
    ensures k < |rules| && Hits(rules[k], qname, inCategory)
  {
  }

  lemma RuleTreats(h: Handled, rule: Rule, decision: Option<Decision>, known: Option<AccountPolicy>,
                   policy: BlockPolicy, store: Store, raw: seq<byte>, now: int)
    requires QueryName(raw).Ok?
    requires rule.action == AllowAction ==> decision == Some(Allow)
    requires rule.action == DenyAction ==> decision == Some(Deny)
    requires rule.action == LimitAction ==>
               && decision.Some? && decision.value.Limit? && decision.value.ruleId == rule.id
               && decision.value.limitCount == (if rule.limitCount.Some? then rule.limitCount.value else 0)
               && decision.value.window == (if rule.limitWindow.Some? then rule.limitWindow.value else Month)
    ensures ByRule(h, rule, known, policy, store, raw, now) <==>
            h == EndedWith(decision, known, policy, store, raw, now)
  {
    hide QueryName, Ended, AnswerTo, EndedWith, IsForwarded, IsBlocked, IsLimited;
    DecisionTreats(h, known, policy, store, raw, now);
    if rule.action == LimitAction {
      LimitTreats(h, rule, decision, known, policy, store, raw, now);
    }
  }

  lemma FailedQuery(raw: seq<byte>, upstream: Option<Upstream>, policy: BlockPolicy)
    requires QueryName(raw).Err?
    ensures AnswerTo(raw, Failed, upstream, policy) == Err(QueryName(raw).error)
  {
    hide QueryName, Synthesis;
  }

  lemma DecisionTreats(h: Handled, known: Option<AccountPolicy>, policy: BlockPolicy, store: Store, raw: seq<byte>,
                       now: int)
    requires QueryName(raw).Ok?
    ensures IsForwarded(h, Allowed, known, raw) && h.store == store <==>
            h == EndedWith(None, known, policy, store, raw, now)
    ensures EndedWith(Some(Allow), known, policy, store, raw, now) == EndedWith(None, known, policy, store, raw, now)
    ensures IsBlocked(h, Denied, policy, raw) && h.store == store <==>
            h == EndedWith(Some(Deny), known, policy, store, raw, now)
  {
    hide QueryName, Synthesis;
  }

  lemma LimitTreats(h: Handled, rule: Rule, decision: Option<Decision>, known: Option<AccountPolicy>,
                    policy: BlockPolicy, store: Store, raw: seq<byte>, now: int)
    requires QueryName(raw).Ok? && decision.Some? && decision.value.Limit? && decision.value.ruleId == rule.id
    requires decision.value.limitCount == if rule.limitCount.Some? then rule.limitCount.value else 0
    requires decision.value.window == if rule.limitWindow.Some? then rule.limitWindow.value else Month
    ensures IsLimited(h, rule, known, policy, store, raw, now) <==>
            h == EndedWith(decision, known, policy, store, raw, now)
  {
    hide QueryName, Synthesis, WindowStart;
  }

  /** A query that is refused gets a block response back, and its resolver can read it. */
  lemma RefusalReads(h: Handled, known: Option<AccountPolicy>, policy: BlockPolicy, store: Store,
                     index: CategoryMap, raw: seq<byte>, now: int, q: Packet, next: nat)
    requires Treated(h, known, policy, store, index, raw, now)
    requires ParsePacket(raw, 0) == Ok(Parsed(q, next)) && WireSafeNames(q.questions)
    requires h.outcome == Denied || h.outcome == LimitExceeded
    ensures h.answer.Ok? && h.answer.value.Synthesized? && ReadsAsReply(h.answer.value.bytes, q, policy)
  {
    hide ParsePacket, Synthesis, Treated, HandledAlone, WireSafeNames, ReadsAsReply;
    HandledIsTreated(h, known, policy, store, index, raw, now);
    SynthesisPreserves(raw, policy, q, next);
  }

  class QueryPipeline {
    const cp: InMemControlPlane
    const categories: CategoryIndex
    const policy: BlockPolicy
    const cache: PolicyCache

    constructor (cp: InMemControlPlane, categories: CategoryIndex, policy: BlockPolicy, cache: PolicyCache)
      ensures this.cp == cp && this.categories == categories && this.policy == policy && this.cache == cache
    {
      this.cp, this.categories, this.policy, this.cache := cp, categories, policy, cache;
    }

    /** `now` is the clock reading a limit rule takes. */
    method HandleInner(account: Text, raw: seq<byte>, now: int) returns (outcome: Outcome, answer: Result<Answer>)
      modifies cp`quota
      ensures (cp.State(), outcome)
              == HandledAlone(old(cp.State()), PolicyFor(old(cache.inner), account).rules,
                               old(categories.categories), raw, now)
      ensures answer == AnswerTo(raw, outcome, PolicyFor(old(cache.inner), account).upstream, policy)
      ensures Treated(Handled(outcome, answer, cp.State()),
                      if account in old(cache.inner) then Some(old(cache.inner)[account]) else None, policy,
                      old(cp.State()), old(categories.categories), raw, now)
    {
      hide QueryName, Evaluate, Spent, Synthesis, WindowStart, Treated;
      ghost var own := if account in cache.inner then Some(cache.inner[account]) else None;
      ghost var h := HandledWith(own, policy, cp.State(), categories.categories, raw, now);
      HandledIsTreated(h, own, policy, cp.State(), categories.categories, raw, now);
      var name := ReadName(raw);
      if name.Err? {
        return Failed, Err(name.error);
      }
      var cached := cache.Get(account);
      var rules := if cached.Some? then cached.value.rules else [];
      var upstream := if cached.Some? then cached.value.upstream else None;
      var decision := Decide(rules, name.value);
      match decision {
        case Some(Deny) =>
          outcome := Denied;
          answer := Blocked(raw);
        case Some(Limit(id, count, window)) =>
          var ok := cp.RecordQuota(id, count, window, now);
          if ok {
            outcome, answer := LimitOk, Ok(FromUpstream(upstream, raw));
          } else {
            outcome := LimitExceeded;
            answer := Blocked(raw);
          }
        case _ =>
          outcome, answer := Allowed, Ok(FromUpstream(upstream, raw));
      }
    }

    method Blocked(raw: seq<byte>) returns (answer: Result<Answer>)
      ensures answer == match Synthesis(raw, policy) case Ok(bytes) => Ok(Synthesized(bytes)) case Err(e) => Err(e)
    {
      hide Synthesis;
      var bytes :- Synthesize(raw, policy);
      return Ok(Synthesized(bytes));
    }

    /** Evaluate the rules in order, asking the index about category rules as they come. */
    method Decide(rules: seq<Rule>, qname: Text) returns (decision: Option<Decision>)
      ensures decision == Evaluate(rules, qname, Oracle(categories.categories, qname))
    {
      hide MatchesTarget, DecisionOf, InCategory;
      ghost var oracle := Oracle(categories.categories, qname);
      var i := 0;
      while i < |rules|
        invariant 0 <= i <= |rules|
        invariant Evaluate(rules, qname, oracle) == Evaluate(rules[i..], qname, oracle)
      {
        var rule := rules[i];
        if rule.enabled {
          var matches;
          if rule.targetType.Category? {
            matches := categories.Contains(qname, rule.targetValue);
            AsOracle(categories.categories, qname, rule.targetValue);
          } else {
            matches := MatchesTarget(qname, rule.targetType, rule.targetValue);
          }
          if matches {
            return Some(DecisionOf(rule));
          }
        }
        assert rules[i..][1..] == rules[i + 1..];
        i := i + 1;
      }
      return None;
    }
  }

  lemma AsOracle(m: CategoryMap, qname: Text, category: Text)
    ensures InCategory(m, qname, category) == AncestorTagged(m, NonEmpty(Texts.Split(Texts.Normalize(qname))), category)
  {
  }

  method ReadName(raw: seq<byte>) returns (name: Result<Text>)
    ensures name == QueryName(raw)
  {
    hide ParsePacket;
    var buf := new BytePacketBuffer.FromBytes(raw);
    var packet :- DnsPacket.FromBuffer(buf);
    return Ok(if packet.questions == [] then [] else packet.questions[0].name);
  }

  // ---------------------------------------------------------------- the steps, with nothing in between

  /** `n` enabled steps lead from `s` to `t`. */
  ghost predicate Reaches(s: System, t: System, n: nat)
    decreases n
  {
    if n == 0 then s == t else exists m :: StepsTo(s, m) && Reaches(m, t, n - 1)
  }

  lemma OneStep(s: System, step: Step)
    requires Enabled(s, step)
    ensures Reaches(s, Apply(s, step), 1)
  {
    hide Enabled, Apply;
    assert StepsTo(s, Apply(s, step));
    assert Reaches(Apply(s, step), Apply(s, step), 0);
  }

  lemma {:induction false} ReachesOn(s: System, m: System, t: System, a: nat, b: nat)
    requires Reaches(s, m, a) && Reaches(m, t, b)
    ensures Reaches(s, t, a + b)
    decreases a
  {
    hide StepsTo;
    if a > 0 {
      var x :| StepsTo(s, x) && Reaches(x, m, a - 1);
      ReachesOn(x, m, t, a - 1, b);
    }
  }

  /** The query in a state that otherwise stays as it is. */
  function With(s: System, qid: Qid, q: Query): System {
    s.(queries := s.queries[qid := q])
  }

  /** What a scan that is not interrupted leaves. */
  predicate ScanEnded(q: Query, decision: Option<Decision>) {
    match decision
    case Some(Deny) => q.pc == Done(Denied)
    case Some(Limit(_, _, _)) => q.pc == AtQuota && HasLimit(q) && LimitFor(q) == decision.value
    case _ => q.pc == Forwarding
  }

  /** One check of the scan: it ends with the rule's decision, or goes on to the next rule. */
  lemma CheckAlone(q: Query, index: CategoryMap)
    requires q.pc == Scanning && |q.seen.consulted| < |q.seen.rules|
    ensures var i, r, oracle := |q.seen.consulted|, Scanned(q, index), Oracle(index, q.qname);
            var rest := q.seen.rules[i..];
            if r.pc.Scanning? then
              && r == q.(seen := q.seen.(consulted := q.seen.consulted + [index]))
              && Evaluate(rest, q.qname, oracle) == Evaluate(q.seen.rules[i + 1..], q.qname, oracle)
            else ScanEnded(r, Evaluate(rest, q.qname, oracle))
  {
    hide RuleMatches, DecisionOf;
    var i := |q.seen.consulted|;
    assert q.seen.rules[i..][0] == q.seen.rules[i] && q.seen.rules[i..][1..] == q.seen.rules[i + 1..];
  }

  lemma {:induction false} ScanAlone(s: System, qid: Qid) returns (q: Query, n: nat)
    requires HasQuery(s, qid, Scanning) && s.queries[qid].fired.None?
    requires |s.queries[qid].seen.consulted| <= |s.queries[qid].seen.rules|
    ensures Reaches(s, With(s, qid, q), n)
    ensures var was := s.queries[qid];
            ScanEnded(q, Evaluate(was.seen.rules[|was.seen.consulted|..], was.qname, Oracle(s.index, was.qname)))
    decreases |s.queries[qid].seen.rules| - |s.queries[qid].seen.consulted|
  {
    hide Reaches, RuleMatches, Scanned, DecisionOf;
    var was := s.queries[qid];
    var i := |was.seen.consulted|;
    if i == |was.seen.rules| {
      q, n := was.(pc := Forwarding), 1;
      OneStep(s, FinishScan(qid));
    } else {
      CheckAlone(was, s.index);
      var next := Scanned(was, s.index);
      OneStep(s, Scan(qid));
      q, n := next, 1;
      if next.pc.Scanning? {
        var t := With(s, qid, next);
        var m;
        q, m := ScanAlone(t, qid);
        n := m + 1;
        assert With(t, qid, q) == With(s, qid, q);
        ReachesOn(s, t, With(s, qid, q), 1, m);
      }
    }
  }

  lemma SpentNothing(store: Store, b: Bucket, limit: int)
    requires limit <= 0
    ensures Spent(store, b, limit) == (store, false)
  {
  }

  /** A granted query is forwarded; one over its limit is done already. */
  lemma ForwardAlone(s: System, qid: Qid) returns (q: Query, n: nat)
    requires qid in s.queries && (s.queries[qid].pc == Granted || s.queries[qid].pc == Done(LimitExceeded))
    ensures Reaches(s, With(s, qid, q), n)
    ensures q.pc == Done(if s.queries[qid].pc.Granted? then LimitOk else LimitExceeded)
  {
    hide Reaches;
    if s.queries[qid].pc.Granted? {
      OneStep(s, Forward(qid));
      q, n := s.queries[qid].(pc := Done(LimitOk)), 1;
    } else {
      NoSteps(s);
      q, n := s.queries[qid], 0;
      assert With(s, qid, q) == s;
    }
  }

  lemma SpentInto(s: System, qid: Qid)
    requires qid in s.queries && s.queries[qid].pc.AtLock? && HasLimit(s.queries[qid])
    ensures var limit := LimitFor(s.queries[qid]);
            var b := BucketOf(Grant(limit.ruleId, limit.window, s.queries[qid].pc.now));
            var (spent, ok) := Spent(s.store, b, limit.limitCount);
            var u := SpendFor(s, qid);
            var q := s.queries[qid].(pc := if ok then Granted else Done(LimitExceeded));
            u == s.(store := spent, queries := s.queries[qid := q], grants := u.grants)
  {
    hide BucketOf, DecisionOf, Spent, HasLimit, LimitFor;
  }

  /** The locked part of a limit rule, and the forward it may allow. */
  lemma SpendAlone(s: System, qid: Qid) returns (t: System, n: nat)
    requires qid in s.queries && s.queries[qid].pc.AtLock? && HasLimit(s.queries[qid])
    ensures Reaches(s, t, n) && qid in t.queries
    ensures var limit := LimitFor(s.queries[qid]);
            var b := BucketOf(Grant(limit.ruleId, limit.window, s.queries[qid].pc.now));
            var (spent, ok) := Spent(s.store, b, limit.limitCount);
            t.store == spent && t.queries[qid].pc == Done(if ok then LimitOk else LimitExceeded)
    ensures t == s.(store := t.store, queries := s.queries[qid := t.queries[qid]], grants := t.grants)
  {
    hide Reaches, BucketOf, DecisionOf, Spent, HasLimit, LimitFor, SpendFor;
    SpentInto(s, qid);
    OneStep(s, Spend(qid));
    var u := SpendFor(s, qid);
    var q, k := ForwardAlone(u, qid);
    t, n := With(u, qid, q), 1 + k;
    ReachesOn(s, u, t, 1, k);
  }

  /** From a matched limit rule to the outcome: clock, lock, forward. */
  lemma LimitAlone(s: System, qid: Qid, now: int) returns (t: System, n: nat)
    requires HasQuery(s, qid, AtQuota) && HasLimit(s.queries[qid])
    ensures Reaches(s, t, n) && qid in t.queries
    ensures var limit := LimitFor(s.queries[qid]);
            var (spent, ok) := Spent(s.store, (limit.ruleId, WindowStart(now, limit.window)), limit.limitCount);
            t.store == spent && t.queries[qid].pc == Done(if ok then LimitOk else LimitExceeded)
    ensures t == s.(store := t.store, queries := s.queries[qid := t.queries[qid]], grants := t.grants)
  {
    hide Reaches, WindowStart, DecisionOf, Spent;
    var limit := LimitFor(s.queries[qid]);
    var s1 := Apply(s, ReadClock(qid, now));
    OneStep(s, ReadClock(qid, now));
    if limit.limitCount <= 0 {
      SpentNothing(s.store, (limit.ruleId, WindowStart(now, limit.window)), limit.limitCount);
      return s1, 1;
    }
    var k;
    t, k := SpendAlone(s1, qid);
    n := 1 + k;
    ReachesOn(s, s1, t, 1, k);
  }

  lemma FinishAlone(s: System, qid: Qid, decision: Option<Decision>, now: int) returns (t: System, n: nat)
    requires qid in s.queries && ScanEnded(s.queries[qid], decision)
    ensures Reaches(s, t, n)
    ensures qid in t.queries && t.queries[qid].pc.Done?
    ensures (t.store, t.queries[qid].pc.outcome) == Ended(s.store, decision, now)
    ensures t == s.(store := t.store, queries := s.queries[qid := t.queries[qid]], grants := t.grants)
  {
    hide Reaches, WindowStart, Spent, HasLimit, LimitFor;
    match decision
    case Some(Deny) =>
      t, n := s, 0;
      NoSteps(s);
    case Some(Limit(_, _, _)) =>
      t, n := LimitAlone(s, qid, now);
    case _ =>
      t, n := Apply(s, Forward(qid)), 1;
      OneStep(s, Forward(qid));
  }

  lemma NoSteps(s: System)
    ensures Reaches(s, s, 0)
  {
  }

  /** Arriving and reading the cache, for a query that parses. */
  lemma ReadAlone(s: System, qid: Qid, account: Text, raw: seq<byte>)
    requires qid !in s.queries && QueryName(raw).Ok?
    ensures var seen := SeenIn(s.cache, account, s.cacheMoment);
            Reaches(s, With(s, qid, Query(account, QueryName(raw).value, seen, None, Scanning)), 2)
  {
    hide Reaches, QueryName, SeenIn;
    var s1 := Apply(s, Arrive(qid, account, raw));
    OneStep(s, Arrive(qid, account, raw));
    OneStep(s1, ReadCache(qid));
    var s2 := Apply(s1, ReadCache(qid));
    ReachesOn(s, s1, s2, 1, 1);
    assert s2 == With(s, qid, s2.queries[qid]);
  }

  /**
   * The interleaved steps are the sequential program cut at its locks: a query run through its steps
   * with nothing in between leaves the store and the outcome that `HandleInner` does, and touches
   * nothing else.
   */
  lemma HandledAloneIsARun(s: System, qid: Qid, account: Text, raw: seq<byte>, now: int) returns (t: System, n: nat)
    requires qid !in s.queries
    ensures Reaches(s, t, n)
    ensures qid in t.queries && t.queries[qid].pc.Done?
    ensures (t.store, t.queries[qid].pc.outcome)
            == HandledAlone(s.store, PolicyFor(s.cache, account).rules, s.index, raw, now)
    ensures t == s.(store := t.store, queries := s.queries[qid := t.queries[qid]], grants := t.grants)
  {
    hide Reaches, QueryName, Evaluate, PolicyFor, Ended, ScanEnded;
    if QueryName(raw).Err? {
      OneStep(s, Arrive(qid, account, raw));
      return Apply(s, Arrive(qid, account, raw)), 1;
    }
    ReadAlone(s, qid, account, raw);
    var rules := PolicyFor(s.cache, account).rules;
    var seen := SeenIn(s.cache, account, s.cacheMoment);
    var s2 := With(s, qid, Query(account, QueryName(raw).value, seen, None, Scanning));
    assert rules[0..] == rules;
    var q, m := ScanAlone(s2, qid);
    var s3 := With(s2, qid, q);
    ReachesOn(s, s2, s3, 2, m);
    var k;
    t, k := FinishAlone(s3, qid, Evaluate(rules, QueryName(raw).value, Oracle(s.index, QueryName(raw).value)), now);
    n := m + 2 + k;
    ReachesOn(s, s3, t, m + 2, k);
  }

  /** The two halves of `Refresh` and of `ReplaceRules`, with nothing in between, do what the methods do. */
  lemma RefreshAlone(s: System)
    requires s.refresher.Idle? && s.past != []
    ensures Enabled(s, TakeSnapshot) && Enabled(Apply(s, TakeSnapshot), InstallSnapshot)
    ensures Apply(Apply(s, TakeSnapshot), InstallSnapshot)
            == s.(cache := PoliciesOf(s.store), cacheMoment := |s.past| - 1)
  {
  }

  lemma ReplaceAlone(s: System, op: Opid, number: Text, change: Change)
    requires op !in s.replacing
    ensures var t := Apply(s, BeginReplace(op, number, change));
            && Enabled(s, BeginReplace(op, number, change)) && Enabled(t, CommitReplace(op))
            && var u := Apply(t, CommitReplace(op));
               var store := Created(s.store, number);
               var id := store.accounts[number].account.id;
               && u.replacing == s.replacing
               && (change.NewRules? ==> u.store == Replaced(store, number, id, change.rules))
               && (change.NewUpstreams? ==> u.store == Rerouted(store, number, id, change.upstreams))
  {
    hide PoliciesOf, IssuedBy, Replaced, Rerouted;
    var t := Apply(s, BeginReplace(op, number, change));
    assert s.replacing[op := t.replacing[op]] - {op} == s.replacing;
  }
}
