/** What decides a query: one whole past rule list of its account, first match first. */
module DecisionGuarantee {
  import opened Prelude
  import opened RuleEngine
  import opened Categories
  import opened Storage
  import opened Pipeline
  import opened PipelineSafety
  import opened PipelineRuns

  predicate Started(q: Query) {
    q.pc != Arrived && q.pc != Done(Failed)
  }

  predicate Decided(q: Query) {
    Started(q) && q.pc != Scanning
  }

  /** State `i`, as far along as the query's moment, stores what the query saw for its account. */
  ghost predicate SeenAt(run: seq<System>, i: nat, q: Query) {
    && i < |run| && |run[i].past| == q.seen.moment + 1
    && Stores(run[i].store.accounts, q.account, q.seen.rules, q.seen.upstream)
  }

  /** The rules of the account and the first of its upstreams; an account that is not there has neither. */
  predicate Stores(accounts: map<Text, AccountRecord>, number: Text, rules: seq<Rule>, upstream: Option<Upstream>) {
    if number in accounts then
      && accounts[number].rules == rules
      && (if accounts[number].upstreams == [] then upstream == None
          else upstream == Some(accounts[number].upstreams[0]))
    else rules == [] && upstream == None
  }

  lemma StoresPolicy(store: Store, number: Text, rules: seq<Rule>, upstream: Option<Upstream>)
    ensures Stores(store.accounts, number, rules, upstream) <==>
            PolicyFor(PoliciesOf(store), number) == AccountPolicy(rules, upstream)
  {
  }

  /**
   * Snapshot consistency: a query's rules are its account's complete list, and its upstream the
   * account's active one, in one single state of the run not later than now, however often either was
   * replaced since.
   */
  lemma PolicyIsOneSnapshot(run: seq<System>, i: nat, qid: Qid)
    requires IsRun(run) && i < |run| && qid in run[i].queries && Started(run[i].queries[qid])
    ensures exists j: nat :: j <= i && SeenAt(run, j, run[i].queries[qid])
  {
    hide IsRun, IdsOk, GrantsOk, QuotaOk, PastIssued, SnapshotsOk, ScanOk, PcOk, PoliciesOf;
    RunKeepsInv(run, i);
    QueryFacts(run[i].past, run[i].queries, qid);
    var q := run[i].queries[qid];
    MomentReached(run, i, q.seen.moment);
    var j: nat :| j <= i && Shows(run, j, q.seen.moment, run[i].past[q.seen.moment]);
    StoresPolicy(run[j].store, q.account, q.seen.rules, q.seen.upstream);
    assert SeenAt(run, j, q);
  }

  ghost predicate Reads(run: seq<System>, a: nat, qid: Qid) {
    && a + 1 < |run|
    && Enabled(run[a], ReadCache(qid)) && run[a + 1] == Apply(run[a], ReadCache(qid))
  }

  lemma CacheAt(run: seq<System>, a: nat, qid: Qid)
    requires IsRun(run) && Reads(run, a, qid)
    ensures a + 1 < |run| && qid in run[a + 1].queries
    ensures var q := run[a + 1].queries[qid];
            && q.seen.moment == run[a].cacheMoment < |run[a].past|
            && exists i: nat :: i <= a && SeenAt(run, i, q)
  {
    hide IsRun, Inv, PoliciesOf, PolicyFor;
    RunKeepsInv(run, a);
    LastMoment(run[a]);
    MomentReached(run, a, run[a].cacheMoment);
    var i: nat :| i <= a && Shows(run, i, run[a].cacheMoment, run[a].past[run[a].cacheMoment]);
    var q := run[a + 1].queries[qid];
    StoresPolicy(run[i].store, q.account, q.seen.rules, q.seen.upstream);
    assert SeenAt(run, i, q);
  }

  /**
   * Successive cache reads never go back in time: if one query reads the cache before another, the
   * state its policy is from is not after the state the other's policy is from.
   */
  lemma CacheNeverGoesBack(run: seq<System>, a: nat, b: nat, first: Qid, second: Qid)
    requires IsRun(run) && a <= b && Reads(run, a, first) && Reads(run, b, second)
    ensures var p, q := run[a + 1].queries[first], run[b + 1].queries[second];
            && p.seen.moment <= q.seen.moment
            && exists i: nat, j: nat :: i <= j && i <= a && j <= b
                 && SeenAt(run, i, p)
                 && SeenAt(run, j, q)
  {
    hide IsRun, Reads, Inv;
    CacheAt(run, a, first);
    CacheAt(run, b, second);
    PastGrows(run, a, b);
    var p, q := run[a + 1].queries[first], run[b + 1].queries[second];
    var i: nat :| i <= a && SeenAt(run, i, p);
    var j: nat :| j <= b && SeenAt(run, j, q);
    if j < i {
      PastGrows(run, j, i);
      SameMoment(run, j, i);
      StoresPolicy(run[i].store, p.account, p.seen.rules, p.seen.upstream);
      StoresPolicy(run[j].store, p.account, p.seen.rules, p.seen.upstream);
      assert SeenAt(run, j, p);
    }
  }

  /** Between two states with equally long histories the stored policies do not change. */
  lemma SameMoment(run: seq<System>, i: nat, j: nat)
    requires IsRun(run) && i <= j < |run| && |run[j].past| <= |run[i].past|
    ensures |run[i].past| == |run[j].past| && PoliciesOf(run[i].store) == PoliciesOf(run[j].store)
  {
    hide IsRun, Inv, PoliciesOf;
    PastGrows(run, i, j);
    RunKeepsInv(run, i);
    RunKeepsInv(run, j);
    LastMoment(run[i]);
    LastMoment(run[j]);
  }

  // ---------------------------------------------------------------- the category index

  /** What a query saw in the cache stays; only the indexes its rules are checked against are added. */
  predicate SameSeen(next: Query, q: Query) {
    && next.account == q.account && next.qname == q.qname
    && next.seen.rules == q.seen.rules && next.seen.upstream == q.seen.upstream && next.seen.moment == q.seen.moment
  }

  /** One check: the rules stay, one more index is on record, and the scan goes on or has decided. */
  lemma ScannedShape(q: Query, index: CategoryMap)
    requires |q.seen.consulted| < |q.seen.rules|
    ensures var r := Scanned(q, index);
            && SameSeen(r, q) && r.seen.consulted == q.seen.consulted + [index]
            && (r.pc == q.pc || r.pc == Forwarding || r.pc == Done(Denied) || r.pc == AtQuota)
  {
    hide FiredAt, DecisionOf;
  }

  lemma SpendShape(s: System, qid: Qid)
    requires Enabled(s, Spend(qid))
    ensures var q, u := s.queries[qid], SpendFor(s, qid);
            || u.queries == s.queries[qid := q.(pc := Granted)]
            || u.queries == s.queries[qid := q.(pc := Done(LimitExceeded))]
  {
    hide Spent, BucketOf, DecisionOf, LimitFor;
    assert s.queries[qid].pc.AtLock? && HasLimit(s.queries[qid]);
  }

  lemma ConsultStep(s: System, step: Step, qid: Qid)
    requires Enabled(s, step) && qid in s.queries && Started(s.queries[qid])
    ensures qid in Apply(s, step).queries
    ensures var q, next := s.queries[qid], Apply(s, step).queries[qid];
            && Started(next) && SameSeen(next, q)
            && (next.seen.consulted == q.seen.consulted || next.seen.consulted == q.seen.consulted + [s.index])
  {
    hide SpendFor, PoliciesOf, Created, Committed, IssuedBy, BucketOf, SeenIn, Arriving, Scanned, DecisionOf,
      HasLimit, LimitFor;
    match step
    case Scan(other) =>
      ScannedShape(s.queries[other], s.index);
    case Spend(other) =>
      SpendShape(s, other);
    case _ =>
  }

  /**
   * Every check of a query used the index of a state after the query's own cache read, each check that
   * of a later state than the one before.
   */
  lemma {:induction false} ConsultedWasIndex(run: seq<System>, a: nat, i: nat, qid: Qid) returns (times: seq<nat>)
    requires IsRun(run) && Reads(run, a, qid) && a < i < |run|
    ensures qid in run[a + 1].queries && qid in run[i].queries
    ensures var q := run[i].queries[qid];
            && Started(q) && SameSeen(q, run[a + 1].queries[qid])
            && |times| == |q.seen.consulted|
            && (forall k :: 0 <= k < |times| ==> a < times[k] < i && run[times[k]].index == q.seen.consulted[k])
            && forall k, l :: 0 <= k < l < |times| ==> times[k] < times[l]
    decreases i
  {
    hide Inv, Apply, Enabled, IsRun, Started, SameSeen;
    FreshlyRead(run, a, qid);
    if i == a + 1 {
      times := [];
      SameSeenSelf(run[i].queries[qid]);
    } else {
      times := ConsultedWasIndex(run, a, i - 1, qid);
      var step := RunStep(run, i);
      ConsultStep(run[i - 1], step, qid);
      SameSeenOn(run[i].queries[qid], run[i - 1].queries[qid], run[a + 1].queries[qid]);
      if run[i].queries[qid].seen.consulted != run[i - 1].queries[qid].seen.consulted {
        times := times + [i - 1];
      }
    }
  }

  lemma SameSeenSelf(q: Query)
    ensures SameSeen(q, q)
  {
  }

  lemma SameSeenOn(x: Query, y: Query, z: Query)
    requires SameSeen(x, y) && SameSeen(y, z)
    ensures SameSeen(x, z)
  {
  }

  lemma FreshlyRead(run: seq<System>, a: nat, qid: Qid)
    requires Reads(run, a, qid)
    ensures qid in run[a + 1].queries
    ensures var q := run[a + 1].queries[qid];
            Started(q) && q.pc == Scanning && q.seen.consulted == [] && run[a + 1].index == run[a].index
  {
    hide SeenIn;
    assert SeenIn(run[a].cache, run[a].queries[qid].account, run[a].cacheMoment).consulted == [] by {
      NothingConsulted(run[a].cache, run[a].queries[qid].account, run[a].cacheMoment);
    }
  }

  lemma NothingConsulted(policies: PolicyMap, account: Text, moment: nat)
    ensures SeenIn(policies, account, moment).consulted == []
  {
  }

  /** Every query past its arrival read the cache in some step of the run. */
  lemma {:induction false} CacheWasRead(run: seq<System>, i: nat, qid: Qid)
    requires IsRun(run) && i < |run| && qid in run[i].queries && Started(run[i].queries[qid])
    ensures exists a: nat :: a < i && Reads(run, a, qid)
    decreases i
  {
    hide Inv, Apply, Enabled, IsRun;
    StartQueries(run);
    var step := RunStep(run, i);
    if qid in run[i - 1].queries && Started(run[i - 1].queries[qid]) {
      CacheWasRead(run, i - 1, qid);
    } else {
      OnlyReadStarts(run[i - 1], step, qid);
      assert Reads(run, i - 1, qid);
    }
  }

  lemma OnlyReadStarts(s: System, step: Step, qid: Qid)
    requires Enabled(s, step) && !(qid in s.queries && Started(s.queries[qid]))
    requires qid in Apply(s, step).queries && Started(Apply(s, step).queries[qid])
    ensures step == ReadCache(qid)
  {
    hide SpendFor, PoliciesOf, Created, Committed, IssuedBy, BucketOf, SeenIn, QueryName, Scanned, DecisionOf,
      HasLimit, LimitFor;
    match step
    case Spend(other) =>
      SpendShape(s, other);
    case _ =>
  }

  lemma StartQueries(run: seq<System>)
    requires IsRun(run)
    ensures run[0].queries == map[]
  {
    hide StepsTo;
  }

  // ---------------------------------------------------------------- the decision

  /** How a query may end, given what its rules decide. */
  predicate Fits(decision: Option<Decision>, outcome: Outcome) {
    match decision
    case None => outcome == Allowed
    case Some(Allow) => outcome == Allowed
    case Some(Deny) => outcome == Denied
    case Some(Limit(_, count, _)) => outcome == LimitExceeded || (outcome == LimitOk && count > 0)
  }

  /**
   * First match wins, rule by rule: the deciding rule fired against the index it was checked with,
   * no earlier rule did, and the outcome is one that rule's decision allows; without a deciding rule
   * every rule was checked, none fired, and the query is allowed.
   */
  lemma FirstMatchDecides(run: seq<System>, i: nat, qid: Qid)
    requires IsRun(run) && i < |run| && qid in run[i].queries && Decided(run[i].queries[qid])
    ensures var q := run[i].queries[qid];
            && |q.seen.consulted| <= |q.seen.rules|
            && (q.fired.Some? ==> q.fired.value + 1 == |q.seen.consulted| && FiredAt(q, q.fired.value))
            && (q.fired.None? ==> |q.seen.consulted| == |q.seen.rules|)
            && (forall k: nat :: k < |q.seen.consulted| && (q.fired.Some? ==> k < q.fired.value) ==> !FiredAt(q, k))
            && (q.pc.Done? ==> Fits(DecisionFor(q), q.pc.outcome))
  {
    hide IsRun, IdsOk, GrantsOk, QuotaOk, PastIssued, SnapshotsOk, SeenOk, FiredAt;
    RunKeepsInv(run, i);
    QueryFacts(run[i].past, run[i].queries, qid);
    SeenBounds(run[i].past, run[i].queries[qid]);
  }

  /** The next rule the query's name is held against hits it, with the index it is checked with. */
  predicate HitAt(q: Query, k: nat)
    requires k < |q.seen.rules| && k < |q.seen.consulted|
  {
    Hits(q.seen.rules[k], q.qname, Oracle(q.seen.consulted[k], q.qname))
  }

  /**
   * In the rules' own terms: the first rule to hit allows, denies or limits as its action says, a limit
   * lets through only with a positive count of its own, and a name that no rule hits is allowed.
   */
  lemma OutcomeByFields(run: seq<System>, i: nat, qid: Qid)
    requires IsRun(run) && i < |run| && qid in run[i].queries
    requires run[i].queries[qid].pc.Done? && run[i].queries[qid].pc.outcome != Failed
    ensures var q, n := run[i].queries[qid], |run[i].queries[qid].seen.consulted|;
            && n <= |q.seen.rules|
            && (forall k: nat :: k + 1 < n ==> !HitAt(q, k))
            && (n == 0 || !HitAt(q, n - 1) ==> n == |q.seen.rules| && q.pc.outcome == Allowed)
            && (n > 0 && HitAt(q, n - 1) ==>
                  match q.seen.rules[n - 1].action
                  case AllowAction => q.pc.outcome == Allowed
                  case DenyAction => q.pc.outcome == Denied
                  case LimitAction =>
                    || q.pc.outcome == LimitExceeded
                    || (q.pc.outcome == LimitOk
                        && q.seen.rules[n - 1].limitCount.Some? && q.seen.rules[n - 1].limitCount.value > 0))
  {
    hide IsRun, Hits, Fires;
    FirstMatchDecides(run, i, qid);
    var q := run[i].queries[qid];
    forall k: nat | k < |q.seen.consulted|
      ensures HitAt(q, k) <==> FiredAt(q, k)
    {
      HitsIsFires(q.seen.rules, k, q.qname, Oracle(q.seen.consulted[k], q.qname));
    }
  }

  /**
   * Atomicity of the rule scan: if the index does not change from the query's cache read on, the query
   * ends as `evaluate` on the snapshot's rules and that index says, though other steps ran between its
   * rule checks and whatever the index was before.
   */
  lemma DecisionIsEvaluate(run: seq<System>, a: nat, i: nat, qid: Qid, m: CategoryMap)
    requires IsRun(run) && Reads(run, a, qid) && a < i < |run|
    requires qid in run[i].queries && Decided(run[i].queries[qid])
    requires forall j: nat :: a < j < i ==> run[j].index == m
    ensures var q := run[i].queries[qid];
            && (q.fired.Some? ==> q.fired.value < |q.seen.rules|)
            && DecisionFor(q) == Evaluate(q.seen.rules, q.qname, Oracle(m, q.qname))
            && (q.pc.Done? ==> Fits(Evaluate(q.seen.rules, q.qname, Oracle(m, q.qname)), q.pc.outcome))
  {
    hide IsRun, Reads, Fires, Fits, DecisionOf, Evaluate, Decided, SameSeen;
    FirstMatchDecides(run, i, qid);
    var times := ConsultedWasIndex(run, a, i, qid);
    ScanIsEvaluate(run[i].queries[qid], m);
  }

  /** A scan against one index is `evaluate`. */
  lemma ScanIsEvaluate(q: Query, m: CategoryMap)
    requires |q.seen.consulted| <= |q.seen.rules|
    requires forall k: nat :: k < |q.seen.consulted| ==> q.seen.consulted[k] == m
    requires if q.fired.Some? then q.fired.value + 1 == |q.seen.consulted| && FiredAt(q, q.fired.value)
             else |q.seen.consulted| == |q.seen.rules|
    requires forall k: nat :: k < |q.seen.consulted| && (q.fired.Some? ==> k < q.fired.value) ==> !FiredAt(q, k)
    ensures DecisionFor(q) == Evaluate(q.seen.rules, q.qname, Oracle(m, q.qname))
  {
    hide Fires, Evaluate, DecisionOf;
    var oracle := Oracle(m, q.qname);
    EvaluateIsFirstMatch(q.seen.rules, q.qname, oracle);
    if q.fired.Some? {
      forall j | 0 <= j < q.fired.value
        ensures !Fires(q.seen.rules, j, q.qname, oracle)
      {
        assert !FiredAt(q, j);
      }
      assert FirstMatch(q.seen.rules, q.fired.value, q.qname, oracle);
    } else {
      forall j | 0 <= j < |q.seen.rules|
        ensures !Fires(q.seen.rules, j, q.qname, oracle)
      {
        assert !FiredAt(q, j);
      }
    }
  }

  // ---------------------------------------------------------------- nothing gets stuck

  /** The step a query in flight is ready for. */
  function NextStep(qid: Qid, q: Query, now: int): Step
    requires !q.pc.Done?
  {
    match q.pc
    case Arrived => ReadCache(qid)
    case Scanning => if |q.seen.consulted| < |q.seen.rules| then Scan(qid) else FinishScan(qid)
    case AtQuota => ReadClock(qid, now)
    case AtLock(_) => Spend(qid)
    case Granted => Forward(qid)
    case Forwarding => Forward(qid)
  }

  /** Reading the cache comes first: only then is it known how many rules there are to check. */
  function CacheReadsLeft(q: Query): nat {
    if q.pc.Arrived? then 1 else 0
  }

  /** How many steps a query still needs, at most, once it has read the cache. */
  function Remaining(q: Query): int {
    match q.pc
    case Arrived => 0
    case Scanning => |q.seen.rules| - |q.seen.consulted| + 4
    case AtQuota => 3
    case AtLock(_) => 2
    case Granted => 1
    case Forwarding => 1
    case Done(_) => 0
  }

  /** Lexicographically fewer steps to go. */
  predicate Closer(next: Query, q: Query) {
    || CacheReadsLeft(next) < CacheReadsLeft(q)
    || (CacheReadsLeft(next) == CacheReadsLeft(q) && 0 <= Remaining(next) < Remaining(q))
  }

  /** No query waits forever: its next step is always enabled, and takes it closer to an outcome. */
  lemma NeverStuck(run: seq<System>, i: nat, qid: Qid, now: int)
    requires IsRun(run) && i < |run| && qid in run[i].queries && !run[i].queries[qid].pc.Done?
    ensures var q := run[i].queries[qid];
            var step := NextStep(qid, q, now);
            && Enabled(run[i], step)
            && qid in Apply(run[i], step).queries
            && Closer(Apply(run[i], step).queries[qid], q)
  {
    hide IsRun, Inv, Apply, Closer, NextStep, Enabled;
    NextEnabled(run, i, qid, now);
    StepHelps(run[i], qid, now);
  }

  lemma NextEnabled(run: seq<System>, i: nat, qid: Qid, now: int)
    requires IsRun(run) && i < |run| && qid in run[i].queries && !run[i].queries[qid].pc.Done?
    ensures Enabled(run[i], NextStep(qid, run[i].queries[qid], now))
  {
    hide IsRun, IdsOk, GrantsOk, QuotaOk, PastIssued, SnapshotsOk, ScanOk, DecisionOf;
    RunKeepsInv(run, i);
    QueryFacts(run[i].past, run[i].queries, qid);
  }

  lemma StepHelps(s: System, qid: Qid, now: int)
    requires qid in s.queries && !s.queries[qid].pc.Done? && Enabled(s, NextStep(qid, s.queries[qid], now))
    ensures var q := s.queries[qid];
            var t := Apply(s, NextStep(qid, q, now));
            qid in t.queries && Closer(t.queries[qid], q)
  {
    hide Apply, Enabled, Closer;
    match s.queries[qid].pc
    case Scanning => ScanHelps(s, qid);
    case AtLock(_) => SpendHelps(s, qid);
    case _ => AdvanceHelps(s, qid, now);
  }

  lemma ScanHelps(s: System, qid: Qid)
    requires HasQuery(s, qid, Scanning) && Enabled(s, NextStep(qid, s.queries[qid], 0))
    ensures var t := Apply(s, NextStep(qid, s.queries[qid], 0));
            qid in t.queries && Closer(t.queries[qid], s.queries[qid])
  {
    hide Scanned;
    if |s.queries[qid].seen.consulted| < |s.queries[qid].seen.rules| {
      ScannedShape(s.queries[qid], s.index);
    }
  }

  lemma SpendHelps(s: System, qid: Qid)
    requires qid in s.queries && s.queries[qid].pc.AtLock? && Enabled(s, Spend(qid))
    ensures var t := Apply(s, Spend(qid));
            qid in t.queries && Closer(t.queries[qid], s.queries[qid])
  {
    hide SpendFor;
    SpendShape(s, qid);
  }

  lemma AdvanceHelps(s: System, qid: Qid, now: int)
    requires qid in s.queries && s.queries[qid].pc in {Arrived, AtQuota, Granted, Forwarding}
    requires Enabled(s, NextStep(qid, s.queries[qid], now))
    ensures var q := s.queries[qid];
            var t := Apply(s, NextStep(qid, q, now));
            qid in t.queries && Closer(t.queries[qid], q)
  {
  }
}
