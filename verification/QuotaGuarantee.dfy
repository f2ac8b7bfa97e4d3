/** The budget guarantee: what limit rules allow through, in every state of every run. */
module QuotaGuarantee {
  import opened Quota
  import opened RuleEngine
  import opened Storage
  import opened Pipeline
  import opened PipelineSafety
  import opened PipelineRuns

  /** The queries forwarded on a grant under rule `id` whose clock reading is in `[from, to)`. */
  function Forwarded(s: System, id: int, from: int, to: int): set<Qid> {
    set qid | qid in s.queries && s.queries[qid].pc == Done(LimitOk) && qid in s.grants
              && s.grants[qid].rule == id && from <= s.grants[qid].now < to
  }

  /** A limit rule's own count and window, or none and a month when it has none. */
  predicate Limits(rule: Rule, count: int, window: Window) {
    && rule.action == LimitAction
    && (if rule.limitCount.Some? then rule.limitCount.value == count else count == 0)
    && (if rule.limitWindow.Some? then rule.limitWindow.value == window else window == Month)
  }

  lemma LimitsAreDecision(rule: Rule, count: int, window: Window)
    requires Limits(rule, count, window)
    ensures DecisionOf(rule) == Limit(rule.id, count, window)
  {
  }

  lemma {:induction false} SubsetSize<T>(a: set<T>, b: set<T>)
    requires a <= b
    ensures |a| <= |b|
  {
    if a != {} {
      var x :| x in a;
      SubsetSize(a - {x}, b - {x});
    }
  }

  lemma UnionSize<T>(a: set<T>, b: set<T>, c: set<T>)
    requires a <= b + c
    ensures |a| <= |b| + |c|
  {
    SubsetSize(a, b + c);
    assert |b + c| == |b| + |c| - |b * c|;
  }

  /**
   * Every forward by a limit rule was granted: the deciding rule was in the store at some earlier
   * state, and the grant is for that rule, its own window kind, and the query's own clock reading.
   */
  lemma ForwardsAreGranted(run: seq<System>, i: nat, qid: Qid)
    requires IsRun(run) && i < |run|
    requires qid in run[i].queries && run[i].queries[qid].pc == Done(LimitOk)
    ensures var q := run[i].queries[qid];
            && HasLimit(q)
            && qid in run[i].grants
            && run[i].grants[qid].rule == q.seen.rules[q.fired.value].id
            && Limits(q.seen.rules[q.fired.value], LimitFor(q).limitCount, run[i].grants[qid].window)
            && (exists j: nat :: j <= i && Stored(run[j], q.seen.rules[q.fired.value]))
            && (exists j: nat :: j < i && TimedAt(run[j], qid, run[i].grants[qid].now))
  {
    hide IsRun, IdsOk, QuotaOk, PastIssued, SnapshotsOk, Stored, SeenOk, ScanOk, TimedAt;
    RunKeepsInv(run, i);
    var q := run[i].queries[qid];
    QueryFacts(run[i].past, run[i].queries, qid);
    RuleWasStored(run, i, qid, q.fired.value);
    GrantWasTimed(run, i, qid);
  }

  ghost predicate TimedAt(s: System, qid: Qid, now: int) {
    qid in s.queries && s.queries[qid].pc == AtLock(now)
  }

  lemma RuleWasStored(run: seq<System>, i: nat, qid: Qid, k: nat)
    requires IsRun(run) && i < |run| && qid in run[i].queries
    requires SeenOk(run[i].past, run[i].queries[qid]) && k < |run[i].queries[qid].seen.rules|
    ensures exists j: nat :: j <= i && Stored(run[j], run[i].queries[qid].seen.rules[k])
  {
    hide IsRun;
    var q := run[i].queries[qid];
    MomentReached(run, i, q.seen.moment);
    var j: nat :| j <= i && Shows(run, j, q.seen.moment, run[i].past[q.seen.moment]);
    assert q.account in PoliciesOf(run[j].store);
    assert Stored(run[j], q.seen.rules[k]);
  }

  lemma GrantStep(s: System, step: Step, qid: Qid)
    requires Enabled(s, step) && qid in Apply(s, step).grants
    ensures (qid in s.grants && Apply(s, step).grants[qid] == s.grants[qid])
            || TimedAt(s, qid, Apply(s, step).grants[qid].now)
  {
    hide SpendFor, PoliciesOf, Scanned, Arriving, Created, Committed, IssuedBy, SeenIn, HasLimit, LimitFor;
    if step.Spend? {
      SpendGrants(s, step.qid);
    }
  }

  lemma SpendGrants(s: System, qid: Qid)
    requires Enabled(s, Spend(qid))
    ensures var q, g := s.queries[qid], SpendFor(s, qid).grants;
            g == s.grants || g == s.grants[qid := Grant(LimitFor(q).ruleId, LimitFor(q).window, q.pc.now)]
  {
    hide Spent, BucketOf, DecisionOf;
    assert s.queries[qid].pc.AtLock? && HasLimit(s.queries[qid]);
  }

  lemma {:induction false} GrantWasTimed(run: seq<System>, i: nat, qid: Qid)
    requires IsRun(run) && i < |run| && qid in run[i].grants
    ensures exists j: nat :: j < i && TimedAt(run[j], qid, run[i].grants[qid].now)
    decreases i
  {
    hide Inv, Apply, Enabled, IsRun, TimedAt;
    StartGrants(run);
    var step := RunStep(run, i);
    GrantStep(run[i - 1], step, qid);
    if qid in run[i - 1].grants && run[i].grants[qid] == run[i - 1].grants[qid] {
      GrantWasTimed(run, i - 1, qid);
      var j: nat :| j < i - 1 && TimedAt(run[j], qid, run[i - 1].grants[qid].now);
      assert TimedAt(run[j], qid, run[i].grants[qid].now);
    }
  }

  lemma StartGrants(run: seq<System>)
    requires IsRun(run)
    ensures run[0].grants == map[]
  {
    hide StepsTo;
  }

  /**
   * Quota safety. In every state of every run the stored counter of a limit rule and window is the number
   * of queries granted there, and neither it nor the number forwarded exceeds the rule's own count.
   */
  lemma QuotaSafety(run: seq<System>, i: nat, j: nat, rule: Rule, count: int, window: Window, now: int)
    requires IsRun(run) && i < |run| && j < |run| && Stored(run[j], rule) && Limits(rule, count, window)
    ensures var s, start, end := run[i], WindowStart(now, window), WindowEnd(now, window);
            var counter, forwarded := Count(s.store, (rule.id, start)), Forwarded(s, rule.id, start, end);
            && counter == |GrantSet(s.grants, (rule.id, start))|
            && forwarded <= GrantSet(s.grants, (rule.id, start))
            && |forwarded| <= counter && (counter == 0 || counter <= count)
  {
    hide IsRun, WindowStart, WindowEnd, Stored, Inv, Forwarded, GrantSet, Count, DecisionOf;
    LimitsAreDecision(rule, count, window);
    var s, start, end := run[i], WindowStart(now, window), WindowEnd(now, window);
    BucketBound(run, i, j, rule, start);
    ForwardedInBucket(run, i, j, rule, now);
    SubsetSize(Forwarded(s, rule.id, start, end), GrantSet(s.grants, (rule.id, start)));
  }

  /** A rule once stored keeps its record; rules that were not stored yet have none. */
  lemma RecordOf(run: seq<System>, i: nat, j: nat, rule: Rule)
    requires IsRun(run) && i < |run| && j < |run| && Stored(run[j], rule)
    ensures Inv(run[i])
    ensures rule.id in run[i].issued ==> run[i].issued[rule.id] == rule
  {
    hide IsRun, Inv, Stored;
    RunKeepsInv(run, i);
    RunKeepsInv(run, j);
    StoredOnRecord(run[j], rule);
    if rule.id in run[i].issued {
      if i <= j {
        IssuedKept(run, i, j, rule.id);
      } else {
        IssuedKept(run, j, i, rule.id);
      }
    }
  }

  lemma BucketBound(run: seq<System>, i: nat, j: nat, rule: Rule, start: int)
    requires IsRun(run) && i < |run| && j < |run| && Stored(run[j], rule) && DecisionOf(rule).Limit?
    ensures Count(run[i].store, (rule.id, start)) == |GrantSet(run[i].grants, (rule.id, start))|
    ensures var n := Count(run[i].store, (rule.id, start)); n == 0 || n <= DecisionOf(rule).limitCount
  {
    hide IsRun, IdsOk, GrantsOk, QueriesOk, PastIssued, SnapshotsOk, Stored, GrantSet;
    RecordOf(run, i, j, rule);
    BudgetIs(rule, DecisionOf(rule));
    var b: Bucket := (rule.id, start);
    if b in run[i].store.quota {
      var id := b.0;
      assert id in run[i].issued;
    }
  }

  /** Every grant under a rule is for that rule's window kind. */
  lemma GrantWindow(run: seq<System>, i: nat, j: nat, rule: Rule, qid: Qid)
    requires IsRun(run) && i < |run| && j < |run| && Stored(run[j], rule) && DecisionOf(rule).Limit?
    requires qid in run[i].grants && run[i].grants[qid].rule == rule.id
    ensures run[i].grants[qid].window == DecisionOf(rule).window
  {
    hide IsRun, IdsOk, PastIssued, SnapshotsOk, Stored, QuotaOk, SeenOk, ScanOk, PcOk;
    RecordOf(run, i, j, rule);
    QueryFacts(run[i].past, run[i].queries, qid);
    LimitOnRecord(run[i].past, run[i].issued, run[i].queries[qid]);
  }

  lemma ForwardedInBucket(run: seq<System>, i: nat, j: nat, rule: Rule, now: int)
    requires IsRun(run) && i < |run| && j < |run| && Stored(run[j], rule) && DecisionOf(rule).Limit?
    ensures var limit := DecisionOf(rule);
            var s, start, end := run[i], WindowStart(now, limit.window), WindowEnd(now, limit.window);
            Forwarded(s, rule.id, start, end) <= GrantSet(s.grants, (rule.id, start))
  {
    hide IsRun, WindowStart, WindowEnd, Stored, Inv;
    var limit := DecisionOf(rule);
    var s, start, end := run[i], WindowStart(now, limit.window), WindowEnd(now, limit.window);
    forall qid | qid in Forwarded(s, rule.id, start, end)
      ensures qid in GrantSet(s.grants, (rule.id, start))
    {
      GrantWindow(run, i, j, rule, qid);
      WindowStartInside(now, s.grants[qid].now, limit.window);
    }
  }

  /**
   * The sliding bound: within any interval as long as an hour, a day, a week or 28 days, a limit rule
   * with that window lets at most twice its own count through.
   */
  lemma SlidingBound(run: seq<System>, i: nat, j: nat, rule: Rule, count: int, window: Window, span: nat, t: int)
    requires IsRun(run) && i < |run| && j < |run| && Stored(run[j], rule) && Limits(rule, count, window)
    requires match window
             case Hour => span == 60 * 60
             case Day => span == 24 * 60 * 60
             case Week => span == 7 * 24 * 60 * 60
             case Month => span == 28 * 24 * 60 * 60
    ensures var n := |Forwarded(run[i], rule.id, t, t + span)|; n == 0 || n <= 2 * count
  {
    hide IsRun, WindowStart, WindowEnd, Stored, Inv, Count, DecisionOf;
    LimitsAreDecision(rule, count, window);
    var s := run[i];
    var first, second := WindowStart(t, window), WindowEnd(t, window);
    forall qid | qid in Forwarded(s, rule.id, t, t + span)
      ensures qid in GrantSet(s.grants, (rule.id, first)) + GrantSet(s.grants, (rule.id, second))
    {
      GrantWindow(run, i, j, rule, qid);
      TwoWindows(t, s.grants[qid].now, window);
    }
    UnionSize(Forwarded(s, rule.id, t, t + span),
              GrantSet(s.grants, (rule.id, first)), GrantSet(s.grants, (rule.id, second)));
    BucketBound(run, i, j, rule, first);
    BucketBound(run, i, j, rule, second);
  }

  /**
   * And nothing is refused too early: at the lock a query is granted exactly when fewer grants than the
   * deciding rule's own count are on record for the rule and the window of the query's clock reading.
   */
  lemma LockGrantsExactly(run: seq<System>, i: nat, qid: Qid, rule: Rule, count: int, window: Window, now: int)
    requires IsRun(run) && i < |run| && qid in run[i].queries && run[i].queries[qid].pc == AtLock(now)
    requires var q := run[i].queries[qid];
             q.fired.Some? && q.fired.value < |q.seen.rules| && q.seen.rules[q.fired.value] == rule
    requires Limits(rule, count, window)
    ensures Enabled(run[i], Spend(qid)) && qid in Apply(run[i], Spend(qid)).queries
    ensures Apply(run[i], Spend(qid)).queries[qid].pc ==
            if |GrantSet(run[i].grants, (rule.id, WindowStart(now, window)))| < count then Granted
            else Done(LimitExceeded)
  {
    hide IsRun, IdsOk, PastIssued, SnapshotsOk, GrantsOk, QueriesOk, WindowStart, GrantSet, DecisionOf;
    LimitsAreDecision(rule, count, window);
    RunKeepsInv(run, i);
    CounterIsGrants(run[i], (rule.id, WindowStart(now, window)));
  }

  lemma CounterIsGrants(s: System, b: Bucket)
    requires QuotaOk(s.store, s.issued, s.grants)
    ensures Count(s.store, b) == |GrantSet(s.grants, b)|
  {
    hide GrantSet, Count;
  }

  /** A query that reaches a limit rule without a budget is refused at its clock reading. */
  lemma NoBudgetNoGrant(s: System, qid: Qid, rule: Rule, count: int, window: Window, now: int)
    requires HasQuery(s, qid, AtQuota)
    requires var q := s.queries[qid];
             q.fired.Some? && q.fired.value < |q.seen.rules| && q.seen.rules[q.fired.value] == rule
    requires Limits(rule, count, window)
    ensures Enabled(s, ReadClock(qid, now)) && qid in Apply(s, ReadClock(qid, now)).queries
    ensures Apply(s, ReadClock(qid, now)).queries[qid].pc == if count <= 0 then Done(LimitExceeded) else AtLock(now)
  {
    hide DecisionOf;
    LimitsAreDecision(rule, count, window);
  }
}
