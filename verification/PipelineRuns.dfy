/** What holds in every state of every run of the pipeline, however the steps interleave. */
module PipelineRuns {
  import opened Prelude
  import opened RuleEngine
  import opened Storage
  import opened Pipeline
  import opened PipelineSafety

  ghost predicate StepsTo(s: System, t: System) {
    exists step :: Enabled(s, step) && t == Apply(s, step)
  }

  /** A run starts empty and takes one enabled step at a time. */
  ghost predicate IsRun(run: seq<System>) {
    && |run| > 0 && (exists presets :: run[0] == Start(presets))
    && forall i :: 0 < i < |run| ==> StepsTo(run[i - 1], run[i])
  }

  lemma {:induction false} RunKeepsInv(run: seq<System>, i: nat)
    requires IsRun(run) && i < |run|
    ensures Inv(run[i])
  {
    hide Inv, Apply, Enabled;
    if i == 0 {
      var presets :| run[0] == Start(presets);
      StartInv(presets);
    } else {
      RunKeepsInv(run, i - 1);
      assert StepsTo(run[i - 1], run[i]);
      var step :| Enabled(run[i - 1], step) && run[i] == Apply(run[i - 1], step);
      StepKeepsInv(run[i - 1], step);
    }
  }

  // ---------------------------------------------------------------- the history is what happened

  lemma PastStep(s: System, step: Step)
    requires Enabled(s, step)
    ensures var t := Apply(s, step); t.past == s.past || t.past == s.past + [PoliciesOf(t.store)]
  {
    hide Spent, PoliciesOf, Scanned, Arriving, Created, Committed, IssuedBy, BucketOf, SeenIn;
  }

  lemma MomentStep(s: System, step: Step)
    requires Inv(s) && Enabled(s, step)
    ensures s.cacheMoment <= Apply(s, step).cacheMoment
  {
    hide IdsOk, QueriesOk, GrantsOk, QuotaOk, PastIssued, Spent, PoliciesOf, Scanned, Arriving,
      Created, Committed, IssuedBy, BucketOf, SeenIn;
  }

  lemma IssuedStep(s: System, step: Step, id: int)
    requires Inv(s) && Enabled(s, step) && id in s.issued
    ensures var t := Apply(s, step); id in t.issued && t.issued[id] == s.issued[id]
  {
    hide Inv, Spent, PoliciesOf, Scanned, Arriving, Created, Committed, IssuedBy, BucketOf, SeenIn;
    if step.CommitReplace? {
      CommitIssued(s, step.op);
    }
  }

  lemma CommitIssued(s: System, op: Opid)
    requires Inv(s) && op in s.replacing
    ensures var more := s.issued + IssuedBy(s.store, s.replacing[op]);
            forall id :: id in s.issued ==> id in more && more[id] == s.issued[id]
  {
    hide QueriesOk, GrantsOk, QuotaOk, PastIssued, SnapshotsOk, PoliciesOf, IssuedBy, Committed, ListsIssued;
    StoredIssued(s);
    CommittedKeeps(s.store, s.issued, s.replacing, op);
  }

  lemma AccountsStep(s: System, step: Step, number: Text)
    requires Enabled(s, step) && number in s.store.accounts
    ensures var t := Apply(s, step);
            number in t.store.accounts && t.store.accounts[number].account == s.store.accounts[number].account
  {
    hide PoliciesOf, Scanned, IssuedBy, NumberedAll, Listed, Arriving, SeenIn, BucketOf, Spent;
    if step.Spend? {
      var q := s.queries[step.qid];
      var limit := LimitFor(q);
      SpentKeeps(s.store, BucketOf(Grant(limit.ruleId, limit.window, q.pc.now)), limit.limitCount);
    }
  }

  /** The step from state `i - 1` of a run to state `i`. */
  lemma RunStep(run: seq<System>, i: nat) returns (step: Step)
    requires IsRun(run) && 0 < i < |run|
    ensures Inv(run[i - 1]) && Enabled(run[i - 1], step) && run[i] == Apply(run[i - 1], step)
  {
    hide Inv, Apply, Enabled;
    RunKeepsInv(run, i - 1);
    assert StepsTo(run[i - 1], run[i]);
    step :| Enabled(run[i - 1], step) && run[i] == Apply(run[i - 1], step);
  }

  lemma {:induction false} PastGrows(run: seq<System>, i: nat, j: nat)
    requires IsRun(run) && i <= j < |run|
    ensures run[i].past <= run[j].past && run[i].cacheMoment <= run[j].cacheMoment
    decreases j
  {
    hide Inv, Apply, Enabled, PoliciesOf, IsRun;
    if i < j {
      PastGrows(run, i, j - 1);
      var step := RunStep(run, j);
      PastStep(run[j - 1], step);
      MomentStep(run[j - 1], step);
    }
  }

  lemma LastMoment(s: System)
    requires Inv(s)
    ensures |s.past| > 0 && s.past[|s.past| - 1] == PoliciesOf(s.store) && s.cacheMoment < |s.past|
    ensures s.cache == s.past[s.cacheMoment]
  {
    hide IdsOk, QueriesOk, GrantsOk, QuotaOk, PastIssued, PoliciesOf;
  }

  /** State `j` of the run is where the store first held what moment `m` of the history remembers. */
  ghost predicate Shows(run: seq<System>, j: nat, m: nat, lists: PolicyMap) {
    j < |run| && |run[j].past| == m + 1 && PoliciesOf(run[j].store) == lists
  }

  lemma {:induction false} MomentReached(run: seq<System>, i: nat, m: nat)
    requires IsRun(run) && i < |run| && m < |run[i].past|
    ensures exists j: nat :: j <= i && Shows(run, j, m, run[i].past[m])
    decreases i
  {
    hide Inv, Apply, Enabled, PoliciesOf, IsRun;
    RunKeepsInv(run, i);
    LastMoment(run[i]);
    if m + 1 == |run[i].past| {
      assert Shows(run, i, m, run[i].past[m]);
    } else {
      StartLength(run);
      var step := RunStep(run, i);
      PastStep(run[i - 1], step);
      MomentReached(run, i - 1, m);
      var j: nat :| j <= i - 1 && Shows(run, j, m, run[i - 1].past[m]);
      assert Shows(run, j, m, run[i].past[m]);
    }
  }

  lemma StartLength(run: seq<System>)
    requires IsRun(run)
    ensures |run[0].past| == 1
  {
    hide StepsTo;
  }

  // ---------------------------------------------------------------- identities

  ghost predicate Stored(s: System, rule: Rule) {
    exists number :: number in s.store.accounts && rule in s.store.accounts[number].rules
  }

  lemma StoredOnRecord(s: System, rule: Rule)
    requires Inv(s) && Stored(s, rule)
    ensures rule.id in s.issued && s.issued[rule.id] == rule
  {
    hide IdsOk, QueriesOk, GrantsOk, QuotaOk, PastIssued, SnapshotsOk;
    StoredIssued(s);
    var number :| number in s.store.accounts && rule in s.store.accounts[number].rules;
    assert PoliciesOf(s.store)[number].rules == s.store.accounts[number].rules;
    assert ListIssued(s.issued, PoliciesOf(s.store)[number].rules);
  }

  lemma {:induction false} IssuedKept(run: seq<System>, i: nat, j: nat, id: int)
    requires IsRun(run) && i <= j < |run| && id in run[i].issued
    ensures id in run[j].issued && run[j].issued[id] == run[i].issued[id]
    decreases j
  {
    hide Inv, Apply, Enabled, IsRun;
    if i < j {
      IssuedKept(run, i, j - 1, id);
      var step := RunStep(run, j);
      IssuedStep(run[j - 1], step, id);
    }
  }

  /** A rule id never comes back for another rule, in any list of any account at any time. */
  lemma RuleIdsNeverReused(run: seq<System>, i: nat, j: nat, first: Rule, second: Rule)
    requires IsRun(run) && i < |run| && j < |run|
    requires Stored(run[i], first) && Stored(run[j], second) && first.id == second.id
    ensures first == second
  {
    hide Inv, Stored, IsRun;
    RunKeepsInv(run, i);
    RunKeepsInv(run, j);
    StoredOnRecord(run[i], first);
    StoredOnRecord(run[j], second);
    if i <= j {
      IssuedKept(run, i, j, first.id);
    } else {
      IssuedKept(run, j, i, first.id);
    }
  }

  lemma {:induction false} AccountKept(run: seq<System>, i: nat, j: nat, number: Text)
    requires IsRun(run) && i <= j < |run| && number in run[i].store.accounts
    ensures number in run[j].store.accounts
    ensures run[j].store.accounts[number].account == run[i].store.accounts[number].account
    decreases j
  {
    hide Inv, Apply, Enabled, IsRun;
    if i < j {
      AccountKept(run, i, j - 1, number);
      var step := RunStep(run, j);
      AccountsStep(run[j - 1], step, number);
    }
  }

  /** Accounts never go away, and an account id never comes back for another number. */
  lemma AccountIdsNeverReused(run: seq<System>, i: nat, j: nat, first: Text, second: Text)
    requires IsRun(run) && i <= j < |run|
    requires first in run[i].store.accounts && second in run[j].store.accounts
    ensures first in run[j].store.accounts
    ensures run[i].store.accounts[first].account.id == run[j].store.accounts[second].account.id <==> first == second
  {
    hide IsRun, QueriesOk, GrantsOk, QuotaOk, PastIssued, SnapshotsOk, RuleIdsOk, ReplacingOk;
    AccountKept(run, i, j, first);
    RunKeepsInv(run, j);
  }

  /**
   * A replacement never loses its account between its two locks: whatever runs in between, the second
   * lock finds it, under the id the first lock returned. So the second half can always run.
   */
  lemma RelockFindsAccount(run: seq<System>, i: nat, op: Opid)
    requires IsRun(run) && i < |run| && op in run[i].replacing
    ensures Enabled(run[i], CommitReplace(op))
    ensures var r := run[i].replacing[op];
            && r.number in run[i].store.accounts
            && run[i].store.accounts[r.number].account == Account(r.accountId, r.number)
  {
    hide IsRun, QueriesOk, GrantsOk, QuotaOk, PastIssued, SnapshotsOk, RuleIdsOk;
    RunKeepsInv(run, i);
    InReplacing(run[i].store.accounts, run[i].replacing, op);
  }

  /** The ids a replacement hands out were never in use, and nothing has been spent under them. */
  lemma FreshRulesUnspent(run: seq<System>, i: nat, op: Opid, rule: Rule, start: int)
    requires IsRun(run) && i < |run| && op in run[i].replacing
    requires var r := run[i].replacing[op];
             r.change.NewRules? && rule in NumberedAll(r.change.rules, run[i].store.nextRuleId + 1, r.accountId)
    ensures rule.id !in run[i].issued
    ensures forall j, earlier :: 0 <= j <= i && Stored(run[j], earlier) ==> earlier.id != rule.id
    ensures Count(run[i].store, (rule.id, start)) == 0
  {
    hide IsRun, QueriesOk, GrantsOk, QuotaOk, PastIssued, SnapshotsOk, Stored, AccountsOk, ReplacingOk, Count;
    RunKeepsInv(run, i);
    forall j, earlier | 0 <= j <= i && Stored(run[j], earlier)
      ensures earlier.id in run[i].issued
    {
      RunKeepsInv(run, j);
      StoredOnRecord(run[j], earlier);
      IssuedKept(run, j, i, earlier.id);
    }
    UnknownUnspent(run[i].store, run[i].issued, run[i].grants, rule.id, start);
  }

  lemma UnknownUnspent(store: Store, issued: map<int, Rule>, grants: map<Qid, Grant>, id: int, start: int)
    requires QuotaOk(store, issued, grants) && id !in issued
    ensures Count(store, (id, start)) == 0
  {
    var b: Bucket := (id, start);
    assert b !in store.quota;
  }
}
