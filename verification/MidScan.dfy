/**
 * A category index replaced while a query's rules are being checked: which rules can then decide, and
 * exactly when the query still ends as `evaluate` on one of the two indexes.
 */
module MidScan {
  import opened Prelude
  import opened Texts
  import opened Names
  import opened Questions
  import opened Packets
  import opened RuleEngine
  import opened Categories
  import opened Storage
  import opened Pipeline
  import opened PipelineSafety
  import opened PipelineRuns
  import opened DecisionGuarantee

  // ---------------------------------------------------------------- which rule decides

  /** The first rule from `c` on that fires, or the number of rules when none does. */
  function FirstFrom(rules: seq<Rule>, c: nat, qname: Text, oracle: Text -> bool): (r: nat)
    requires c <= |rules|
    ensures c <= r <= |rules|
    ensures r < |rules| ==> Fires(rules, r, qname, oracle)
    ensures forall k: nat :: c <= k < r ==> !Fires(rules, k, qname, oracle)
    decreases |rules| - c
  {
    if c == |rules| || Fires(rules, c, qname, oracle) then c else FirstFrom(rules, c + 1, qname, oracle)
  }

  function FirstOn(rules: seq<Rule>, qname: Text, m: CategoryMap): nat {
    FirstFrom(rules, 0, qname, Oracle(m, qname))
  }

  /** The rule that decides when the first `c` rules are checked on `before` and the others on `after`. */
  function Mixed(rules: seq<Rule>, c: nat, qname: Text, before: CategoryMap, after: CategoryMap): (r: nat)
    requires c <= |rules|
    ensures r <= |rules|
  {
    if FirstOn(rules, qname, before) < c then FirstOn(rules, qname, before)
    else FirstFrom(rules, c, qname, Oracle(after, qname))
  }

  function DecisionAt(rules: seq<Rule>, k: nat): Option<Decision> {
    if k < |rules| then Some(DecisionOf(rules[k])) else None
  }

  /** The new index matches no earlier than the old one; or, past its own match, next at the old one's. */
  predicate SameMatch(rules: seq<Rule>, qname: Text, before: CategoryMap, after: CategoryMap) {
    var fb, fa := FirstOn(rules, qname, before), FirstOn(rules, qname, after);
    fb <= fa || FirstFrom(rules, fa + 1, qname, Oracle(after, qname)) == fb
  }

  /**
   * The same for decisions: every rule that fires on the new index between its first match and the old
   * one's, and the first to fire from the old one's on, decides as one of those two does.
   */
  predicate SameDecision(rules: seq<Rule>, qname: Text, before: CategoryMap, after: CategoryMap) {
    var fb, fa := FirstOn(rules, qname, before), FirstOn(rules, qname, after);
    var either := {DecisionAt(rules, fb), DecisionAt(rules, fa)};
    fb <= fa ||
    (&& DecisionAt(rules, FirstFrom(rules, fb, qname, Oracle(after, qname))) in either
     && forall k: nat :: fa < k < fb && Fires(rules, k, qname, Oracle(after, qname)) ==> DecisionAt(rules, k) in either)
  }

  /** Two scans from different places that see nothing fire in between end alike. */
  lemma FirstFromLater(rules: seq<Rule>, c: nat, d: nat, qname: Text, oracle: Text -> bool)
    requires c <= d <= |rules| && d <= FirstFrom(rules, c, qname, oracle)
    ensures FirstFrom(rules, d, qname, oracle) == FirstFrom(rules, c, qname, oracle)
  {
    hide Fires;
  }

  /** Where an interrupted scan can end up. */
  lemma MixedCases(rules: seq<Rule>, c: nat, qname: Text, before: CategoryMap, after: CategoryMap)
    requires c <= |rules|
    ensures var fb, fa := FirstOn(rules, qname, before), FirstOn(rules, qname, after);
            var r := Mixed(rules, c, qname, before, after);
            var oracle := Oracle(after, qname);
            && (fb < c ==> r == fb)
            && (c <= fa && c <= fb ==> r == fa)
            && (fa < c <= fb ==>
                  (fa < r < fb && Fires(rules, r, qname, oracle)) || r == FirstFrom(rules, fb, qname, oracle))
  {
    hide Fires;
    var fb, fa, oracle := FirstOn(rules, qname, before), FirstOn(rules, qname, after), Oracle(after, qname);
    if c <= fa {
      FirstFromLater(rules, 0, c, qname, oracle);
    } else if c <= fb && fb <= FirstFrom(rules, c, qname, oracle) {
      FirstFromLater(rules, c, fb, qname, oracle);
    }
  }

  /** Wherever the index is replaced, the deciding rule is one of the two first matches, exactly then. */
  lemma MixedMatchesExactly(rules: seq<Rule>, qname: Text, before: CategoryMap, after: CategoryMap)
    ensures var fb, fa := FirstOn(rules, qname, before), FirstOn(rules, qname, after);
            SameMatch(rules, qname, before, after) <==>
            forall c: nat :: c <= |rules| ==> Mixed(rules, c, qname, before, after) in {fb, fa}
  {
    hide Fires;
    var fb, fa, oracle := FirstOn(rules, qname, before), FirstOn(rules, qname, after), Oracle(after, qname);
    if SameMatch(rules, qname, before, after) {
      forall c: nat | c <= |rules|
        ensures Mixed(rules, c, qname, before, after) in {fb, fa}
      {
        MixedCases(rules, c, qname, before, after);
        if fa < c <= fb {
          FirstFromLater(rules, fa + 1, c, qname, oracle);
        }
      }
    } else {
      assert Mixed(rules, fa + 1, qname, before, after) == FirstFrom(rules, fa + 1, qname, oracle);
    }
  }

  lemma MixedDecisionsExactly(rules: seq<Rule>, qname: Text, before: CategoryMap, after: CategoryMap)
    ensures var fb, fa := FirstOn(rules, qname, before), FirstOn(rules, qname, after);
            SameDecision(rules, qname, before, after) <==>
            forall c: nat :: c <= |rules| ==>
              DecisionAt(rules, Mixed(rules, c, qname, before, after)) in {DecisionAt(rules, fb), DecisionAt(rules, fa)}
  {
    hide Fires, DecisionAt;
    var fb, fa, oracle := FirstOn(rules, qname, before), FirstOn(rules, qname, after), Oracle(after, qname);
    var either := {DecisionAt(rules, fb), DecisionAt(rules, fa)};
    forall c: nat | c <= |rules| && SameDecision(rules, qname, before, after)
      ensures DecisionAt(rules, Mixed(rules, c, qname, before, after)) in either
    {
      MixedCases(rules, c, qname, before, after);
    }
    if fa < fb && forall c: nat :: c <= |rules| ==> DecisionAt(rules, Mixed(rules, c, qname, before, after)) in either {
      assert Mixed(rules, fb, qname, before, after) == FirstFrom(rules, fb, qname, oracle);
      forall k: nat | fa < k < fb && Fires(rules, k, qname, oracle)
        ensures DecisionAt(rules, k) in either
      {
        assert Mixed(rules, k, qname, before, after) == k;
      }
    }
  }

  lemma EvaluateIsFirstOn(rules: seq<Rule>, qname: Text, m: CategoryMap)
    ensures Evaluate(rules, qname, Oracle(m, qname)) == DecisionAt(rules, FirstOn(rules, qname, m))
  {
    hide Fires, Evaluate, DecisionOf;
    EvaluateIsFirstMatch(rules, qname, Oracle(m, qname));
    var f := FirstOn(rules, qname, m);
    if f < |rules| {
      assert FirstMatch(rules, f, qname, Oracle(m, qname));
    }
  }

  // ---------------------------------------------------------------- what runs can do

  function Last(run: seq<System>): System
    requires run != []
  {
    run[|run| - 1]
  }

  function Chosen(q: Query): nat {
    if q.fired.Some? then q.fired.value else |q.seen.rules|
  }

  /** The last step of the run is the cache read of `qid`. */
  ghost predicate FreshScan(run: seq<System>, qid: Qid) {
    IsRun(run) && |run| >= 2 && Reads(run, |run| - 2, qid)
  }

  /**
   * A run that goes on from `run` until the query is decided, in which the index stays what it was,
   * becomes `after` once, right after state `r`, and then stays that; anything else may happen between.
   */
  ghost predicate ReplacedOnce(run: seq<System>, longer: seq<System>, r: nat, qid: Qid, after: CategoryMap) {
    && run != [] && run <= longer && IsRun(longer)
    && |run| - 1 <= r < |longer| - 1
    && (forall j: nat :: |run| - 1 <= j <= r ==> longer[j].index == Last(run).index)
    && (forall j: nat :: r < j < |longer| ==> longer[j].index == after)
    && qid in Last(longer).queries && Decided(Last(longer).queries[qid])
  }

  /** How many of the increasing `times` are not after `r`. */
  lemma {:induction false} SplitTimes(times: seq<nat>, r: nat) returns (c: nat)
    requires forall k, l :: 0 <= k < l < |times| ==> times[k] < times[l]
    ensures c <= |times|
    ensures forall k :: 0 <= k < |times| ==> (times[k] <= r <==> k < c)
  {
    if times == [] || times[|times| - 1] <= r {
      c := |times|;
    } else {
      c := SplitTimes(times[..|times| - 1], r);
    }
  }

  lemma ChosenIsMixed(q: Query, c: nat, before: CategoryMap, after: CategoryMap)
    requires c <= |q.seen.consulted| <= |q.seen.rules|
    requires forall k :: 0 <= k < |q.seen.consulted| ==> q.seen.consulted[k] == if k < c then before else after
    requires if q.fired.Some? then q.fired.value + 1 == |q.seen.consulted| && FiredAt(q, q.fired.value)
             else |q.seen.consulted| == |q.seen.rules|
    requires forall k: nat :: k < |q.seen.consulted| && (q.fired.Some? ==> k < q.fired.value) ==> !FiredAt(q, k)
    ensures Chosen(q) == Mixed(q.seen.rules, c, q.qname, before, after)
  {
    hide Fires;
    var rules, fb := q.seen.rules, FirstOn(q.seen.rules, q.qname, before);
    var v := Chosen(q);
    assert forall k: nat :: k < |q.seen.consulted| && k < c ==>
        FiredAt(q, k) == Fires(rules, k, q.qname, Oracle(before, q.qname));
    assert forall k: nat :: k < |q.seen.consulted| && k >= c ==>
        FiredAt(q, k) == Fires(rules, k, q.qname, Oracle(after, q.qname));
  }

  /** However the run goes on around one replacement, some number of checks came before it. */
  lemma ReplacementMixes(run: seq<System>, longer: seq<System>, r: nat, qid: Qid, after: CategoryMap)
    requires FreshScan(run, qid) && ReplacedOnce(run, longer, r, qid, after)
    ensures qid in Last(run).queries
    ensures var was, q := Last(run).queries[qid], Last(longer).queries[qid];
            && q.seen.rules == was.seen.rules && q.qname == was.qname
            && (q.fired.Some? ==> q.fired.value < |q.seen.rules|)
            && exists c: nat :: c <= |was.seen.rules|
                 && Chosen(q) == Mixed(was.seen.rules, c, was.qname, Last(run).index, after)
  {
    hide IsRun, Mixed, FiredAt, Decided, Apply, Enabled;
    var a := |run| - 2;
    assert run[a] == longer[a] && run[a + 1] == longer[a + 1];
    var times := ConsultedWasIndex(longer, a, |longer| - 1, qid);
    FirstMatchDecides(longer, |longer| - 1, qid);
    var c := SplitTimes(times, r);
    ChosenIsMixed(Last(longer).queries[qid], c, Last(run).index, after);
  }

  lemma ExtendRun(run: seq<System>, step: Step)
    requires IsRun(run) && Enabled(Last(run), step)
    ensures IsRun(run + [Apply(Last(run), step)])
  {
    hide Enabled, Apply, Start;
    var longer := run + [Apply(Last(run), step)];
    assert StepsTo(Last(run), Apply(Last(run), step));
    assert longer[0] == run[0];
    forall i | 0 < i < |longer|
      ensures StepsTo(longer[i - 1], longer[i])
    {
      if i < |run| {
        assert longer[i - 1] == run[i - 1] && longer[i] == run[i];
      }
    }
  }

  /** One check of a scan against `m`. */
  lemma CheckedOn(q: Query, m: CategoryMap)
    requires q.pc == Scanning && q.fired.None? && |q.seen.consulted| < |q.seen.rules|
    ensures var i, r := |q.seen.consulted|, Scanned(q, m);
            && SameSeen(r, q) && r.seen.consulted == q.seen.consulted + [m]
            && if Fires(q.seen.rules, i, q.qname, Oracle(m, q.qname))
               then r.fired == Some(i) && Decided(r)
               else r.fired == None && r.pc == Scanning
  {
    hide Fires, DecisionOf;
  }

  /** What checking the next `n` rules against `m` leaves. */
  predicate CheckedNext(r: Query, q: Query, n: nat, m: CategoryMap)
    requires |q.seen.consulted| + n <= |q.seen.rules|
  {
    var k := |q.seen.consulted|;
    var f := FirstFrom(q.seen.rules, k, q.qname, Oracle(m, q.qname));
    && SameSeen(r, q)
    && if f < k + n then r.fired == Some(f) && Decided(r)
       else r.fired == None && r.pc == Scanning && |r.seen.consulted| == k + n
  }

  lemma CheckedFirst(q: Query, n: nat, m: CategoryMap, r: Query)
    requires q.pc == Scanning && q.fired.None? && n > 0 && |q.seen.consulted| + n <= |q.seen.rules|
    requires var s := Scanned(q, m);
             if s.pc == Scanning then |s.seen.consulted| + n - 1 <= |s.seen.rules| && CheckedNext(r, s, n - 1, m)
             else r == s
    ensures CheckedNext(r, q, n, m)
  {
    hide Fires, Scanned, DecisionOf;
    CheckedOn(q, m);
  }

  /** Nothing but the query's own checks, `n` of them or until one decides. */
  lemma {:induction false} ScanRun(run: seq<System>, qid: Qid, n: nat) returns (longer: seq<System>)
    requires IsRun(run) && run != []
    requires HasQuery(Last(run), qid, Scanning) && Last(run).queries[qid].fired.None?
    requires |Last(run).queries[qid].seen.consulted| + n <= |Last(run).queries[qid].seen.rules|
    ensures IsRun(longer) && run <= longer
    ensures forall j: nat :: |run| - 1 <= j < |longer| ==> longer[j].index == Last(run).index
    ensures qid in Last(longer).queries
    ensures CheckedNext(Last(longer).queries[qid], Last(run).queries[qid], n, Last(run).index)
    decreases n
  {
    hide IsRun, Scanned, CheckedNext;
    var s := Last(run);
    longer := run;
    if n == 0 {
      CheckedNone(s.queries[qid], s.index);
    } else {
      ExtendRun(run, Scan(qid));
      var next := run + [Apply(s, Scan(qid))];
      longer := next;
      var q := Scanned(s.queries[qid], s.index);
      ScanGoesOn(s.queries[qid], s.index);
      if q.pc == Scanning {
        longer := ScanRun(next, qid, n - 1);
      }
      CheckedFirst(s.queries[qid], n, s.index, Last(longer).queries[qid]);
    }
  }

  lemma CheckedNone(q: Query, m: CategoryMap)
    requires q.pc == Scanning && q.fired.None? && |q.seen.consulted| <= |q.seen.rules|
    ensures CheckedNext(q, q, 0, m)
  {
    hide Fires;
  }

  lemma ScanGoesOn(q: Query, m: CategoryMap)
    requires q.pc == Scanning && q.fired.None? && |q.seen.consulted| < |q.seen.rules|
    ensures var r := Scanned(q, m);
            r.pc == Scanning ==>
              r.fired.None? && r.seen.rules == q.seen.rules && |r.seen.consulted| == |q.seen.consulted| + 1
  {
    hide Fires, DecisionOf;
    CheckedOn(q, m);
  }

  /** The first `c` checks, and the replacement. */
  lemma ChecksThenReplacement(run: seq<System>, qid: Qid, c: nat, after: CategoryMap) returns (longer: seq<System>)
    requires IsRun(run) && run != []
    requires HasQuery(Last(run), qid, Scanning) && Last(run).queries[qid].fired.None?
    requires |Last(run).queries[qid].seen.consulted| + c <= |Last(run).queries[qid].seen.rules|
    ensures IsRun(longer) && run <= longer && |run| < |longer| && Last(longer).index == after
    ensures forall j: nat :: |run| - 1 <= j < |longer| - 1 ==> longer[j].index == Last(run).index
    ensures qid in Last(longer).queries
    ensures CheckedNext(Last(longer).queries[qid], Last(run).queries[qid], c, Last(run).index)
  {
    hide IsRun, CheckedNext;
    var first := ScanRun(run, qid, c);
    ExtendRun(first, ReplaceIndex(after));
    longer := first + [Apply(Last(first), ReplaceIndex(after))];
  }

  /** The rest of a scan, on an index that stays. */
  lemma RestOfScan(run: seq<System>, qid: Qid) returns (longer: seq<System>)
    requires IsRun(run) && run != []
    requires HasQuery(Last(run), qid, Scanning) && Last(run).queries[qid].fired.None?
    requires |Last(run).queries[qid].seen.consulted| <= |Last(run).queries[qid].seen.rules|
    ensures IsRun(longer) && run <= longer
    ensures forall j: nat :: |run| - 1 <= j < |longer| ==> longer[j].index == Last(run).index
    ensures qid in Last(longer).queries && Decided(Last(longer).queries[qid])
    ensures Last(longer).queries[qid].fired.None? ==> Last(longer).queries[qid].pc == Forwarding
    ensures var q := Last(run).queries[qid];
            Chosen(Last(longer).queries[qid])
            == FirstFrom(q.seen.rules, |q.seen.consulted|, q.qname, Oracle(Last(run).index, q.qname))
  {
    hide IsRun, Fires;
    var q := Last(run).queries[qid];
    longer := ScanRun(run, qid, |q.seen.rules| - |q.seen.consulted|);
    if Last(longer).queries[qid].pc == Scanning {
      ExtendRun(longer, FinishScan(qid));
      longer := longer + [Apply(Last(longer), FinishScan(qid))];
    }
  }

  /** Any number of checks can come before the replacement. */
  lemma MixedReached(run: seq<System>, qid: Qid, c: nat, after: CategoryMap) returns (longer: seq<System>, r: nat)
    requires FreshScan(run, qid) && qid in Last(run).queries && c <= |Last(run).queries[qid].seen.rules|
    ensures ReplacedOnce(run, longer, r, qid, after)
    ensures var was, q := Last(run).queries[qid], Last(longer).queries[qid];
            && Chosen(q) == Mixed(was.seen.rules, c, was.qname, Last(run).index, after)
            && (q.fired.None? ==> q.pc == Forwarding)
  {
    hide IsRun, Reads, Fires, Apply, Enabled;
    FreshlyRead(run, |run| - 2, qid);
    FreshFired(run, qid);
    longer := ChecksThenReplacement(run, qid, c, after);
    r := |longer| - 2;
    if Last(longer).queries[qid].pc == Scanning {
      longer := RestOfScan(longer, qid);
    }
  }

  lemma FreshFired(run: seq<System>, qid: Qid)
    requires FreshScan(run, qid)
    ensures qid in Last(run).queries && Last(run).queries[qid].fired.None?
  {
    hide IdsOk, GrantsOk, QuotaOk, PastIssued, SnapshotsOk, ScanOk, SeenOk;
    FreshlyRead(run, |run| - 2, qid);
    RunKeepsInv(run, |run| - 1);
    QueryFacts(Last(run).past, Last(run).queries, qid);
  }

  // ---------------------------------------------------------------- exactly when it is harmless

  /** The query decided as `evaluate` does on one of the two indexes. */
  predicate DecidesAsOne(q: Query, before: CategoryMap, after: CategoryMap) {
    && (q.fired.Some? ==> q.fired.value < |q.seen.rules|)
    && DecisionFor(q) in {Evaluate(q.seen.rules, q.qname, Oracle(before, q.qname)),
                          Evaluate(q.seen.rules, q.qname, Oracle(after, q.qname))}
  }

  lemma DecidesAtChosen(q: Query, before: CategoryMap, after: CategoryMap)
    requires q.fired.Some? ==> q.fired.value < |q.seen.rules|
    ensures DecidesAsOne(q, before, after) <==>
            DecisionAt(q.seen.rules, Chosen(q)) in {DecisionAt(q.seen.rules, FirstOn(q.seen.rules, q.qname, before)),
                                                    DecisionAt(q.seen.rules, FirstOn(q.seen.rules, q.qname, after))}
  {
    hide Fires, Evaluate, DecisionOf;
    EvaluateIsFirstOn(q.seen.rules, q.qname, before);
    EvaluateIsFirstOn(q.seen.rules, q.qname, after);
  }

  /**
   * A query has just read its rules. Every run that goes on from there with one replacement of the index
   * by `after` before the query is decided, whenever it comes and whatever else happens, decides by one
   * of the two first matches exactly when `SameMatch` holds of the rules, the name and the two indexes.
   */
  lemma ReplacementKeepsMatchExactly(run: seq<System>, qid: Qid, after: CategoryMap)
    requires FreshScan(run, qid) && qid in Last(run).queries
    ensures var q, before := Last(run).queries[qid], Last(run).index;
            SameMatch(q.seen.rules, q.qname, before, after) <==>
            forall longer, r: nat :: ReplacedOnce(run, longer, r, qid, after) ==>
              Chosen(Last(longer).queries[qid]) in
                {FirstOn(q.seen.rules, q.qname, before), FirstOn(q.seen.rules, q.qname, after)}
  {
    hide Reads, Mixed, FirstOn, SameMatch, Decided, IsRun;
    var q, before := Last(run).queries[qid], Last(run).index;
    var firsts := {FirstOn(q.seen.rules, q.qname, before), FirstOn(q.seen.rules, q.qname, after)};
    MixedMatchesExactly(q.seen.rules, q.qname, before, after);
    forall longer, r: nat | ReplacedOnce(run, longer, r, qid, after) && SameMatch(q.seen.rules, q.qname, before, after)
      ensures Chosen(Last(longer).queries[qid]) in firsts
    {
      ReplacementMixes(run, longer, r, qid, after);
    }
    if !SameMatch(q.seen.rules, q.qname, before, after) {
      var c: nat :| c <= |q.seen.rules| && Mixed(q.seen.rules, c, q.qname, before, after) !in firsts;
      var longer, r := MixedReached(run, qid, c, after);
    }
  }

  /** The same for the decision: it is `evaluate`'s on one of the two indexes exactly when `SameDecision` holds. */
  lemma ReplacementKeepsDecisionExactly(run: seq<System>, qid: Qid, after: CategoryMap)
    requires FreshScan(run, qid) && qid in Last(run).queries
    ensures var q, before := Last(run).queries[qid], Last(run).index;
            SameDecision(q.seen.rules, q.qname, before, after) <==>
            forall longer, r: nat :: ReplacedOnce(run, longer, r, qid, after) ==>
              DecidesAsOne(Last(longer).queries[qid], before, after)
  {
    hide Reads, Mixed, FirstOn, SameDecision, Decided, IsRun, DecidesAsOne, DecisionAt;
    var q, before := Last(run).queries[qid], Last(run).index;
    MixedDecisionsExactly(q.seen.rules, q.qname, before, after);
    forall longer, r: nat |
      ReplacedOnce(run, longer, r, qid, after) && SameDecision(q.seen.rules, q.qname, before, after)
      ensures DecidesAsOne(Last(longer).queries[qid], before, after)
    {
      ReplacementMixes(run, longer, r, qid, after);
      DecidesAtChosen(Last(longer).queries[qid], before, after);
    }
    if !SameDecision(q.seen.rules, q.qname, before, after) {
      var either := {DecisionAt(q.seen.rules, FirstOn(q.seen.rules, q.qname, before)),
                     DecisionAt(q.seen.rules, FirstOn(q.seen.rules, q.qname, after))};
      var c: nat :| c <= |q.seen.rules|
        && DecisionAt(q.seen.rules, Mixed(q.seen.rules, c, q.qname, before, after)) !in either;
      var longer, r := MixedReached(run, qid, c, after);
      ReplacementMixes(run, longer, r, qid, after);
      DecidesAtChosen(Last(longer).queries[qid], before, after);
    }
  }

  // ---------------------------------------------------------------- a run that lets a denied name through

  lemma StartRun()
    ensures IsRun([Start([])])
  {
  }

  /** A run that stores a rule list. */
  lemma PolicyStored(rules: seq<NewRule>, number: Text) returns (run: seq<System>)
    ensures IsRun(run) && run != []
    ensures var s := Last(run);
            && s.queries == map[] && s.refresher.Idle? && s.past != []
            && number in s.store.accounts && s.store.accounts[number].rules == NumberedAll(rules, 1, 1)
  {
    hide IsRun, NumberedAll, Recorded, PoliciesOf;
    StartRun();
    run := [Start([])];
    var begin := BeginReplace(0, number, NewRules(rules));
    ExtendRun(run, begin);
    run := run + [Apply(Last(run), begin)];
    ExtendRun(run, CommitReplace(0));
    run := run + [Apply(Last(run), CommitReplace(0))];
  }

  /** And takes it into the cache. */
  lemma PolicyInCache(rules: seq<NewRule>, number: Text) returns (run: seq<System>)
    ensures IsRun(run) && run != []
    ensures var s := Last(run);
            s.queries == map[] && number in s.cache && s.cache[number].rules == NumberedAll(rules, 1, 1)
  {
    hide IsRun, NumberedAll;
    run := PolicyStored(rules, number);
    ExtendRun(run, TakeSnapshot);
    run := run + [Apply(Last(run), TakeSnapshot)];
    ExtendRun(run, InstallSnapshot);
    run := run + [Apply(Last(run), InstallSnapshot)];
  }

  /** And on from there: an index is published, a query arrives and reads the cache. */
  lemma FreshlyScanning(rules: seq<NewRule>, number: Text, raw: seq<byte>, before: CategoryMap)
    returns (run: seq<System>)
    requires QueryName(raw).Ok?
    ensures FreshScan(run, 0) && 0 in Last(run).queries && Last(run).index == before
    ensures var q := Last(run).queries[0];
            q.seen.rules == NumberedAll(rules, 1, 1) && q.qname == QueryName(raw).value
  {
    hide IsRun, NumberedAll, QueryName;
    run := PolicyInCache(rules, number);
    ExtendRun(run, ReplaceIndex(before));
    run := run + [Apply(Last(run), ReplaceIndex(before))];
    ExtendRun(run, Arrive(0, number, raw));
    run := run + [Apply(Last(run), Arrive(0, number, raw))];
    ExtendRun(run, ReadCache(0));
    run := run + [Apply(Last(run), ReadCache(0))];
  }

  /** The query for a wire-safe name. */
  lemma QueryFor(name: Text) returns (raw: seq<byte>)
    requires WireSafe(name)
    ensures QueryName(raw) == Ok(name)
  {
    hide WireSafe, EmitPacket, ParsePacket, EmitQuestions;
    var p := NEW_PACKET.(questions := [DnsQuestion(name, A)]);
    assert WireSafePacket(p);
    raw := EmitPacket(p).bytes;
    assert raw[0..|raw|] == raw;
    PacketRoundTrip(raw, 0, p);
  }

  const NEW_PACKET := Packet(NEW_HEADER, [], [], [], [])

  lemma OneLabel()
    ensures WireSafe([97])
  {
    SplitLabel([97]);
  }

  lemma OneLabelLookup(m: CategoryMap, category: Text)
    ensures InCategory(m, [97], category) <==> Tagged(m, [97], category)
  {
    var a: Text := [97];
    var one: seq<Text> := [a];
    SplitLabel(a);
    assert Normalize(a) == a;
    assert NonEmpty(one[1..]) == [] && NonEmpty(one) == one;
    assert one[0..] == one && Join(one) == a;
  }

  function DenyCategory(category: Text): NewRule {
    NewRule(DenyAction, Category, category, None, None, true)
  }

  /** Both rules deny on one index each, at the other's place; checked one on each, neither fires. */
  lemma CrossedDenials(first: Text, second: Text, rules: seq<Rule>)
    requires first != second && rules == NumberedAll([DenyCategory(first), DenyCategory(second)], 1, 1)
    ensures var before: CategoryMap, after: CategoryMap := map[[97] := {second}], map[[97] := {first}];
            && Mixed(rules, 1, [97], before, after) == |rules|
            && Evaluate(rules, [97], Oracle(before, [97])) == Some(Deny)
            && Evaluate(rules, [97], Oracle(after, [97])) == Some(Deny)
  {
    hide InCategory;
    var before: CategoryMap, after: CategoryMap := map[[97] := {second}], map[[97] := {first}];
    OneLabelLookup(before, first);
    OneLabelLookup(before, second);
    OneLabelLookup(after, first);
    OneLabelLookup(after, second);
    assert |rules| == 2 && !Fires(rules, 0, [97], Oracle(before, [97])) && Fires(rules, 1, [97], Oracle(before, [97]));
    assert Fires(rules, 0, [97], Oracle(after, [97])) && !Fires(rules, 1, [97], Oracle(after, [97]));
    EvaluateIsFirstOn(rules, [97], before);
    EvaluateIsFirstOn(rules, [97], after);
  }

  /**
   * A run from the start in which a name that the old and the new index both deny is let through: each of
   * two deny rules is checked while the name is listed under the other one's category.
   */
  lemma MixedScanLetsThrough(first: Text, second: Text) returns (run: seq<System>, a: nat, r: nat)
    requires first != second
    ensures IsRun(run) && Reads(run, a, 0) && a < r < |run| - 1 && 0 in Last(run).queries
    ensures forall j: nat :: a < j <= r ==> run[j].index == map[[97] := {second}]
    ensures forall j: nat :: r < j < |run| ==> run[j].index == map[[97] := {first}]
    ensures var q := Last(run).queries[0];
            && q.pc == Done(Allowed)
            && Evaluate(q.seen.rules, q.qname, Oracle(run[r].index, q.qname)) == Some(Deny)
            && Evaluate(q.seen.rules, q.qname, Oracle(Last(run).index, q.qname)) == Some(Deny)
  {
    hide QueryName, Evaluate, Mixed, IsRun, NumberedAll, WireSafe;
    var before: CategoryMap, after: CategoryMap := map[[97] := {second}], map[[97] := {first}];
    OneLabel();
    var raw := QueryFor([97]);
    var begun := FreshlyScanning([DenyCategory(first), DenyCategory(second)], [], raw, before);
    a := |begun| - 2;
    CrossedDenials(first, second, Last(begun).queries[0].seen.rules);
    TwoNumbered(first, second);
    run, r := MixedReached(begun, 0, 1, after);
    ReplacementMixes(begun, run, r, 0, after);
    ExtendRun(run, Forward(0));
    run := run + [Apply(Last(run), Forward(0))];
  }

  lemma TwoNumbered(first: Text, second: Text)
    ensures |NumberedAll([DenyCategory(first), DenyCategory(second)], 1, 1)| == 2
  {
  }
}
