/** What every run of the pipeline keeps: quotas, snapshots and identities. */
module PipelineSafety {
  import opened Prelude
  import opened Quota
  import opened RuleEngine
  import opened Categories
  import opened Storage
  import opened Pipeline

  // ---------------------------------------------------------------- the invariant

  /** Every rule of every list is on record under its own id. */
  ghost predicate ListIssued(issued: map<int, Rule>, rules: seq<Rule>) {
    forall i :: 0 <= i < |rules| ==> rules[i].id in issued && issued[rules[i].id] == rules[i]
  }

  ghost predicate ListsIssued(issued: map<int, Rule>, lists: PolicyMap) {
    forall number :: number in lists ==> ListIssued(issued, lists[number].rules)
  }

  ghost predicate PastIssued(issued: map<int, Rule>, past: seq<PolicyMap>) {
    forall i :: 0 <= i < |past| ==> ListsIssued(issued, past[i])
  }

  /** Ids are handed out once: rules on record and accounts stay below their counters. */
  ghost predicate IdsOk(store: Store, issued: map<int, Rule>, replacing: map<Opid, Replacing>) {
    && RuleIdsOk(store.nextRuleId, issued)
    && AccountsOk(store.accounts, store.nextAccountId)
    && ReplacingOk(store.accounts, replacing)
  }

  ghost predicate RuleIdsOk(nextRuleId: int, issued: map<int, Rule>) {
    nextRuleId >= 0 && forall id :: id in issued ==> 1 <= id <= nextRuleId && issued[id].id == id
  }

  ghost predicate AccountsOk(accounts: map<Text, AccountRecord>, nextAccountId: int) {
    && nextAccountId >= 0
    && (forall n :: n in accounts ==> accounts[n].account.number == n && 1 <= accounts[n].account.id <= nextAccountId)
    && (forall m, n :: m in accounts && n in accounts && m != n ==> accounts[m].account.id != accounts[n].account.id)
  }

  /** A replacement between its two locks: its account is still there, under the same id. */
  ghost predicate ReplacingOk(accounts: map<Text, AccountRecord>, replacing: map<Opid, Replacing>) {
    forall op :: op in replacing ==>
      replacing[op].number in accounts && accounts[replacing[op].number].account.id == replacing[op].accountId
  }

  /** The cache, and a snapshot on its way to it, are past states of the store, in order. */
  ghost predicate SnapshotsOk(store: Store, past: seq<PolicyMap>, cache: PolicyMap, cacheMoment: nat,
                              refresher: Refresher)
  {
    && |past| > 0 && past[|past| - 1] == PoliciesOf(store)
    && cacheMoment < |past| && cache == past[cacheMoment]
    && (refresher.Holding? ==>
          cacheMoment <= refresher.moment < |past| && refresher.snapshot == past[refresher.moment])
  }

  /** The query's rules and upstream were one account's policy at one moment of the store's history. */
  ghost predicate SeenOk(past: seq<PolicyMap>, q: Query) {
    && q.seen.moment < |past|
    && q.seen.rules == PolicyFor(past[q.seen.moment], q.account).rules
    && q.seen.upstream == PolicyFor(past[q.seen.moment], q.account).upstream
    && |q.seen.consulted| <= |q.seen.rules|
  }

  /** Nothing fired before the rule that decided, and that one is the last checked. */
  ghost predicate ScanOk(q: Query)
    requires |q.seen.consulted| <= |q.seen.rules|
  {
    && (q.fired.Some? ==> q.fired.value + 1 == |q.seen.consulted| && FiredAt(q, q.fired.value))
    && forall i :: 0 <= i < |q.seen.consulted| && (q.fired.Some? ==> i < q.fired.value) ==> !FiredAt(q, i)
  }

  /** Where the query is agrees with what the rules decided. */
  ghost predicate PcOk(q: Query)
    requires q.fired.Some? ==> q.fired.value < |q.seen.rules|
  {
    match q.pc
    case Arrived => q.fired.None?
    case Scanning => q.fired.None?
    case AtQuota => HasLimit(q)
    case AtLock(_) => HasLimit(q) && LimitFor(q).limitCount > 0
    case Granted => HasLimit(q) && LimitFor(q).limitCount > 0
    case Forwarding =>
      DecisionFor(q) == Some(Allow) || (q.fired.None? && |q.seen.consulted| == |q.seen.rules|)
    case Done(outcome) =>
      match outcome
      case Failed => true
      case Allowed => DecisionFor(q) == Some(Allow) || (q.fired.None? && |q.seen.consulted| == |q.seen.rules|)
      case Denied => DecisionFor(q) == Some(Deny)
      case LimitOk => HasLimit(q) && LimitFor(q).limitCount > 0
      case LimitExceeded => HasLimit(q)
  }

  ghost predicate QueryOk(past: seq<PolicyMap>, q: Query) {
    (q.pc == Arrived && q.fired.None?) || q.pc == Done(Failed) || (SeenOk(past, q) && ScanOk(q) && PcOk(q))
  }

  ghost predicate QueriesOk(past: seq<PolicyMap>, queries: map<Qid, Query>) {
    forall qid :: qid in queries ==> QueryOk(past, queries[qid])
  }

  ghost predicate WasGranted(q: Query) {
    q.pc == Granted || q.pc == Done(LimitOk)
  }

  /** Grants are on record for exactly the granted queries, under the rule that decided them. */
  ghost predicate GrantsOk(queries: map<Qid, Query>, grants: map<Qid, Grant>) {
    && (forall qid :: qid in grants <==> qid in queries && WasGranted(queries[qid]))
    && (forall qid :: qid in grants ==>
          && HasLimit(queries[qid])
          && grants[qid].rule == LimitFor(queries[qid]).ruleId
          && grants[qid].window == LimitFor(queries[qid]).window)
  }

  function GrantSet(grants: map<Qid, Grant>, bucket: Bucket): set<Qid> {
    set qid | qid in grants && BucketOf(grants[qid]) == bucket
  }

  /** The budget of a rule on record. */
  function Budget(rule: Rule): int {
    if DecisionOf(rule).Limit? then DecisionOf(rule).limitCount else 0
  }

  /** Counters are the numbers of grants, stay within the budget, and belong to rules on record. */
  ghost predicate QuotaOk(store: Store, issued: map<int, Rule>, grants: map<Qid, Grant>) {
    && (forall b: Bucket :: Count(store, b) == |GrantSet(grants, b)|)
    && (forall b: Bucket :: b in store.quota ==> b.0 in issued && store.quota[b] <= Budget(issued[b.0]))
  }

  ghost predicate Inv(s: System) {
    && IdsOk(s.store, s.issued, s.replacing)
    && PastIssued(s.issued, s.past)
    && SnapshotsOk(s.store, s.past, s.cache, s.cacheMoment, s.refresher)
    && QueriesOk(s.past, s.queries)
    && GrantsOk(s.queries, s.grants)
    && QuotaOk(s.store, s.issued, s.grants)
  }

  // ---------------------------------------------------------------- query steps

  lemma KeepsQueries(past: seq<PolicyMap>, queries: map<Qid, Query>, qid: Qid, q: Query)
    requires QueriesOk(past, queries) && QueryOk(past, q)
    ensures QueriesOk(past, queries[qid := q])
  {
    hide QueryOk;
  }

  /** A step that neither grants nor changes what a granted query saw. */
  lemma KeepsGrants(queries: map<Qid, Query>, grants: map<Qid, Grant>, qid: Qid, q: Query)
    requires GrantsOk(queries, grants)
    requires if qid in queries && WasGranted(queries[qid])
             then WasGranted(q) && q.seen == queries[qid].seen && q.fired == queries[qid].fired
             else !WasGranted(q)
    ensures GrantsOk(queries[qid := q], grants)
  {
    hide DecisionOf;
  }

  lemma ArriveOk(past: seq<PolicyMap>, account: Text, raw: seq<byte>)
    ensures QueryOk(past, Arriving(account, raw)) && !WasGranted(Arriving(account, raw))
  {
    hide QueryName;
  }

  lemma ReadCacheOk(s: System, q: Query)
    requires SnapshotsOk(s.store, s.past, s.cache, s.cacheMoment, s.refresher)
    requires q.pc == Arrived && QueryOk(s.past, q)
    ensures QueryOk(s.past, q.(seen := SeenIn(s.cache, q.account, s.cacheMoment), pc := Scanning))
  {
    hide PoliciesOf;
  }

  lemma ScannedOk(past: seq<PolicyMap>, q: Query, index: CategoryMap)
    requires q.pc == Scanning && QueryOk(past, q) && |q.seen.consulted| < |q.seen.rules|
    ensures QueryOk(past, Scanned(q, index)) && !WasGranted(Scanned(q, index))
  {
    hide Fires, DecisionOf;
    var i := |q.seen.consulted|;
    var next := q.(seen := q.seen.(consulted := q.seen.consulted + [index]));
    var r := Scanned(q, index);
    assert r.seen == next.seen && r.qname == q.qname;
    assert forall j :: 0 <= j < i ==> FiredAt(r, j) == FiredAt(q, j);
    assert FiredAt(r, i) == FiredAt(next, i);
    assert SeenOk(past, r);
  }

  lemma AdvancedOk(past: seq<PolicyMap>, q: Query, pc: Pc)
    requires QueryOk(past, q) && SeenOk(past, q)
    requires q.fired.Some? ==> q.fired.value < |q.seen.rules|
    requires PcOk(q.(pc := pc)) && q.pc != Arrived && q.pc != Done(Failed)
    ensures QueryOk(past, q.(pc := pc))
  {
    hide SeenOk, PcOk, Fires;
    var r := q.(pc := pc);
    assert forall i :: 0 <= i < |q.seen.consulted| && |q.seen.consulted| <= |q.seen.rules| ==>
        FiredAt(r, i) == FiredAt(q, i);
    SeenOkPc(past, q, pc);
    SeenBounds(past, q);
  }

  lemma SeenOkPc(past: seq<PolicyMap>, q: Query, pc: Pc)
    requires SeenOk(past, q)
    ensures SeenOk(past, q.(pc := pc))
  {
  }

  lemma SeenBounds(past: seq<PolicyMap>, q: Query)
    requires SeenOk(past, q)
    ensures |q.seen.consulted| <= |q.seen.rules|
  {
  }

  /** The rule that limits a query is on record, with the query's limit and window. */
  lemma LimitOnRecord(past: seq<PolicyMap>, issued: map<int, Rule>, q: Query)
    requires PastIssued(issued, past) && SeenOk(past, q) && HasLimit(q)
    ensures LimitFor(q).ruleId in issued && DecisionOf(issued[LimitFor(q).ruleId]) == LimitFor(q)
  {
    var rule := q.seen.rules[q.fired.value];
    var lists := past[q.seen.moment];
    assert ListsIssued(issued, lists);
    assert q.account in lists && ListIssued(issued, lists[q.account].rules);
    assert rule.id in issued && issued[rule.id] == rule;
  }

  // ---------------------------------------------------------------- the quota

  lemma GrantSetNew(grants: map<Qid, Grant>, qid: Qid, g: Grant, b: Bucket)
    requires qid !in grants
    ensures |GrantSet(grants[qid := g], b)| == |GrantSet(grants, b)| + (if BucketOf(g) == b then 1 else 0)
  {
    hide BucketOf;
    var before, after := GrantSet(grants, b), GrantSet(grants[qid := g], b);
    assert after == if BucketOf(g) == b then before + {qid} else before;
  }

  lemma QuotaDenied(store: Store, issued: map<int, Rule>, grants: map<Qid, Grant>, b: Bucket, limit: int)
    requires QuotaOk(store, issued, grants) && b.0 in issued && Budget(issued[b.0]) == limit
    requires !Spent(store, b, limit).1
    ensures QuotaOk(Spent(store, b, limit).0, issued, grants)
  {
    hide GrantSet, Budget;
    var s := Spent(store, b, limit).0;
    assert forall c: Bucket :: Count(s, c) == Count(store, c);
    assert Count(store, b) <= limit || limit <= 0 || b !in store.quota by {
      if b in store.quota {
        assert store.quota[b] <= Budget(issued[b.0]);
      }
    }
    assert b !in store.quota ==> Count(store, b) == 0;
  }

  lemma QuotaGranted(store: Store, issued: map<int, Rule>, grants: map<Qid, Grant>, qid: Qid, g: Grant, limit: int)
    requires QuotaOk(store, issued, grants) && qid !in grants
    requires g.rule in issued && Budget(issued[g.rule]) == limit
    requires Spent(store, BucketOf(g), limit).1
    ensures QuotaOk(Spent(store, BucketOf(g), limit).0, issued, grants[qid := g])
  {
    hide GrantSet, Budget, WindowStart;
    var b := BucketOf(g);
    var s := Spent(store, b, limit).0;
    forall c: Bucket
      ensures Count(s, c) == |GrantSet(grants[qid := g], c)|
    {
      GrantSetNew(grants, qid, g, c);
      assert Count(s, c) == Count(store, c) + (if c == b then 1 else 0);
    }
  }

  lemma SpentKeeps(store: Store, b: Bucket, limit: int)
    ensures var s := Spent(store, b, limit).0;
            s.accounts == store.accounts && s.nextAccountId == store.nextAccountId
            && s.nextRuleId == store.nextRuleId && PoliciesOf(s) == PoliciesOf(store)
  {
  }

  // ---------------------------------------------------------------- store steps

  lemma CreatedKeeps(store: Store, issued: map<int, Rule>, replacing: map<Opid, Replacing>, number: Text)
    requires IdsOk(store, issued, replacing)
    ensures var s := Created(store, number);
            && IdsOk(s, issued, replacing)
            && s.quota == store.quota
            && number in s.accounts
            && PoliciesOf(s) == (if number in store.accounts then PoliciesOf(store)
                                 else PoliciesOf(store)[number := AccountPolicy([], None)])
  {
    hide RuleIdsOk, AccountsOk, ReplacingOk;
    if number !in store.accounts {
      var s := Created(store, number);
      assert PoliciesOf(s) == PoliciesOf(store)[number := AccountPolicy([], None)];
      AccountAdded(store.accounts, store.nextAccountId, replacing, number);
    }
  }

  lemma AccountAdded(accounts: map<Text, AccountRecord>, nextAccountId: int, replacing: map<Opid, Replacing>,
                     number: Text)
    requires AccountsOk(accounts, nextAccountId) && ReplacingOk(accounts, replacing) && number !in accounts
    ensures var more := accounts[number := AccountRecord(Account(nextAccountId + 1, number), [], [])];
            AccountsOk(more, nextAccountId + 1) && ReplacingOk(more, replacing)
  {
  }

  lemma QuotaSameStore(store: Store, s: Store, issued: map<int, Rule>, grants: map<Qid, Grant>)
    requires QuotaOk(store, issued, grants) && s.quota == store.quota
    ensures QuotaOk(s, issued, grants)
  {
    hide GrantSet, Budget;
    assert forall b: Bucket :: Count(s, b) == Count(store, b);
  }

  /** Remembering one more state of the store keeps the history, the cache and the queries in order. */
  lemma HistoryGrows(s: System, store: Store, issued: map<int, Rule>)
    requires PastIssued(s.issued, s.past) && QueriesOk(s.past, s.queries)
    requires SnapshotsOk(s.store, s.past, s.cache, s.cacheMoment, s.refresher)
    requires forall id :: id in s.issued ==> id in issued && issued[id] == s.issued[id]
    requires ListsIssued(issued, PoliciesOf(store))
    ensures var past := s.past + [PoliciesOf(store)];
            && PastIssued(issued, past) && QueriesOk(past, s.queries)
            && SnapshotsOk(store, past, s.cache, s.cacheMoment, s.refresher)
  {
    hide PoliciesOf;
    var past := s.past + [PoliciesOf(store)];
    forall i | 0 <= i < |past|
      ensures ListsIssued(issued, past[i])
    {
      if i < |s.past| {
        assert past[i] == s.past[i] && ListsIssued(s.issued, s.past[i]);
        ListsIssuedMono(s.issued, issued, past[i]);
      }
    }
    QueriesRemember(s.past, PoliciesOf(store), s.queries);
  }

  lemma ListsIssuedMono(issued: map<int, Rule>, more: map<int, Rule>, lists: PolicyMap)
    requires forall id :: id in issued ==> id in more && more[id] == issued[id]
    requires ListsIssued(issued, lists)
    ensures ListsIssued(more, lists)
  {
    forall n | n in lists
      ensures ListIssued(more, lists[n].rules)
    {
      assert ListIssued(issued, lists[n].rules);
    }
  }

  lemma QueriesRemember(past: seq<PolicyMap>, lists: PolicyMap, queries: map<Qid, Query>)
    requires QueriesOk(past, queries)
    ensures QueriesOk(past + [lists], queries)
  {
    hide ScanOk, PcOk;
    forall qid | qid in queries
      ensures QueryOk(past + [lists], queries[qid])
    {
      assert QueryOk(past, queries[qid]);
    }
  }

  lemma NumberedIds(rules: seq<NewRule>, firstId: int, accountId: int)
    ensures var out := NumberedAll(rules, firstId, accountId);
            && |out| == |rules|
            && (forall i :: 0 <= i < |out| ==> out[i].id == firstId + i)
            && ListIssued(Recorded(out), out)
            && (forall id :: id in Recorded(out) ==> firstId <= id < firstId + |rules| && Recorded(out)[id].id == id)
  {
    var out := NumberedAll(rules, firstId, accountId);
    assert forall i :: 0 <= i < |out| ==> out[i].id == firstId + i;
    var rec := Recorded(out);
    forall i | 0 <= i < |out|
      ensures out[i].id in rec && rec[out[i].id] == out[i]
    {
      assert out[i] in out;
    }
  }

  /** The second lock of a replacement keeps identities, the record and the counters. */
  lemma CommittedKeeps(store: Store, issued: map<int, Rule>, replacing: map<Opid, Replacing>, op: Opid)
    requires IdsOk(store, issued, replacing) && op in replacing && ListsIssued(issued, PoliciesOf(store))
    ensures replacing[op].number in store.accounts
    ensures var r := replacing[op];
            var s, more := Committed(store, r), issued + IssuedBy(store, r);
            && IdsOk(s, more, replacing - {op})
            && (forall id :: id in issued ==> id in more && more[id] == issued[id])
            && ListsIssued(more, PoliciesOf(s))
            && s.quota == store.quota
  {
    hide ListsIssued, AccountsOk, ReplacingOk, RuleIdsOk, NumberedAll, Recorded, PoliciesOf, Replaced, Rerouted;
    InReplacing(store.accounts, replacing, op);
    match replacing[op].change
    case NewRules(rules) =>
      NumberedIds(rules, store.nextRuleId + 1, replacing[op].accountId);
      RulesCommitted(store, issued, replacing, op, rules);
    case NewUpstreams(upstreams) =>
      assert issued + IssuedBy(store, replacing[op]) == issued;
      UpstreamsCommitted(store, issued, replacing, op, upstreams);
  }

  lemma RulesCommitted(store: Store, issued: map<int, Rule>, replacing: map<Opid, Replacing>, op: Opid,
                       rules: seq<NewRule>)
    requires IdsOk(store, issued, replacing) && op in replacing && ListsIssued(issued, PoliciesOf(store))
    ensures var r := replacing[op];
            && r.number in store.accounts
            && var s := Replaced(store, r.number, r.accountId, rules);
            && var more := issued + Recorded(NumberedAll(rules, store.nextRuleId + 1, r.accountId));
            && IdsOk(s, more, replacing - {op})
            && (forall id :: id in issued ==> id in more && more[id] == issued[id])
            && ListsIssued(more, PoliciesOf(s))
            && s.quota == store.quota
  {
    hide ListsIssued, AccountsOk, ReplacingOk, RuleIdsOk, NumberedAll, Recorded, PoliciesOf;
    var r := replacing[op];
    var out := NumberedAll(rules, store.nextRuleId + 1, r.accountId);
    NumberedIds(rules, store.nextRuleId + 1, r.accountId);
    RecordGrows(issued, store.nextRuleId, out);
    InReplacing(store.accounts, replacing, op);
    AccountSwapped(store.accounts, store.nextAccountId, replacing, op, store.accounts[r.number].(rules := out));
    ListsReplaced(store, issued, issued + Recorded(out), r.number, r.accountId, rules);
  }

  lemma UpstreamsCommitted(store: Store, issued: map<int, Rule>, replacing: map<Opid, Replacing>, op: Opid,
                           upstreams: seq<NewUpstream>)
    requires IdsOk(store, issued, replacing) && op in replacing && ListsIssued(issued, PoliciesOf(store))
    ensures var r := replacing[op];
            && r.number in store.accounts
            && var s := Rerouted(store, r.number, r.accountId, upstreams);
            && IdsOk(s, issued, replacing - {op})
            && ListsIssued(issued, PoliciesOf(s))
            && s.quota == store.quota
  {
    hide ListsIssued, AccountsOk, ReplacingOk, RuleIdsOk, Listed, PoliciesOf;
    var r := replacing[op];
    InReplacing(store.accounts, replacing, op);
    var listed := Listed(upstreams, store.nextUpstreamId + 1, Some(r.accountId));
    var record := store.accounts[r.number].(upstreams := listed);
    AccountSwapped(store.accounts, store.nextAccountId, replacing, op, record);
    ListsRerouted(store, issued, r.number, r.accountId, upstreams);
  }

  lemma RecordGrows(issued: map<int, Rule>, nextRuleId: int, out: seq<Rule>)
    requires RuleIdsOk(nextRuleId, issued)
    requires forall i :: 0 <= i < |out| ==> out[i].id == nextRuleId + 1 + i
    ensures RuleIdsOk(nextRuleId + |out|, issued + Recorded(out))
    ensures forall id :: id in issued ==> id in issued + Recorded(out) && (issued + Recorded(out))[id] == issued[id]
    ensures ListIssued(issued + Recorded(out), out)
  {
    var rec := Recorded(out);
    forall i | 0 <= i < |out|
      ensures out[i].id in rec && rec[out[i].id] == out[i]
    {
      assert out[i] in out;
    }
    assert forall id :: id in rec ==> nextRuleId < id <= nextRuleId + |out| && rec[id].id == id;
  }

  lemma InReplacing(accounts: map<Text, AccountRecord>, replacing: map<Opid, Replacing>, op: Opid)
    requires ReplacingOk(accounts, replacing) && op in replacing
    ensures replacing[op].number in accounts
    ensures accounts[replacing[op].number].account.id == replacing[op].accountId
  {
  }

  /** An account's record is replaced by one of the same account, and the replacement is over. */
  lemma AccountSwapped(accounts: map<Text, AccountRecord>, nextAccountId: int, replacing: map<Opid, Replacing>,
                       op: Opid, record: AccountRecord)
    requires AccountsOk(accounts, nextAccountId) && ReplacingOk(accounts, replacing) && op in replacing
    requires record.account == accounts[replacing[op].number].account
    ensures AccountsOk(accounts[replacing[op].number := record], nextAccountId)
    ensures ReplacingOk(accounts[replacing[op].number := record], replacing - {op})
  {
  }

  lemma ListsReplaced(store: Store, issued: map<int, Rule>, more: map<int, Rule>,
                      number: Text, accountId: int, rules: seq<NewRule>)
    requires ListsIssued(issued, PoliciesOf(store)) && number in store.accounts
    requires forall id :: id in issued ==> id in more && more[id] == issued[id]
    requires ListIssued(more, NumberedAll(rules, store.nextRuleId + 1, accountId))
    ensures ListsIssued(more, PoliciesOf(Replaced(store, number, accountId, rules)))
  {
    hide NumberedAll, ListIssued;
    var out := NumberedAll(rules, store.nextRuleId + 1, accountId);
    ListsIssuedMono(issued, more, PoliciesOf(store));
    var policy := PoliciesOf(store)[number].(rules := out);
    assert PoliciesOf(Replaced(store, number, accountId, rules)) == PoliciesOf(store)[number := policy];
  }

  lemma ListsRerouted(store: Store, issued: map<int, Rule>, number: Text, accountId: int, upstreams: seq<NewUpstream>)
    requires ListsIssued(issued, PoliciesOf(store)) && number in store.accounts
    ensures ListsIssued(issued, PoliciesOf(Rerouted(store, number, accountId, upstreams)))
  {
    hide Listed, ListIssued;
    var out := PoliciesOf(Rerouted(store, number, accountId, upstreams));
    assert forall n :: n in out ==> n in PoliciesOf(store) && out[n].rules == PoliciesOf(store)[n].rules;
  }

  // ---------------------------------------------------------------- every step keeps the invariant

  lemma StartInv(presets: seq<NewUpstream>)
    ensures Inv(Start(presets))
  {
    assert forall b: Bucket :: GrantSet(map[], b) == {};
  }

  /** A query moves on without spending. */
  lemma QueryMoves(s: System, qid: Qid, q: Query)
    requires Inv(s) && QueryOk(s.past, q)
    requires if qid in s.queries && WasGranted(s.queries[qid])
             then WasGranted(q) && q.seen == s.queries[qid].seen && q.fired == s.queries[qid].fired
             else !WasGranted(q)
    ensures Inv(s.(queries := s.queries[qid := q]))
  {
    hide IdsOk, PastIssued, SnapshotsOk, QueriesOk, GrantsOk, QuotaOk, QueryOk;
    KeepsQueries(s.past, s.queries, qid, q);
    KeepsGrants(s.queries, s.grants, qid, q);
  }

  lemma QueryFacts(past: seq<PolicyMap>, queries: map<Qid, Query>, qid: Qid)
    requires QueriesOk(past, queries) && qid in queries
    ensures QueryOk(past, queries[qid])
    ensures queries[qid].pc != Arrived && queries[qid].pc != Done(Failed)
            ==> var q := queries[qid];
                SeenOk(past, q) && ScanOk(q) && PcOk(q) && (q.fired.Some? ==> q.fired.value < |q.seen.rules|)
  {
    hide PcOk, FiredAt;
  }

  lemma StepArrive(s: System, qid: Qid, account: Text, raw: seq<byte>)
    requires Inv(s) && Enabled(s, Arrive(qid, account, raw))
    ensures Inv(Apply(s, Arrive(qid, account, raw)))
  {
    hide Inv, Arriving, QueryOk;
    ArriveOk(s.past, account, raw);
    QueryMoves(s, qid, Arriving(account, raw));
  }

  lemma StepReadCache(s: System, qid: Qid)
    requires Inv(s) && Enabled(s, ReadCache(qid))
    ensures Inv(Apply(s, ReadCache(qid)))
  {
    hide IdsOk, PastIssued, SnapshotsOk, GrantsOk, QuotaOk, QueryOk, SeenIn;
    var q := s.queries[qid];
    ReadCacheOk(s, q);
    var next := q.(seen := SeenIn(s.cache, q.account, s.cacheMoment), pc := Scanning);
    QueryMoves(s, qid, next);
  }

  lemma StepScan(s: System, qid: Qid)
    requires Inv(s) && Enabled(s, Scan(qid))
    ensures Inv(Apply(s, Scan(qid)))
  {
    hide IdsOk, PastIssued, SnapshotsOk, GrantsOk, QuotaOk, QueryOk, Scanned;
    ScannedOk(s.past, s.queries[qid], s.index);
    QueryMoves(s, qid, Scanned(s.queries[qid], s.index));
  }

  lemma StepFinishScan(s: System, qid: Qid)
    requires Inv(s) && Enabled(s, FinishScan(qid))
    ensures Inv(Apply(s, FinishScan(qid)))
  {
    hide IdsOk, PastIssued, SnapshotsOk, GrantsOk, QuotaOk, QueryOk, QueriesOk, SeenOk, ScanOk;
    var q := s.queries[qid];
    QueryFacts(s.past, s.queries, qid);
    AdvancedOk(s.past, q, Forwarding);
    QueryMoves(s, qid, q.(pc := Forwarding));
  }

  lemma StepReadClock(s: System, qid: Qid, now: int)
    requires Inv(s) && Enabled(s, ReadClock(qid, now))
    ensures Inv(Apply(s, ReadClock(qid, now)))
  {
    hide IdsOk, PastIssued, SnapshotsOk, GrantsOk, QuotaOk, QueryOk, QueriesOk, SeenOk, ScanOk;
    var q := s.queries[qid];
    QueryFacts(s.past, s.queries, qid);
    var pc := if LimitFor(q).limitCount <= 0 then Done(LimitExceeded) else AtLock(now);
    AdvancedOk(s.past, q, pc);
    QueryMoves(s, qid, q.(pc := pc));
  }

  lemma StepForward(s: System, qid: Qid)
    requires Inv(s) && Enabled(s, Forward(qid))
    ensures Inv(Apply(s, Forward(qid)))
  {
    hide IdsOk, PastIssued, SnapshotsOk, GrantsOk, QuotaOk, QueryOk, QueriesOk, SeenOk, ScanOk;
    var q := s.queries[qid];
    QueryFacts(s.past, s.queries, qid);
    var pc := Done(if q.pc.Granted? then LimitOk else Allowed);
    AdvancedOk(s.past, q, pc);
    QueryMoves(s, qid, q.(pc := pc));
  }

  /** The query that was just granted goes on record with its grant. */
  lemma GrantRecorded(queries: map<Qid, Query>, grants: map<Qid, Grant>, qid: Qid, now: int)
    requires GrantsOk(queries, grants) && qid in queries && !WasGranted(queries[qid]) && HasLimit(queries[qid])
    ensures var q := queries[qid];
            var limit := LimitFor(q);
            GrantsOk(queries[qid := q.(pc := Granted)], grants[qid := Grant(limit.ruleId, limit.window, now)])
  {
    hide DecisionOf;
  }

  /** Spending touches only the counters. */
  lemma SpentKeepsRest(s: System, b: Bucket, limit: int)
    requires IdsOk(s.store, s.issued, s.replacing)
    requires SnapshotsOk(s.store, s.past, s.cache, s.cacheMoment, s.refresher)
    ensures var store := Spent(s.store, b, limit).0;
            && IdsOk(store, s.issued, s.replacing)
            && SnapshotsOk(store, s.past, s.cache, s.cacheMoment, s.refresher)
  {
    hide Spent, PoliciesOf, RuleIdsOk, AccountsOk, ReplacingOk;
    SpentKeeps(s.store, b, limit);
  }

  lemma BudgetIs(rule: Rule, limit: Decision)
    requires DecisionOf(rule) == limit && limit.Limit?
    ensures Budget(rule) == limit.limitCount
  {
  }

  lemma StepSpend(s: System, qid: Qid)
    requires Inv(s) && Enabled(s, Spend(qid))
    ensures Inv(Apply(s, Spend(qid)))
  {
    hide IdsOk, PastIssued, SnapshotsOk, GrantsOk, QuotaOk, QueryOk, QueriesOk, SeenOk, ScanOk, Spent, BucketOf,
      DecisionOf, Budget;
    var q := s.queries[qid];
    QueryFacts(s.past, s.queries, qid);
    LimitOnRecord(s.past, s.issued, q);
    var limit := LimitFor(q);
    BudgetIs(s.issued[limit.ruleId], limit);
    var g := Grant(limit.ruleId, limit.window, q.pc.now);
    SpentKeepsRest(s, BucketOf(g), limit.limitCount);
    BucketRule(g);
    if Spent(s.store, BucketOf(g), limit.limitCount).1 {
      NotYetGranted(s.queries, s.grants, qid);
      QuotaGranted(s.store, s.issued, s.grants, qid, g, limit.limitCount);
      AdvancedOk(s.past, q, Granted);
      KeepsQueries(s.past, s.queries, qid, q.(pc := Granted));
      GrantRecorded(s.queries, s.grants, qid, q.pc.now);
    } else {
      QuotaDenied(s.store, s.issued, s.grants, BucketOf(g), limit.limitCount);
      AdvancedOk(s.past, q, Done(LimitExceeded));
      KeepsQueries(s.past, s.queries, qid, q.(pc := Done(LimitExceeded)));
      KeepsGrants(s.queries, s.grants, qid, q.(pc := Done(LimitExceeded)));
    }
  }

  lemma BucketRule(g: Grant)
    ensures BucketOf(g).0 == g.rule
  {
  }

  lemma NotYetGranted(queries: map<Qid, Query>, grants: map<Qid, Grant>, qid: Qid)
    requires GrantsOk(queries, grants) && qid in queries && !WasGranted(queries[qid])
    ensures qid !in grants
  {
  }

  lemma StepCreateAccount(s: System, number: Text)
    requires Inv(s) && Enabled(s, CreateAccount(number))
    ensures Inv(Apply(s, CreateAccount(number)))
  {
    hide IdsOk, PastIssued, SnapshotsOk, GrantsOk, QuotaOk, QueriesOk, ListsIssued, Created;
    AccountCreated(s, number);
  }

  /** The first lock of account creation and of rule replacement. */
  lemma AccountCreated(s: System, number: Text)
    requires Inv(s)
    ensures Inv(WithStore(s, Created(s.store, number)))
  {
    hide IdsOk, PastIssued, SnapshotsOk, GrantsOk, QuotaOk, QueriesOk, ListsIssued, Created;
    var store := Created(s.store, number);
    CreatedKeeps(s.store, s.issued, s.replacing, number);
    QuotaSameStore(s.store, store, s.issued, s.grants);
    StoredIssued(s);
    EmptyListIssued(s.issued, PoliciesOf(s.store), number);
    HistoryGrows(s, store, s.issued);
  }

  /** What the store holds now is on record. */
  lemma StoredIssued(s: System)
    requires PastIssued(s.issued, s.past)
    requires SnapshotsOk(s.store, s.past, s.cache, s.cacheMoment, s.refresher)
    ensures ListsIssued(s.issued, PoliciesOf(s.store))
  {
    hide ListsIssued, PoliciesOf;
    assert ListsIssued(s.issued, s.past[|s.past| - 1]);
  }

  lemma EmptyListIssued(issued: map<int, Rule>, lists: PolicyMap, number: Text)
    requires ListsIssued(issued, lists)
    ensures ListsIssued(issued, lists[number := AccountPolicy([], None)])
  {
  }

  lemma StepBeginReplace(s: System, op: Opid, number: Text, change: Change)
    requires Inv(s) && Enabled(s, BeginReplace(op, number, change))
    ensures Inv(Apply(s, BeginReplace(op, number, change)))
  {
    hide IdsOk, PastIssued, SnapshotsOk, GrantsOk, QuotaOk, QueriesOk, Created;
    AccountCreated(s, number);
    var store := Created(s.store, number);
    CreatedKeeps(s.store, s.issued, s.replacing, number);
    ReplacementBegun(store, s.issued, s.replacing, op, number, change);
  }

  lemma ReplacementBegun(store: Store, issued: map<int, Rule>, replacing: map<Opid, Replacing>,
                         op: Opid, number: Text, change: Change)
    requires IdsOk(store, issued, replacing) && number in store.accounts
    ensures IdsOk(store, issued, replacing[op := Replacing(number, store.accounts[number].account.id, change)])
  {
    hide RuleIdsOk, AccountsOk;
  }

  lemma StepCommitReplace(s: System, op: Opid)
    requires Inv(s) && Enabled(s, CommitReplace(op))
    ensures Inv(Apply(s, CommitReplace(op)))
  {
    hide IdsOk, PastIssued, SnapshotsOk, GrantsOk, QuotaOk, QueriesOk, ListsIssued, Committed, IssuedBy;
    var r := s.replacing[op];
    StoredIssued(s);
    CommittedKeeps(s.store, s.issued, s.replacing, op);
    var store := Committed(s.store, r);
    var issued := s.issued + IssuedBy(s.store, r);
    HistoryGrows(s, store, issued);
    QuotaSameStore(s.store, store, s.issued, s.grants);
    QuotaRecordGrows(store, s.issued, issued, s.grants);
  }

  lemma QuotaRecordGrows(store: Store, issued: map<int, Rule>, more: map<int, Rule>, grants: map<Qid, Grant>)
    requires QuotaOk(store, issued, grants)
    requires forall id :: id in issued ==> id in more && more[id] == issued[id]
    ensures QuotaOk(store, more, grants)
  {
    hide GrantSet, Budget, Count;
    forall b: Bucket | b in store.quota
      ensures b.0 in more && store.quota[b] <= Budget(more[b.0])
    {
      var id := b.0;
      assert id in issued;
    }
  }

  lemma StepTakeSnapshot(s: System)
    requires Inv(s) && Enabled(s, TakeSnapshot)
    ensures Inv(Apply(s, TakeSnapshot))
  {
    hide IdsOk, PastIssued, GrantsOk, QuotaOk, QueriesOk, PoliciesOf;
  }

  lemma StepInstallSnapshot(s: System)
    requires Inv(s) && Enabled(s, InstallSnapshot)
    ensures Inv(Apply(s, InstallSnapshot))
  {
    hide IdsOk, PastIssued, GrantsOk, QuotaOk, QueriesOk, PoliciesOf;
  }

  lemma StepReplaceIndex(s: System, m: CategoryMap)
    requires Inv(s) && Enabled(s, ReplaceIndex(m))
    ensures Inv(Apply(s, ReplaceIndex(m)))
  {
    hide IdsOk, PastIssued, SnapshotsOk, GrantsOk, QuotaOk, QueriesOk;
  }

  lemma StepKeepsInv(s: System, step: Step)
    requires Inv(s) && Enabled(s, step)
    ensures Inv(Apply(s, step))
  {
    hide Inv, Apply, Enabled;
    match step
    case Arrive(qid, account, raw) => StepArrive(s, qid, account, raw);
    case ReadCache(qid) => StepReadCache(s, qid);
    case Scan(qid) => StepScan(s, qid);
    case FinishScan(qid) => StepFinishScan(s, qid);
    case ReadClock(qid, now) => StepReadClock(s, qid, now);
    case Spend(qid) => StepSpend(s, qid);
    case Forward(qid) => StepForward(s, qid);
    case CreateAccount(number) => StepCreateAccount(s, number);
    case BeginReplace(op, number, change) => StepBeginReplace(s, op, number, change);
    case CommitReplace(op) => StepCommitReplace(s, op);
    case TakeSnapshot => StepTakeSnapshot(s);
    case InstallSnapshot => StepInstallSnapshot(s);
    case ReplaceIndex(m) => StepReplaceIndex(s, m);
  }

}
