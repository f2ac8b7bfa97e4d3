/**
 * The query pipeline of lib/pipeline.rs as a state machine. Queries, rule replacements, the policy
 * refresher and blocklist publications interleave freely; every acquisition of a lock, and every
 * clock reading, is one step. History variables remember what was granted and what was stored.
 */
module Pipeline {
  import opened Prelude
  import opened Quota
  import opened RuleEngine
  import opened Categories
  import opened Storage
  import opened Packets

  /** The name a query is about: that of its first question, or empty without one. */
  function QueryName(raw: seq<byte>): Result<Text> {
    match ParsePacket(raw, 0)
    case Err(e) => Err(e)
    case Ok(p) => Ok(if p.value.questions == [] then [] else p.value.questions[0].name)
  }

  type Qid = nat
  type Opid = nat

  datatype Outcome = Failed | Allowed | Denied | LimitOk | LimitExceeded

  datatype Pc =
    | Arrived                  // parsed, about to read the policy cache
    | Scanning                 // evaluating the rules in order
    | AtQuota                  // a limit rule matched, about to read the clock
    | AtLock(now: int)         // clock read, about to take the store's lock
    | Granted                  // within budget, about to forward
    | Forwarding               // allowed, about to forward
    | Done(outcome: Outcome)

  /**
   * What a query has seen: the rules and upstream from the cache, the moment of the store's history
   * they are from, and the category index each rule so far was checked against.
   */
  datatype Seen = Seen(rules: seq<Rule>, upstream: Option<Upstream>, moment: nat, consulted: seq<CategoryMap>)

  datatype Query = Query(account: Text, qname: Text, seen: Seen, fired: Option<nat>, pc: Pc)

  datatype Refresher = Idle | Holding(snapshot: PolicyMap, moment: nat)

  datatype Change = NewRules(rules: seq<NewRule>) | NewUpstreams(upstreams: seq<NewUpstream>)

  datatype Replacing = Replacing(number: Text, accountId: int, change: Change)

  datatype Grant = Grant(rule: int, window: Window, now: int)

  datatype System = System(
    store: Store,
    index: CategoryMap,
    cache: PolicyMap,
    refresher: Refresher,
    queries: map<Qid, Query>,
    replacing: map<Opid, Replacing>,
    // history
    past: seq<PolicyMap>,   // every state of the stored policies, in order
    cacheMoment: nat,                  // which of them the cache holds
    issued: map<int, Rule>,            // every rule ever stored, by id
    grants: map<Qid, Grant>)           // every query granted by the quota

  function Start(presets: seq<NewUpstream>): System {
    System(EmptyStore(presets), map[], map[], Idle, map[], map[], [map[]], 0, map[], map[])
  }

  datatype Step =
    | Arrive(qid: Qid, account: Text, raw: seq<byte>)
    | ReadCache(qid: Qid)
    | Scan(qid: Qid)
    | FinishScan(qid: Qid)
    | ReadClock(qid: Qid, now: int)
    | Spend(qid: Qid)
    | Forward(qid: Qid)
    | CreateAccount(number: Text)
    | BeginReplace(op: Opid, number: Text, change: Change)
    | CommitReplace(op: Opid)
    | TakeSnapshot
    | InstallSnapshot
    | ReplaceIndex(categories: CategoryMap)

  // ---------------------------------------------------------------- the steps

  /** An account the cache does not know has no rules and no upstream of its own. */
  function PolicyFor(policies: PolicyMap, account: Text): AccountPolicy {
    if account in policies then policies[account] else AccountPolicy([], None)
  }

  function SeenIn(policies: PolicyMap, account: Text, moment: nat): Seen {
    var policy := PolicyFor(policies, account);
    Seen(policy.rules, policy.upstream, moment, [])
  }

  function Oracle(m: CategoryMap, qname: Text): Text -> bool {
    category => InCategory(m, qname, category)
  }

  /** Rule `i` of the list matched when it was checked. */
  predicate FiredAt(q: Query, i: nat)
    requires i < |q.seen.rules| && i < |q.seen.consulted|
  {
    Fires(q.seen.rules, i, q.qname, Oracle(q.seen.consulted[i], q.qname))
  }

  function DecisionFor(q: Query): Option<Decision>
    requires q.fired.Some? ==> q.fired.value < |q.seen.rules|
  {
    if q.fired.None? then None else Some(DecisionOf(q.seen.rules[q.fired.value]))
  }

  predicate HasQuery(s: System, qid: Qid, pc: Pc) {
    qid in s.queries && s.queries[qid].pc == pc
  }

  predicate HasLimit(q: Query) {
    && q.fired.Some? && q.fired.value < |q.seen.rules|
    && DecisionOf(q.seen.rules[q.fired.value]).Limit?
  }

  function LimitFor(q: Query): Decision
    requires HasLimit(q)
  {
    DecisionOf(q.seen.rules[q.fired.value])
  }

  predicate Enabled(s: System, step: Step) {
    match step
    case Arrive(qid, _, _) => qid !in s.queries
    case ReadCache(qid) => HasQuery(s, qid, Arrived)
    case Scan(qid) =>
      HasQuery(s, qid, Scanning) && |s.queries[qid].seen.consulted| < |s.queries[qid].seen.rules|
    case FinishScan(qid) =>
      HasQuery(s, qid, Scanning) && |s.queries[qid].seen.consulted| == |s.queries[qid].seen.rules|
    case ReadClock(qid, _) => HasQuery(s, qid, AtQuota) && HasLimit(s.queries[qid])
    case Spend(qid) => qid in s.queries && s.queries[qid].pc.AtLock? && HasLimit(s.queries[qid])
    case Forward(qid) => HasQuery(s, qid, Granted) || HasQuery(s, qid, Forwarding)
    case CreateAccount(_) => true
    case BeginReplace(op, _, _) => op !in s.replacing
    case CommitReplace(op) => op in s.replacing && s.replacing[op].number in s.store.accounts
    case TakeSnapshot => s.refresher.Idle? && s.past != []
    case InstallSnapshot => s.refresher.Holding?
    case ReplaceIndex(_) => true
  }

  function Arriving(account: Text, raw: seq<byte>): Query {
    match QueryName(raw)
    case Ok(qname) => Query(account, qname, Seen([], None, 0, []), None, Arrived)
    case Err(_) => Query(account, [], Seen([], None, 0, []), None, Done(Failed))
  }

  /** Check the next rule against the current index; the first to match decides. */
  function Scanned(q: Query, index: CategoryMap): Query
    requires |q.seen.consulted| < |q.seen.rules|
  {
    var i := |q.seen.consulted|;
    var next := q.(seen := q.seen.(consulted := q.seen.consulted + [index]));
    if !FiredAt(next, i) then next
    else next.(fired := Some(i),
               pc := match DecisionOf(q.seen.rules[i])
                     case Allow => Forwarding
                     case Deny => Done(Denied)
                     case Limit(_, _, _) => AtQuota)
  }

  function BucketOf(g: Grant): Bucket {
    (g.rule, WindowStart(g.now, g.window))
  }

  /** The record of a list of rules with distinct ids. */
  function Recorded(rules: seq<Rule>): map<int, Rule>
    requires forall i, j :: 0 <= i < j < |rules| ==> rules[i].id != rules[j].id
  {
    map r | r in rules :: r.id := r
  }

  /** The store after a step that changes rule lists, remembered in the history. */
  function WithStore(s: System, store: Store): System {
    s.(store := store, past := s.past + [PoliciesOf(store)])
  }

  /** The second lock of a replacement. */
  function Committed(store: Store, r: Replacing): Store
    requires r.number in store.accounts
  {
    match r.change
    case NewRules(rules) => Replaced(store, r.number, r.accountId, rules)
    case NewUpstreams(upstreams) => Rerouted(store, r.number, r.accountId, upstreams)
  }

  /** The rules a replacement puts on record. */
  function IssuedBy(store: Store, r: Replacing): map<int, Rule> {
    match r.change
    case NewRules(rules) => Recorded(NumberedAll(rules, store.nextRuleId + 1, r.accountId))
    case NewUpstreams(_) => map[]
  }

  function SpendFor(s: System, qid: Qid): System
    requires qid in s.queries && s.queries[qid].pc.AtLock? && HasLimit(s.queries[qid])
  {
    var q := s.queries[qid];
    var limit := LimitFor(q);
    var grant := Grant(limit.ruleId, limit.window, q.pc.now);
    var (store, ok) := Spent(s.store, BucketOf(grant), limit.limitCount);
    if ok
    then s.(store := store, queries := s.queries[qid := q.(pc := Granted)], grants := s.grants[qid := grant])
    else s.(store := store, queries := s.queries[qid := q.(pc := Done(LimitExceeded))])
  }

  function Apply(s: System, step: Step): System
    requires Enabled(s, step)
  {
    match step
    case Arrive(qid, account, raw) => s.(queries := s.queries[qid := Arriving(account, raw)])
    case ReadCache(qid) =>
      var q := s.queries[qid];
      s.(queries := s.queries[qid := q.(seen := SeenIn(s.cache, q.account, s.cacheMoment), pc := Scanning)])
    case Scan(qid) => s.(queries := s.queries[qid := Scanned(s.queries[qid], s.index)])
    case FinishScan(qid) => s.(queries := s.queries[qid := s.queries[qid].(pc := Forwarding)])
    case ReadClock(qid, now) =>
      var q := s.queries[qid];
      var pc := if LimitFor(q).limitCount <= 0 then Done(LimitExceeded) else AtLock(now);
      s.(queries := s.queries[qid := q.(pc := pc)])
    case Spend(qid) => SpendFor(s, qid)
    case Forward(qid) =>
      var q := s.queries[qid];
      s.(queries := s.queries[qid := q.(pc := Done(if q.pc.Granted? then LimitOk else Allowed))])
    case CreateAccount(number) => WithStore(s, Created(s.store, number))
    case BeginReplace(op, number, change) =>
      var store := Created(s.store, number);
      WithStore(s, store).(replacing := s.replacing[op := Replacing(number, store.accounts[number].account.id, change)])
    case CommitReplace(op) =>
      var r := s.replacing[op];
      WithStore(s, Committed(s.store, r)).(replacing := s.replacing - {op}, issued := s.issued + IssuedBy(s.store, r))
    case TakeSnapshot => s.(refresher := Holding(PoliciesOf(s.store), |s.past| - 1))
    case InstallSnapshot =>
      s.(cache := s.refresher.snapshot, cacheMoment := s.refresher.moment, refresher := Idle)
    case ReplaceIndex(m) => s.(index := m)
  }
}
