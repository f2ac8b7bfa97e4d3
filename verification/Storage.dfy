/**
 * The in-memory control plane of lib/controlplane/storage/inmem.rs. Each function on `Store` is what
 * happens under one acquisition of the lock; the class applies them to its fields.
 */
module Storage {
  import opened Prelude
  import opened Quota
  import opened RuleEngine
  import opened Categories

  datatype Account = Account(id: int, number: Text)

  datatype Protocol = Udp | Dot | Doh

  datatype Upstream = Upstream(
    id: int,
    accountId: Option<int>,
    name: Text,
    protocol: Protocol,
    host: Text,
    port: u16,
    addr: Option<Text>,
    isPreset: bool)

  datatype AccountRecord = AccountRecord(account: Account, rules: seq<Rule>, upstreams: seq<Upstream>)

  /** What queries of one account go by: its rules and its active upstream, the first of its list. */
  datatype AccountPolicy = AccountPolicy(rules: seq<Rule>, upstream: Option<Upstream>)

  type PolicyMap = map<Text, AccountPolicy>

  datatype NewRule = NewRule(
    action: Action,
    targetType: TargetType,
    targetValue: Text,
    limitCount: Option<int>,
    limitWindow: Option<Window>,
    enabled: bool)

  datatype NewUpstream = NewUpstream(name: Text, protocol: Protocol, host: Text, port: u16, addr: Option<Text>)

  /** A rule and the start of one of its windows. */
  type Bucket = (int, int)

  /** Everything behind the lock. */
  datatype Store = Store(
    accounts: map<Text, AccountRecord>,
    quota: map<Bucket, int>,
    categories: CategoryMap,
    lastIngestion: Option<int>,
    presets: seq<Upstream>,
    nextAccountId: int,
    nextRuleId: int,
    nextUpstreamId: int)

  /** The store at first: no accounts, and the presets numbered from one. */
  function EmptyStore(presets: seq<NewUpstream>): Store {
    Store(map[], map[], map[], None, Listed(presets, 1, None), 0, 0, |presets|)
  }

  /** The stored form of an upstream list: consecutive ids; a preset belongs to no account. */
  function Listed(upstreams: seq<NewUpstream>, firstId: int, accountId: Option<int>): seq<Upstream> {
    seq(|upstreams|, i requires 0 <= i < |upstreams| => Named(upstreams[i], firstId + i, accountId))
  }

  function Named(u: NewUpstream, id: int, accountId: Option<int>): Upstream {
    Upstream(id, accountId, u.name, u.protocol, u.host, u.port, u.addr, accountId.None?)
  }

  function Created(s: Store, number: Text): Store {
    if number in s.accounts then s
    else
      var account := Account(s.nextAccountId + 1, number);
      s.(nextAccountId := s.nextAccountId + 1,
         accounts := s.accounts[number := AccountRecord(account, [], [])])
  }

  function Count(s: Store, bucket: Bucket): int {
    if bucket in s.quota then s.quota[bucket] else 0
  }

  /** Whether one more query fits the bucket, and the store once it has been recorded. */
  function Spent(s: Store, bucket: Bucket, limit: int): (Store, bool) {
    if limit <= 0 then (s, false)
    else
      var n := Count(s, bucket);
      if n >= limit then (s.(quota := s.quota[bucket := n]), false)
      else (s.(quota := s.quota[bucket := n + 1]), true)
  }

  function Numbered(rule: NewRule, id: int, accountId: int, position: int): Rule {
    Rule(id, accountId, position, rule.action, rule.targetType, rule.targetValue,
         rule.limitCount, rule.limitWindow, rule.enabled)
  }

  /** The stored form of a new rule list: consecutive fresh ids, positions from zero. */
  function NumberedAll(rules: seq<NewRule>, firstId: int, accountId: int): seq<Rule> {
    seq(|rules|, i requires 0 <= i < |rules| => Numbered(rules[i], firstId + i, accountId, i))
  }

  /** The second lock of `replace_rules`: the account has been looked up before. */
  function Replaced(s: Store, number: Text, accountId: int, rules: seq<NewRule>): Store
    requires number in s.accounts
  {
    var out := NumberedAll(rules, s.nextRuleId + 1, accountId);
    s.(nextRuleId := s.nextRuleId + |rules|,
       accounts := s.accounts[number := s.accounts[number].(rules := out)])
  }

  /** The second lock of `replace_upstreams`. */
  function Rerouted(s: Store, number: Text, accountId: int, upstreams: seq<NewUpstream>): Store
    requires number in s.accounts
  {
    var out := Listed(upstreams, s.nextUpstreamId + 1, Some(accountId));
    s.(nextUpstreamId := s.nextUpstreamId + |upstreams|,
       accounts := s.accounts[number := s.accounts[number].(upstreams := out)])
  }

  function PolicyOf(record: AccountRecord): AccountPolicy {
    AccountPolicy(record.rules, if record.upstreams == [] then None else Some(record.upstreams[0]))
  }

  /** Every account's policy, as `snapshot` takes them under one lock. */
  function PoliciesOf(s: Store): PolicyMap {
    map number | number in s.accounts :: PolicyOf(s.accounts[number])
  }

  class InMemControlPlane {
    var accounts: map<Text, AccountRecord>
    var quota: map<Bucket, int>
    var categories: CategoryMap
    var lastIngestion: Option<int>
    var presets: seq<Upstream>
    var nextAccountId: int
    var nextRuleId: int
    var nextUpstreamId: int

    function State(): Store
      reads this
    {
      Store(accounts, quota, categories, lastIngestion, presets, nextAccountId, nextRuleId, nextUpstreamId)
    }

    constructor (defaults: seq<NewUpstream>)
      ensures State() == EmptyStore(defaults)
      ensures |presets| == |defaults| && accounts == map[] && quota == map[] && nextUpstreamId == |defaults|
      ensures forall i :: 0 <= i < |defaults| ==>
                && presets[i].id == i + 1 && presets[i].isPreset && presets[i].accountId == None
                && presets[i].name == defaults[i].name && presets[i].protocol == defaults[i].protocol
                && presets[i].host == defaults[i].host && presets[i].port == defaults[i].port
                && presets[i].addr == defaults[i].addr
    {
      accounts := map[];
      quota := map[];
      categories := map[];
      lastIngestion := None;
      nextAccountId := 0;
      nextRuleId := 0;
      presets := [];
      nextUpstreamId := 0;
      new;
      for i := 0 to |defaults|
        invariant State() == EmptyStore(defaults[..i])
      {
        nextUpstreamId := i + 1;
        presets := presets + [Named(defaults[i], nextUpstreamId, None)];
      }
      assert defaults[..|defaults|] == defaults;
    }

    method GetOrCreate(number: Text) returns (account: Account)
      modifies this
      ensures State() == Created(old(State()), number)
      ensures number in accounts && account == accounts[number].account
    {
      if number in accounts {
        return accounts[number].account;
      }
      nextAccountId := nextAccountId + 1;
      account := Account(nextAccountId, number);
      accounts := accounts[number := AccountRecord(account, [], [])];
    }

    method Rules(number: Text) returns (rules: seq<Rule>)
      ensures rules == if number in accounts then accounts[number].rules else []
    {
      if number in accounts {
        return accounts[number].rules;
      }
      return [];
    }

    /** `now` is the clock reading, taken before the lock. */
    method RecordQuota(ruleId: int, limit: int, window: Window, now: int) returns (granted: bool)
      modifies this`quota
      ensures (State(), granted) == Spent(old(State()), (ruleId, WindowStart(now, window)), limit)
      ensures var bucket := (ruleId, WindowStart(now, window));
              var spent := if bucket in old(quota) then old(quota)[bucket] else 0;
              && (granted <==> 0 < limit && spent < limit)
              && (granted ==> quota == old(quota)[bucket := spent + 1])
              && (!granted && limit > 0 ==> quota == old(quota)[bucket := spent])
              && (limit <= 0 ==> quota == old(quota))
    {
      hide WindowStart;
      if limit <= 0 {
        return false;
      }
      var bucket := (ruleId, WindowStart(now, window));
      if bucket !in quota {
        quota := quota[bucket := 0];
      }
      if quota[bucket] >= limit {
        assert quota == old(quota)[bucket := Count(old(State()), bucket)];
        return false;
      }
      ghost var entered := quota;
      quota := quota[bucket := quota[bucket] + 1];
      assert quota == old(quota)[bucket := entered[bucket] + 1];
      return true;
    }

    method ReplaceRules(number: Text, rules: seq<NewRule>) returns (out: seq<Rule>)
      modifies this
      ensures var s := Created(old(State()), number);
              && number in s.accounts
              && State() == Replaced(s, number, s.accounts[number].account.id, rules)
              && out == accounts[number].rules
      ensures |out| == |rules|
      ensures forall i :: 0 <= i < |rules| ==>
                && out[i].id == old(nextRuleId) + 1 + i && out[i].position == i
                && out[i].accountId == accounts[number].account.id
                && out[i].action == rules[i].action && out[i].enabled == rules[i].enabled
                && out[i].targetType == rules[i].targetType && out[i].targetValue == rules[i].targetValue
                && out[i].limitCount == rules[i].limitCount && out[i].limitWindow == rules[i].limitWindow
      ensures number in old(accounts) ==>
                && accounts[number].account == old(accounts)[number].account
                && accounts[number].upstreams == old(accounts)[number].upstreams
      ensures number !in old(accounts) ==>
                accounts[number].account == Account(old(nextAccountId) + 1, number) && accounts[number].upstreams == []
      ensures accounts - {number} == old(accounts) - {number}
      ensures quota == old(quota) && categories == old(categories) && lastIngestion == old(lastIngestion)
    {
      var account := GetOrCreate(number);
      ghost var s := State();
      out := [];
      var position := 0;
      while position < |rules|
        invariant 0 <= position <= |rules|
        invariant nextRuleId == s.nextRuleId + position
        invariant State() == s.(nextRuleId := nextRuleId)
        invariant out == NumberedAll(rules[..position], s.nextRuleId + 1, account.id)
      {
        nextRuleId := nextRuleId + 1;
        var rule := Numbered(rules[position], nextRuleId, account.id, position);
        out := out + [rule];
        position := position + 1;
      }
      assert rules[..position] == rules;
      accounts := accounts[number := accounts[number].(rules := out)];
    }

    method ReplaceUpstreams(number: Text, upstreams: seq<NewUpstream>) returns (out: seq<Upstream>)
      modifies this
      ensures var s := Created(old(State()), number);
              && number in s.accounts
              && State() == Rerouted(s, number, s.accounts[number].account.id, upstreams)
              && out == accounts[number].upstreams
      ensures |out| == |upstreams|
      ensures forall i :: 0 <= i < |upstreams| ==>
                && out[i].id == old(nextUpstreamId) + 1 + i && !out[i].isPreset
                && out[i].accountId == Some(accounts[number].account.id)
                && out[i].name == upstreams[i].name && out[i].protocol == upstreams[i].protocol
                && out[i].host == upstreams[i].host && out[i].port == upstreams[i].port
                && out[i].addr == upstreams[i].addr
      ensures number in old(accounts) ==>
                && accounts[number].account == old(accounts)[number].account
                && accounts[number].rules == old(accounts)[number].rules
      ensures number !in old(accounts) ==>
                accounts[number].account == Account(old(nextAccountId) + 1, number) && accounts[number].rules == []
      ensures accounts - {number} == old(accounts) - {number}
      ensures quota == old(quota) && categories == old(categories) && lastIngestion == old(lastIngestion)
    {
      var account := GetOrCreate(number);
      ghost var s := State();
      out := [];
      for i := 0 to |upstreams|
        invariant nextUpstreamId == s.nextUpstreamId + i
        invariant State() == s.(nextUpstreamId := nextUpstreamId)
        invariant out == Listed(upstreams[..i], s.nextUpstreamId + 1, Some(account.id))
      {
        nextUpstreamId := nextUpstreamId + 1;
        out := out + [Named(upstreams[i], nextUpstreamId, Some(account.id))];
      }
      assert upstreams[..|upstreams|] == upstreams;
      accounts := accounts[number := accounts[number].(upstreams := out)];
    }

    method ReplaceCategories(m: CategoryMap, now: int)
      modifies this
      ensures State() == old(State()).(categories := m, lastIngestion := Some(now))
    {
      categories := m;
      lastIngestion := Some(now);
    }

    method CategoryList() returns (m: CategoryMap)
      ensures m == categories
    {
      return categories;
    }

    method Snapshot() returns (snapshot: PolicyMap)
      ensures snapshot == PoliciesOf(State())
      ensures forall number :: number in snapshot <==> number in accounts
      ensures forall number :: number in accounts ==>
                && snapshot[number].rules == accounts[number].rules
                && (if accounts[number].upstreams == [] then snapshot[number].upstream == None
                    else snapshot[number].upstream == Some(accounts[number].upstreams[0]))
    {
      snapshot := map number | number in accounts :: PolicyOf(accounts[number]);
    }
  }
}
