/** Ordered rule evaluation of lib/ruleengine.rs: the first enabled rule that matches decides. */
module RuleEngine {
  import opened Prelude
  import opened Texts
  import opened Quota

  datatype Action = AllowAction | DenyAction | LimitAction

  datatype TargetType = Domain | Wildcard | Category

  datatype Rule = Rule(
    id: int,
    accountId: int,
    position: int,
    action: Action,
    targetType: TargetType,
    targetValue: Text,
    limitCount: Option<int>,
    limitWindow: Option<Window>,
    enabled: bool)

  datatype Decision = Allow | Deny | Limit(ruleId: int, limitCount: int, window: Window)

  /** What a wildcard target is compared with: the target without its leading `*.`s, normalized. */
  function WildcardSuffix(target: Text): Text {
    Normalize(StripStars(target))
  }

  predicate MatchesTarget(qname: Text, targetType: TargetType, target: Text) {
    match targetType
    case Domain => Normalize(qname) == Normalize(target)
    case Wildcard =>
      var suffix := WildcardSuffix(target);
      var q := Normalize(qname);
      suffix != [] && (q == suffix || HasSuffix(q, [DOT] + suffix))
    case Category => false
  }

  predicate RuleMatches(rule: Rule, qname: Text, inCategory: Text -> bool) {
    if rule.targetType.Category? then inCategory(rule.targetValue)
    else MatchesTarget(qname, rule.targetType, rule.targetValue)
  }

  /** The decision a matching rule makes; the missing count and window default to 0 and month. */
  function DecisionOf(rule: Rule): Decision {
    match rule.action
    case AllowAction => Allow
    case DenyAction => Deny
    case LimitAction =>
      Limit(rule.id,
            if rule.limitCount.Some? then rule.limitCount.value else 0,
            if rule.limitWindow.Some? then rule.limitWindow.value else Month)
  }

  function Evaluate(rules: seq<Rule>, qname: Text, inCategory: Text -> bool): Option<Decision> {
    if rules == [] then None
    else if rules[0].enabled && RuleMatches(rules[0], qname, inCategory) then Some(DecisionOf(rules[0]))
    else Evaluate(rules[1..], qname, inCategory)
  }

  // ---------------------------------------------------------------- first match wins

  predicate Fires(rules: seq<Rule>, i: nat, qname: Text, inCategory: Text -> bool)
    requires i < |rules|
  {
    rules[i].enabled && RuleMatches(rules[i], qname, inCategory)
  }

  /** `i` is the least index of an enabled rule that matches. */
  predicate FirstMatch(rules: seq<Rule>, i: nat, qname: Text, inCategory: Text -> bool) {
    && i < |rules|
    && Fires(rules, i, qname, inCategory)
    && forall j :: 0 <= j < i ==> !Fires(rules, j, qname, inCategory)
  }

  /**
   * The decision is that of the least-index enabled rule that matches, and there is none exactly
   * when no enabled rule does.
   */
  lemma {:induction false} EvaluateIsFirstMatch(rules: seq<Rule>, qname: Text, inCategory: Text -> bool)
    ensures forall i: nat :: FirstMatch(rules, i, qname, inCategory) ==>
                          Evaluate(rules, qname, inCategory) == Some(DecisionOf(rules[i]))
    ensures Evaluate(rules, qname, inCategory) == None <==>
            forall i :: 0 <= i < |rules| ==> !Fires(rules, i, qname, inCategory)
    ensures Evaluate(rules, qname, inCategory).Some? ==> exists i: nat :: FirstMatch(rules, i, qname, inCategory)
  {
    hide RuleMatches;
    if rules != [] {
      var rest := rules[1..];
      assert forall i :: 0 <= i < |rest| ==>
          Fires(rest, i, qname, inCategory) == Fires(rules, i + 1, qname, inCategory);
      if Fires(rules, 0, qname, inCategory) {
        assert FirstMatch(rules, 0, qname, inCategory);
      } else {
        EvaluateIsFirstMatch(rest, qname, inCategory);
        forall i: nat | FirstMatch(rules, i, qname, inCategory)
          ensures Evaluate(rules, qname, inCategory) == Some(DecisionOf(rules[i]))
        {
          assert FirstMatch(rest, i - 1, qname, inCategory);
        }
        forall i | 0 <= i < |rules| && Evaluate(rest, qname, inCategory) == None
          ensures !Fires(rules, i, qname, inCategory)
        {
          if i > 0 {
            assert !Fires(rest, i - 1, qname, inCategory);
          }
        }
        if Evaluate(rest, qname, inCategory).Some? {
          var i: nat :| FirstMatch(rest, i, qname, inCategory);
          forall j | 0 <= j < i + 1
            ensures !Fires(rules, j, qname, inCategory)
          {
            if j > 0 {
              assert !Fires(rest, j - 1, qname, inCategory);
            }
          }
          assert FirstMatch(rules, i + 1, qname, inCategory);
        }
      }
    }
  }

  // ---------------------------------------------------------------- in the rule's own terms

  /**
   * What a target accepts, octet by octet, final dots aside and letters in either case: a domain the name
   * itself and nothing below it, a wildcard what is left after its `*.`s and every name that ends in a dot
   * and that, a category nothing.
   */
  predicate Accepts(targetType: TargetType, target: Text, qname: Text) {
    var q := TrimEndDots(qname);
    match targetType
    case Domain => SameLetters(q, TrimEndDots(target))
    case Wildcard =>
      var x := TrimEndDots(StripStars(target));
      && x != []
      && (SameLetters(q, x) || (|q| > |x| && q[|q| - |x| - 1] == '.' as int && SameLetters(q[|q| - |x|..], x)))
    case Category => false
  }

  lemma AcceptsIsMatch(targetType: TargetType, target: Text, qname: Text)
    ensures MatchesTarget(qname, targetType, target) <==> Accepts(targetType, target, qname)
  {
    hide SameLetters, TrimEndDots, StripStars, HasSuffix;
    var q, x := TrimEndDots(qname), TrimEndDots(StripStars(target));
    SameLettersFold(q, TrimEndDots(target));
    SameLettersFold(q, x);
    SameLettersSuffix(q, x);
  }

  /** Neither the case of a name nor that of a target matters. */
  lemma MatchIgnoresCase(targetType: TargetType, x: Text, y: Text, p: Text, q: Text)
    requires SameLetters(x, y) && SameLetters(p, q)
    ensures MatchesTarget(p, targetType, x) <==> MatchesTarget(q, targetType, y)
  {
    hide SameLetters, Lower, TrimEndDots, StripStars, HasSuffix;
    SameLettersFold(x, y);
    SameLettersFold(p, q);
    LowerTrims(x);
    LowerTrims(y);
    LowerTrims(p);
    LowerTrims(q);
    LowerStrips(x);
    LowerStrips(y);
    LowerTrims(StripStars(x));
    LowerTrims(StripStars(y));
  }

  /** A domain target matches exactly the names that have its labels, final dots and letter case aside. */
  lemma DomainIsLabels(target: Text, qname: Text)
    ensures MatchesTarget(qname, Domain, target) <==> Split(Normalize(qname)) == Split(Normalize(target))
  {
    hide Split, Normalize, Join;
    JoinSplit(Normalize(qname));
    JoinSplit(Normalize(target));
  }

  /** An enabled rule whose target accepts the name, or whose category has it. */
  predicate Hits(rule: Rule, qname: Text, inCategory: Text -> bool) {
    && rule.enabled
    && if rule.targetType == Category then inCategory(rule.targetValue)
       else Accepts(rule.targetType, rule.targetValue, qname)
  }

  predicate FirstHit(rules: seq<Rule>, k: nat, qname: Text, inCategory: Text -> bool) {
    && k < |rules| && Hits(rules[k], qname, inCategory)
    && forall j :: 0 <= j < k ==> !Hits(rules[j], qname, inCategory)
  }

  lemma HitsIsFires(rules: seq<Rule>, i: nat, qname: Text, inCategory: Text -> bool)
    requires i < |rules|
    ensures Hits(rules[i], qname, inCategory) <==> Fires(rules, i, qname, inCategory)
  {
    hide MatchesTarget, Accepts;
    AcceptsIsMatch(rules[i].targetType, rules[i].targetValue, qname);
  }

  /** What the fields of the first rule that hits decide, and that nothing is decided without one. */
  lemma EvaluateByFields(rules: seq<Rule>, qname: Text, inCategory: Text -> bool)
    ensures forall k: nat :: FirstHit(rules, k, qname, inCategory) ==>
              var rule, d := rules[k], Evaluate(rules, qname, inCategory);
              && (rule.action == AllowAction ==> d == Some(Allow))
              && (rule.action == DenyAction ==> d == Some(Deny))
              && (rule.action == LimitAction ==>
                    && d.Some? && d.value.Limit? && d.value.ruleId == rule.id
                    && (if rule.limitCount.Some? then rule.limitCount.value == d.value.limitCount
                        else d.value.limitCount == 0)
                    && (if rule.limitWindow.Some? then rule.limitWindow.value == d.value.window
                        else d.value.window == Month))
    ensures Evaluate(rules, qname, inCategory) == None <==>
              forall k :: 0 <= k < |rules| ==> !Hits(rules[k], qname, inCategory)
    ensures Evaluate(rules, qname, inCategory).Some? ==> exists k: nat :: FirstHit(rules, k, qname, inCategory)
  {
    hide Fires, Hits, Evaluate;
    EvaluateIsFirstMatch(rules, qname, inCategory);
    forall i: nat | i < |rules|
      ensures Hits(rules[i], qname, inCategory) <==> Fires(rules, i, qname, inCategory)
    {
      HitsIsFires(rules, i, qname, inCategory);
    }
    forall k: nat
      ensures FirstHit(rules, k, qname, inCategory) <==> FirstMatch(rules, k, qname, inCategory)
    {
    }
    if Evaluate(rules, qname, inCategory).Some? {
      var k: nat :| FirstMatch(rules, k, qname, inCategory);
      assert FirstHit(rules, k, qname, inCategory);
    }
  }

  // ---------------------------------------------------------------- wildcards

  /**
   * A wildcard target with something left after its `*.`s matches exactly the names whose last
   * labels are the labels of that suffix.
   */
  lemma WildcardIsLabelSuffix(qname: Text, target: Text)
    ensures MatchesTarget(qname, Wildcard, target) <==>
            WildcardSuffix(target) != [] && HasSuffix(Split(Normalize(qname)), Split(WildcardSuffix(target)))
  {
    DottedSuffixIsLabelSuffix(Normalize(qname), WildcardSuffix(target));
  }

  /** Every name the target of `later` accepts is accepted by the wildcard `target`. */
  predicate TargetCovered(later: Rule, target: Text) {
    match later.targetType
    case Domain => MatchesTarget(later.targetValue, Wildcard, target)
    case Wildcard =>
      WildcardSuffix(later.targetValue) == [] || MatchesTarget(StripStars(later.targetValue), Wildcard, target)
    case Category => false
  }

  /** Coverage is transitive through the names it accepts. */
  lemma WildcardCovers(later: Rule, target: Text, qname: Text)
    requires TargetCovered(later, target)
    requires MatchesTarget(qname, later.targetType, later.targetValue)
    ensures MatchesTarget(qname, Wildcard, target)
  {
    hide Normalize, StripStars, Split;
    if later.targetType.Wildcard? {
      WildcardIsLabelSuffix(qname, later.targetValue);
      WildcardIsLabelSuffix(StripStars(later.targetValue), target);
      HasSuffixTransitive(Split(Normalize(qname)), Split(WildcardSuffix(later.targetValue)),
                          Split(WildcardSuffix(target)));
      WildcardIsLabelSuffix(qname, target);
    }
  }

  /** A wildcard covers a domain or wildcard exactly when it accepts every name that one accepts. */
  lemma CoverageIsExact(later: Rule, target: Text)
    requires !later.targetType.Category?
    ensures TargetCovered(later, target) <==>
            forall qname :: MatchesTarget(qname, later.targetType, later.targetValue) ==>
                              MatchesTarget(qname, Wildcard, target)
  {
    hide Normalize, StripStars, Split, HasSuffix;
    if TargetCovered(later, target) {
      forall qname | MatchesTarget(qname, later.targetType, later.targetValue)
        ensures MatchesTarget(qname, Wildcard, target)
      {
        WildcardCovers(later, target, qname);
      }
    } else {
      var witness_ := if later.targetType.Domain? then later.targetValue else StripStars(later.targetValue);
      assert MatchesTarget(witness_, later.targetType, later.targetValue);
    }
  }

  // ---------------------------------------------------------------- dead rules

  function Without(rules: seq<Rule>, k: nat): seq<Rule>
    requires k < |rules|
  {
    rules[..k] + rules[k + 1..]
  }

  /**
   * A domain or wildcard rule behind an enabled wildcard that covers it is dead: deleting it changes
   * no decision, for any name and any category index.
   */
  lemma {:induction false} DeadRule(rules: seq<Rule>, i: nat, k: nat, qname: Text, inCategory: Text -> bool)
    requires i < k < |rules|
    requires rules[i].enabled && rules[i].targetType.Wildcard?
    requires TargetCovered(rules[k], rules[i].targetValue)
    ensures Evaluate(Without(rules, k), qname, inCategory) == Evaluate(rules, qname, inCategory)
    decreases k
  {
    hide MatchesTarget, TargetCovered;
    var kept := Without(rules, k);
    assert kept[0] == rules[0] && kept[1..] == rules[..k][1..] + rules[k + 1..];
    if !Fires(rules, 0, qname, inCategory) {
      assert kept[1..] == Without(rules[1..], k - 1);
      if i > 0 {
        DeadRule(rules[1..], i - 1, k - 1, qname, inCategory);
      } else {
        NeverFires(rules[k], rules[0].targetValue, qname);
        DeletedUnmatched(rules[1..], k - 1, qname, inCategory);
      }
    }
  }

  lemma NeverFires(rule: Rule, target: Text, qname: Text)
    requires TargetCovered(rule, target) && !MatchesTarget(qname, Wildcard, target)
    ensures !MatchesTarget(qname, rule.targetType, rule.targetValue) && !rule.targetType.Category?
  {
    hide MatchesTarget;
    if MatchesTarget(qname, rule.targetType, rule.targetValue) {
      WildcardCovers(rule, target, qname);
    }
  }

  lemma {:induction false} DeletedUnmatched(rules: seq<Rule>, k: nat, qname: Text, inCategory: Text -> bool)
    requires k < |rules| && !RuleMatches(rules[k], qname, inCategory)
    ensures Evaluate(Without(rules, k), qname, inCategory) == Evaluate(rules, qname, inCategory)
    decreases k
  {
    hide RuleMatches;
    if k == 0 {
      assert Without(rules, 0) == rules[1..];
    } else {
      assert Without(rules, k)[0] == rules[0] && Without(rules, k)[1..] == Without(rules[1..], k - 1);
      DeletedUnmatched(rules[1..], k - 1, qname, inCategory);
    }
  }
}
