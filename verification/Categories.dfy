/** The category index of lib/categories.rs: a hashed ancestor walk that agrees with a plain scan. */
module Categories {
  import opened Prelude
  import opened Texts
  import opened RuleEngine

  type CategoryMap = map<Text, set<Text>>

  predicate Tagged(m: CategoryMap, domain: Text, category: Text) {
    domain in m && category in m[domain]
  }

  /** `filter(|l| !l.is_empty())`. */
  function NonEmpty(ls: seq<Text>): (r: seq<Text>)
    ensures NoEmpty(r)
  {
    if ls == [] then []
    else if ls[0] == [] then NonEmpty(ls[1..])
    else [ls[0]] + NonEmpty(ls[1..])
  }

  /** Some name made of the last labels of `labels` is tagged. */
  predicate AncestorTagged(m: CategoryMap, labels: seq<Text>, category: Text) {
    exists i :: 0 <= i < |labels| && Tagged(m, Join(labels[i..]), category)
  }

  class CategoryIndex {
    var categories: CategoryMap

    constructor ()
      ensures categories == map[]
    {
      categories := map[];
    }

    /** Walk from the name up through its ancestors, dropping the front label each time. */
    method Contains(qname: Text, category: Text) returns (r: bool)
      ensures r == AncestorTagged(categories, NonEmpty(Split(Normalize(qname))), category)
    {
      hide Split, Normalize, Join;
      var q := Normalize(qname);
      var labels := NonEmpty(Split(q));
      ghost var all := labels;
      ghost var dropped := 0;
      while labels != []
        invariant 0 <= dropped <= |all| && labels == all[dropped..]
        invariant forall i :: 0 <= i < dropped ==> !Tagged(categories, Join(all[i..]), category)
        decreases |labels|
      {
        var domain := Join(labels);
        if domain in categories && category in categories[domain] {
          return true;
        }
        labels := labels[1..];
        dropped := dropped + 1;
      }
      return false;
    }

    method Replace(m: CategoryMap)
      modifies this
      ensures categories == m
    {
      categories := m;
    }

    method Len() returns (n: nat)
      ensures n == |categories|
    {
      n := |categories|;
    }
  }

  /** What `Contains` answers. */
  predicate InCategory(m: CategoryMap, qname: Text, category: Text) {
    AncestorTagged(m, NonEmpty(Split(Normalize(qname))), category)
  }

  // ---------------------------------------------------------------- agreement with the scan

  /** A key as the index is meant to hold it: normalized, without a leading `*.`, and not empty. */
  predicate CanonicalKey(key: Text) {
    key != [] && Normalize(key) == key && !StarDot(key)
  }

  predicate CanonicalKeys(m: CategoryMap) {
    forall key :: key in m ==> CanonicalKey(key)
  }

  /** The naive scan: some key tagged `category` matches the name as a wildcard target. */
  ghost predicate ScanMatches(m: CategoryMap, qname: Text, category: Text) {
    exists key :: Tagged(m, key, category) && MatchesTarget(qname, Wildcard, key)
  }

  /** A name without its empty labels. */
  function Compact(name: Text): Text {
    Join(NonEmpty(Split(name)))
  }

  lemma {:induction false} NonEmptyKeeps(ls: seq<Text>)
    ensures NoEmpty(ls) ==> NonEmpty(ls) == ls
    ensures NoDots(ls) ==> NoDots(NonEmpty(ls))
    ensures forall l :: l in NonEmpty(ls) ==> l in ls
  {
    if ls != [] {
      NonEmptyKeeps(ls[1..]);
      assert forall i :: 0 <= i < |ls[1..]| ==> ls[1..][i] == ls[i + 1];
      if NoEmpty(ls) {
        assert ls == [ls[0]] + ls[1..];
      }
    }
  }

  lemma {:induction false} NormalFormOfLower(ls: seq<Text>)
    requires ls != [] && NoEmpty(ls) && NoDots(ls)
    ensures TrimEndDots(Join(ls)) == Join(ls)
  {
    SplitJoin(ls);
    LastLabel(Join(ls));
  }

  lemma {:induction false} LowerLabels(s: Text)
    requires IsLower(s)
    ensures forall l :: l in Split(s) ==> IsLower(l)
  {
    if s != [] {
      LowerLabels(s[1..]);
      var rest := Split(s[1..]);
      assert rest[0] in rest;
      forall l | l in Split(s)
        ensures IsLower(l)
      {
        if s[0] != DOT && l == [s[0]] + rest[0] {
        } else if l != [] {
          assert l in rest;
        }
      }
    }
  }

  lemma LowerAppend(a: Text, b: Text)
    requires IsLower(a) && IsLower(b)
    ensures IsLower(a + [DOT] + b)
  {
  }

  lemma {:induction false} LowerJoin(ls: seq<Text>)
    requires forall l :: l in ls ==> IsLower(l)
    ensures IsLower(Join(ls))
  {
    if ls != [] {
      assert IsLower(ls[0]) by {
        assert ls[0] in ls;
      }
      assert forall l :: l in ls[1..] ==> l in ls;
      LowerJoin(ls[1..]);
      LowerAppend(ls[0], Join(ls[1..]));
    }
  }

  /** The compacted normalized name is in normal form, and its labels are the non-empty ones. */
  lemma CompactNormal(qname: Text)
    ensures var c := Compact(Normalize(qname)); var ls := NonEmpty(Split(Normalize(qname)));
            && Normalize(c) == c
            && (ls != [] ==> Split(c) == ls)
            && (ls == [] ==> c == [])
  {
    hide Split, Join, TrimEndDots;
    var q := Normalize(qname);
    var ls := NonEmpty(Split(q));
    LowerFixed(TrimEndDots(qname));
    LowerLabels(q);
    SplitHasNoDots(q);
    NonEmptyKeeps(Split(q));
    LowerJoin(ls);
    LowerFixed(Join(ls));
    if ls != [] {
      SplitJoin(ls);
      NormalFormOfLower(ls);
    } else {
      EmptyJoin();
    }
  }

  lemma EmptyJoin()
    ensures Join([]) == [] && TrimEndDots([]) == [] && Split([]) == [[]]
  {
  }

  lemma KeySuffix(key: Text)
    requires CanonicalKey(key)
    ensures WildcardSuffix(key) == key
  {
  }

  /**
   * For any name, looking up its ancestors finds a category exactly when some key tagged with it
   * matches the name, without its empty labels, as a wildcard target.
   */
  lemma LookupIsScan(m: CategoryMap, qname: Text, category: Text)
    requires CanonicalKeys(m)
    ensures InCategory(m, qname, category) <==> ScanMatches(m, Compact(Normalize(qname)), category)
  {
    hide Split, Join, Normalize, MatchesTarget, CanonicalKey, WildcardSuffix, Compact;
    var c, ls := Compact(Normalize(qname)), NonEmpty(Split(Normalize(qname)));
    CompactNormal(qname);
    if InCategory(m, qname, category) {
      var i :| 0 <= i < |ls| && Tagged(m, Join(ls[i..]), category);
      var key := Join(ls[i..]);
      KeySuffix(key);
      SplitHasNoDots(Normalize(qname));
      NonEmptyKeeps(Split(Normalize(qname)));
      SplitJoin(ls[i..]);
      KeyNotEmpty(key);
      WildcardIsLabelSuffix(c, key);
    }
    if ScanMatches(m, c, category) {
      var key :| Tagged(m, key, category) && MatchesTarget(c, Wildcard, key);
      KeySuffix(key);
      KeyNotEmpty(key);
      WildcardIsLabelSuffix(c, key);
      JoinSplit(key);
      EmptyScan(ls, key);
      var i := |ls| - |Split(key)|;
      assert Tagged(m, Join(ls[i..]), category);
    }
  }

  lemma KeyNotEmpty(key: Text)
    requires CanonicalKey(key)
    ensures key != []
  {
  }

  lemma EmptyScan(ls: seq<Text>, key: Text)
    requires key != [] && HasSuffix(if ls == [] then Split([]) else ls, Split(key))
    ensures ls != []
  {
    JoinSplit(key);
  }

  /** For a name without empty labels the two agree outright. */
  lemma LookupIsScanPlain(m: CategoryMap, qname: Text, category: Text)
    requires CanonicalKeys(m) && NoEmpty(Split(Normalize(qname)))
    ensures InCategory(m, qname, category) <==> ScanMatches(m, qname, category)
  {
    hide Split, Join, Normalize;
    var q := Normalize(qname);
    LookupIsScan(m, qname, category);
    NonEmptyKeeps(Split(q));
    JoinSplit(q);
    NormalizeIdempotent(qname);
    assert Compact(q) == q;
    assert forall key :: MatchesTarget(q, Wildcard, key) == MatchesTarget(qname, Wildcard, key);
  }

  /** With an empty label inside they differ: the walk skips it, the scan does not. */
  lemma EmptyLabelDiverges(category: Text)
    ensures var m: CategoryMap := map[[97, DOT, 98] := {category}];
            && CanonicalKeys(m)
            && InCategory(m, [97, DOT, DOT, 98], category)
            && !ScanMatches(m, [97, DOT, DOT, 98], category)
  {
    var key: Text, name: Text := [97, DOT, 98], [97, DOT, DOT, 98];
    var m: CategoryMap := map[key := {category}];
    var a: Text, b: Text := [97], [98];
    SplitLabel(a);
    SplitLabel(b);
    assert name == a + [DOT] + ([] + [DOT] + b);
    SplitAtDot(a, [] + [DOT] + b);
    SplitAtDot([], b);
    assert Split(name) == [a, [], b];
    assert Normalize(name) == name && Normalize(key) == key;
    var l1: seq<Text>, l2: seq<Text>, l3: seq<Text> := [b], [[], b], [a, [], b];
    assert l3[1..] == l2 && l2[1..] == l1 && l1[1..] == [];
    assert NonEmpty(l1) == l1;
    assert NonEmpty(l2) == NonEmpty(l2[1..]);
    assert NonEmpty(l3) == [a, b];
    assert [a, b][0..] == [a, b] && [a, b][1..] == [b];
    assert Join([a, b]) == key;
    assert !HasSuffix(name, [DOT] + key);
  }

  /** Whatever the index, the lookup and the scan answer alike for this name. */
  ghost predicate LookupAgrees(qname: Text) {
    forall m: CategoryMap, category ::
      CanonicalKeys(m) ==> (InCategory(m, qname, category) <==> ScanMatches(m, qname, category))
  }

  lemma RootAgrees(m: CategoryMap, qname: Text, category: Text)
    requires Normalize(qname) == []
    ensures !InCategory(m, qname, category) && !ScanMatches(m, qname, category)
  {
    var root: seq<Text> := [[]];
    assert root[1..] == [];
    assert NonEmpty(Split([])) == [];
  }

  lemma SuffixOf<T>(a: seq<T>, b: seq<T>)
    ensures HasSuffix(a + b, b) && HasSuffix(b, b)
  {
  }

  lemma NoEmptyCons(l: Text, ls: seq<Text>)
    requires l != []
    ensures NoEmpty([l] + ls) <==> NoEmpty(ls)
  {
    if NoEmpty([l] + ls) {
      assert forall i :: 0 <= i < |ls| ==> ls[i] == ([l] + ls)[i + 1];
    }
  }

  /** Leading `*.`s are labels of their own, so stripping them leaves the last labels. */
  lemma {:induction false} StrippedLabels(q: Text)
    requires q != [] && q[|q| - 1] != DOT
    ensures var t := StripStars(q);
            && t != [] && t[|t| - 1] == q[|q| - 1]
            && HasSuffix(q, t) && HasSuffix(Split(q), Split(t))
            && (NoEmpty(Split(t)) <==> NoEmpty(Split(q)))
  {
    hide Split, HasSuffix, NoEmpty, STAR, DOT;
    SuffixOf([], q);
    SuffixOf([], Split(q));
    if StarDot(q) {
      var rest := q[2..];
      OneStarStripped(q);
      StrippedLabels(rest);
      HasSuffixTransitive(q, rest, StripStars(rest));
      HasSuffixTransitive(Split(q), Split(rest), Split(StripStars(rest)));
    }
  }

  lemma OneStarStripped(q: Text)
    requires StarDot(q)
    ensures HasSuffix(q, q[2..]) && HasSuffix(Split(q), Split(q[2..]))
    ensures NoEmpty(Split(q[2..])) <==> NoEmpty(Split(q))
  {
    hide Split, HasSuffix, NoEmpty;
    var rest := q[2..];
    assert q == [STAR] + [DOT] + rest;
    SplitAtDot([STAR], rest);
    SplitLabel([STAR]);
    NoEmptyCons([STAR], Split(rest));
    SuffixOf([STAR] + [DOT], rest);
    SuffixOf([[STAR]], Split(rest));
  }

  lemma NormalEnd(s: Text)
    requires Normalize(s) != []
    ensures var q := Normalize(s); q[|q| - 1] != DOT && IsLower(q)
  {
    TrimEndDotsFixed(s);
    LowerFixed(TrimEndDots(s));
  }

  lemma LowerTail(q: Text, t: Text)
    requires IsLower(q) && HasSuffix(q, t) && t != [] && t[|t| - 1] != DOT
    ensures Normalize(t) == t
  {
    assert forall i :: 0 <= i < |t| ==> t[i] == q[|q| - |t| + i];
    LowerFixed(t);
  }

  /** A name with an empty label inside is told apart by the index that tags it, stars stripped. */
  lemma EmptyLabelTold(qname: Text, category: Text)
    requires Normalize(qname) != [] && !NoEmpty(Split(Normalize(qname)))
    ensures var m: CategoryMap := map[StripStars(Normalize(qname)) := {category}];
            CanonicalKeys(m) && ScanMatches(m, qname, category) && !InCategory(m, qname, category)
  {
    hide Split, Join, Normalize, MatchesTarget, StripStars;
    var q := Normalize(qname);
    var key := StripStars(q);
    var m: CategoryMap := map[key := {category}];
    NormalEnd(qname);
    StrippedLabels(q);
    StripStarsFixed(q);
    LowerTail(q, key);
    KeySuffix(key);
    WildcardIsLabelSuffix(qname, key);
    assert Tagged(m, key, category);
    var ls := NonEmpty(Split(q));
    SplitHasNoDots(q);
    NonEmptyKeeps(Split(q));
    forall i | 0 <= i < |ls|
      ensures Join(ls[i..]) != key
    {
      SplitJoin(ls[i..]);
    }
  }

  /**
   * Exactly which names the two disagree on: those with an empty label inside. On a name without one,
   * and on the root, they agree whatever the index holds.
   */
  lemma LookupAgreesExactly(qname: Text)
    ensures LookupAgrees(qname) <==> NoEmpty(Split(Normalize(qname))) || Normalize(qname) == []
  {
    hide Split, Normalize, InCategory, ScanMatches, CanonicalKeys, StripStars;
    if NoEmpty(Split(Normalize(qname))) {
      forall m: CategoryMap, category | CanonicalKeys(m)
        ensures InCategory(m, qname, category) <==> ScanMatches(m, qname, category)
      {
        LookupIsScanPlain(m, qname, category);
      }
    } else if Normalize(qname) == [] {
      forall m: CategoryMap, category
        ensures InCategory(m, qname, category) <==> ScanMatches(m, qname, category)
      {
        RootAgrees(m, qname, category);
      }
    } else {
      EmptyLabelTold(qname, []);
    }
  }

  /** A tagged name tags every name below it. */
  lemma SubdomainsInherit(m: CategoryMap, sub: Text, qname: Text, category: Text)
    requires InCategory(m, qname, category)
    ensures InCategory(m, sub + [DOT] + qname, category)
  {
    hide Split, Join, Normalize;
    EmptyName(qname);
    NormalizePrepend(sub, qname);
    var q := Normalize(qname);
    var ls := NonEmpty(Split(q));
    SplitAtDot(Lower(sub), q);
    NonEmptyAppend(Split(Lower(sub)), Split(q));
    var more := NonEmpty(Split(Lower(sub)));
    var i :| 0 <= i < |ls| && Tagged(m, Join(ls[i..]), category);
    assert (more + ls)[|more| + i..] == ls[i..];
  }

  lemma EmptyName(qname: Text)
    ensures TrimEndDots(qname) == [] ==> NonEmpty(Split(Normalize(qname))) == []
  {
    if TrimEndDots(qname) == [] {
      EmptyJoin();
      assert Normalize(qname) == [];
      var root: seq<Text> := [[]];
      assert root[1..] == [];
    }
  }

  lemma {:induction false} NonEmptyAppend(a: seq<Text>, b: seq<Text>)
    ensures NonEmpty(a + b) == NonEmpty(a) + NonEmpty(b)
  {
    if a == [] {
      assert a + b == b;
    } else {
      NonEmptyAppend(a[1..], b);
      var rest := NonEmpty(a[1..]) + NonEmpty(b);
      assert (a + b)[1..] == a[1..] + b && (a + b)[0] == a[0];
      assert NonEmpty(a + b) == if a[0] == [] then rest else [a[0]] + rest;
      assert [a[0]] + rest == ([a[0]] + NonEmpty(a[1..])) + NonEmpty(b);
    }
  }

  lemma {:induction false} TrimPrepend(x: Text, s: Text)
    requires TrimEndDots(s) != []
    ensures TrimEndDots(x + s) == x + TrimEndDots(s)
    decreases |s|
  {
    assert (x + s)[|x + s| - 1] == s[|s| - 1];
    if s[|s| - 1] == DOT {
      assert (x + s)[..|x + s| - 1] == x + s[..|s| - 1];
      TrimPrepend(x, s[..|s| - 1]);
    }
  }

  lemma NormalizePrepend(sub: Text, qname: Text)
    ensures TrimEndDots(qname) != [] ==>
              Normalize(sub + [DOT] + qname) == Lower(sub) + [DOT] + Normalize(qname)
  {
    hide TrimEndDots;
    if TrimEndDots(qname) != [] {
      TrimPrepend(sub + [DOT], qname);
      var t := TrimEndDots(qname);
      assert Lower(sub + [DOT] + t) == Lower(sub) + [DOT] + Lower(t);
    }
  }
}
