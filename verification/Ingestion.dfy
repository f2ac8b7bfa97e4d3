/** Merging and publishing feeds: `ingest` and `load` of lib/blocklist.rs. */
module Ingestion {
  import opened Prelude
  import opened Texts
  import opened RuleEngine
  import opened Categories
  import opened Blocklist
  import opened Storage

  /** How one feed's task ended: with the categories and domains of the feed, or not at all. */
  datatype FeedResult = Fetched(categories: set<Text>, domains: set<Text>) | Failed

  function TagsOf(m: CategoryMap, domain: Text): set<Text> {
    if domain in m then m[domain] else {}
  }

  /** `m` after every domain of one feed has been tagged with the feed's categories. */
  function WithFeed(m: CategoryMap, feed: FeedResult): CategoryMap {
    if feed.Failed? then m
    else map d | d in m.Keys + feed.domains ::
           TagsOf(m, d) + (if d in feed.domains then feed.categories else {})
  }

  function MergedFrom(m: CategoryMap, feeds: seq<FeedResult>): CategoryMap
    decreases |feeds|
  {
    if feeds == [] then m else MergedFrom(WithFeed(m, feeds[0]), feeds[1..])
  }

  function Merged(feeds: seq<FeedResult>): CategoryMap {
    MergedFrom(map[], feeds)
  }

  method MergeFeed(m: CategoryMap, feed: FeedResult) returns (merged: CategoryMap)
    ensures merged == WithFeed(m, feed)
  {
    hide WithFeed;
    merged := m;
    if feed.Fetched? {
      var todo := feed.domains;
      assert feed.domains - todo == {};
      WithNothing(m, feed);
      while todo != {}
        invariant todo <= feed.domains
        invariant merged == WithFeed(m, feed.(domains := feed.domains - todo))
        decreases |todo|
      {
        var domain :| domain in todo;
        WithOneMore(m, feed, feed.domains - todo, domain);
        assert feed.domains - todo + {domain} == feed.domains - (todo - {domain});
        merged := merged[domain := TagsOf(merged, domain) + feed.categories];
        todo := todo - {domain};
      }
      assert feed.domains - todo == feed.domains;
    } else {
      WithNothing(m, feed);
    }
  }

  lemma WithNothing(m: CategoryMap, feed: FeedResult)
    ensures feed.Failed? ==> WithFeed(m, feed) == m
    ensures feed.Fetched? ==> WithFeed(m, feed.(domains := {})) == m
  {
    if feed.Fetched? {
      var w := WithFeed(m, feed.(domains := {}));
      assert w.Keys == m.Keys;
      assert forall d :: d in m ==> w[d] == m[d] + {} == m[d];
    }
  }

  lemma WithOneMore(m: CategoryMap, feed: FeedResult, done: set<Text>, d: Text)
    requires feed.Fetched? && d !in done
    ensures var w := WithFeed(m, feed.(domains := done));
            w[d := TagsOf(w, d) + feed.categories] == WithFeed(m, feed.(domains := done + {d}))
  {
    var w, more := WithFeed(m, feed.(domains := done)), WithFeed(m, feed.(domains := done + {d}));
    var x := w[d := TagsOf(w, d) + feed.categories];
    assert x.Keys == more.Keys;
    assert TagsOf(w, d) == TagsOf(m, d) + {} == TagsOf(m, d);
    assert forall e :: e in x && e != d ==> x[e] == more[e];
  }

  method Merge(feeds: seq<FeedResult>) returns (merged: CategoryMap)
    ensures merged == Merged(feeds)
  {
    hide WithFeed;
    merged := map[];
    var i := 0;
    assert feeds[0..] == feeds;
    while i < |feeds|
      invariant 0 <= i <= |feeds|
      invariant MergedFrom(merged, feeds[i..]) == Merged(feeds)
    {
      assert feeds[i..][1..] == feeds[i + 1..];
      merged := MergeFeed(merged, feeds[i]);
      i := i + 1;
    }
  }

  // ---------------------------------------------------------------- the merge is order-free

  /** Some feed that arrived lists `domain`. */
  predicate Listed(feeds: seq<FeedResult>, domain: Text) {
    exists i :: 0 <= i < |feeds| && feeds[i].Fetched? && domain in feeds[i].domains
  }

  /** Some feed that arrived lists `domain` and carries `category`. */
  predicate ListedUnder(feeds: seq<FeedResult>, domain: Text, category: Text) {
    exists i :: 0 <= i < |feeds| && feeds[i].Fetched? && domain in feeds[i].domains && category in feeds[i].categories
  }

  lemma {:induction false} MergedFromMeaning(m: CategoryMap, feeds: seq<FeedResult>, domain: Text)
    ensures var r := MergedFrom(m, feeds);
            && (domain in r <==> domain in m || Listed(feeds, domain))
            && forall c :: Tagged(r, domain, c) <==> Tagged(m, domain, c) || ListedUnder(feeds, domain, c)
    decreases |feeds|
  {
    if feeds != [] {
      var w, rest := WithFeed(m, feeds[0]), feeds[1..];
      MergedFromMeaning(w, rest, domain);
      ListedCons(feeds, domain);
      forall c
        ensures ListedUnder(feeds, domain, c) <==>
                ListedUnder(feeds[..1], domain, c) || ListedUnder(rest, domain, c)
      {
        ListedUnderCons(feeds, domain, c);
      }
    }
  }

  lemma ListedCons(feeds: seq<FeedResult>, domain: Text)
    requires feeds != []
    ensures Listed(feeds, domain) <==> (feeds[0].Fetched? && domain in feeds[0].domains) || Listed(feeds[1..], domain)
  {
    var rest := feeds[1..];
    if Listed(feeds, domain) && !(feeds[0].Fetched? && domain in feeds[0].domains) {
      var i :| 0 <= i < |feeds| && feeds[i].Fetched? && domain in feeds[i].domains;
      assert rest[i - 1] == feeds[i];
    }
    if Listed(rest, domain) {
      var i :| 0 <= i < |rest| && rest[i].Fetched? && domain in rest[i].domains;
      assert feeds[i + 1] == rest[i];
    }
  }

  lemma ListedUnderCons(feeds: seq<FeedResult>, domain: Text, c: Text)
    requires feeds != []
    ensures ListedUnder(feeds[..1], domain, c) <==>
            feeds[0].Fetched? && domain in feeds[0].domains && c in feeds[0].categories
    ensures ListedUnder(feeds, domain, c) <==> ListedUnder(feeds[..1], domain, c) || ListedUnder(feeds[1..], domain, c)
  {
    var first, rest := feeds[..1], feeds[1..];
    assert first[0] == feeds[0];
    if ListedUnder(feeds, domain, c) && !ListedUnder(first, domain, c) {
      var i :| 0 <= i < |feeds| && feeds[i].Fetched? && domain in feeds[i].domains && c in feeds[i].categories;
      assert rest[i - 1] == feeds[i];
    }
    if ListedUnder(rest, domain, c) {
      var i :| 0 <= i < |rest| && rest[i].Fetched? && domain in rest[i].domains && c in rest[i].categories;
      assert feeds[i + 1] == rest[i];
    }
  }

  /**
   * The merged map holds exactly the listed domains, each tagged with the union of the categories of
   * the feeds listing it.
   */
  lemma MergedMeaning(feeds: seq<FeedResult>, domain: Text)
    ensures domain in Merged(feeds) <==> Listed(feeds, domain)
    ensures forall c :: Tagged(Merged(feeds), domain, c) <==> ListedUnder(feeds, domain, c)
  {
    MergedFromMeaning(map[], feeds, domain);
  }

  /** So it is the same whatever order the feeds complete in, and however often one is repeated. */
  lemma MergeOrderFree(a: seq<FeedResult>, b: seq<FeedResult>)
    requires forall f :: f in a <==> f in b
    ensures Merged(a) == Merged(b)
  {
    hide Merged;
    forall d
      ensures d in Merged(a) <==> d in Merged(b)
      ensures forall c :: Tagged(Merged(a), d, c) <==> Tagged(Merged(b), d, c)
    {
      MergedMeaning(a, d);
      MergedMeaning(b, d);
      SameListed(a, b, d);
      SameListed(b, a, d);
    }
    forall d | d in Merged(a)
      ensures Merged(a)[d] == Merged(b)[d]
    {
      assert forall c :: c in Merged(a)[d] <==> Tagged(Merged(a), d, c);
      assert forall c :: c in Merged(b)[d] <==> Tagged(Merged(b), d, c);
    }
  }

  lemma SameListed(a: seq<FeedResult>, b: seq<FeedResult>, d: Text)
    requires forall f :: f in a ==> f in b
    ensures Listed(a, d) ==> Listed(b, d)
    ensures forall c :: ListedUnder(a, d, c) ==> ListedUnder(b, d, c)
  {
    if Listed(a, d) {
      var i :| 0 <= i < |a| && a[i].Fetched? && d in a[i].domains;
      assert a[i] in b;
    }
    forall c | ListedUnder(a, d, c)
      ensures ListedUnder(b, d, c)
    {
      var i :| 0 <= i < |a| && a[i].Fetched? && d in a[i].domains && c in a[i].categories;
      assert a[i] in b;
    }
  }

  // ---------------------------------------------------------------- from feed text to lookup

  /** A feed as fetched: its format, body and categories; or a failure. */
  datatype Download = Body(format: FeedFormat, text: Text, categories: set<Text>) | Lost

  function ParsedFeed(d: Download): FeedResult {
    match d
    case Lost => Failed
    case Body(format, text, categories) => Fetched(categories, LinesDomains(format, Lines(text)))
  }

  function ParsedFeeds(ds: seq<Download>): seq<FeedResult> {
    seq(|ds|, i requires 0 <= i < |ds| => ParsedFeed(ds[i]))
  }

  lemma ParsedKeysCanonical(ds: seq<Download>)
    ensures CanonicalKeys(Merged(ParsedFeeds(ds)))
  {
    hide CanonicalKey, Merged, LinesDomains, Lines;
    var feeds := ParsedFeeds(ds);
    forall d | d in Merged(feeds)
      ensures CanonicalKey(d)
    {
      MergedMeaning(feeds, d);
      var i :| 0 <= i < |feeds| && feeds[i].Fetched? && d in feeds[i].domains;
      assert feeds[i] == ParsedFeed(ds[i]);
      FeedUsable(ds[i].format, Lines(ds[i].text));
    }
  }

  /** Some body that was fetched lists `domain` on one of its lines and comes with `category`. */
  predicate Offered(ds: seq<Download>, domain: Text, category: Text) {
    exists i :: 0 <= i < |ds| && ds[i].Body? && category in ds[i].categories
                && domain in LinesDomains(ds[i].format, Lines(ds[i].text))
  }

  lemma OfferedIsListed(ds: seq<Download>, domain: Text, category: Text)
    ensures Offered(ds, domain, category) <==> ListedUnder(ParsedFeeds(ds), domain, category)
  {
    hide LinesDomains, Lines;
    var feeds := ParsedFeeds(ds);
    assert forall i :: 0 <= i < |ds| ==> feeds[i] == ParsedFeed(ds[i]);
  }

  /**
   * Once the merged map is published, a name is in a category exactly when some feed carrying it
   * lists a domain that matches the name, less its empty labels, as a wildcard.
   */
  lemma FeedsToLookup(ds: seq<Download>, qname: Text, category: Text)
    ensures var feeds := ParsedFeeds(ds);
            InCategory(Merged(feeds), qname, category) <==>
            exists d :: Offered(ds, d, category) && MatchesTarget(Compact(Normalize(qname)), Wildcard, d)
  {
    hide Offered, ListedUnder, Merged, InCategory, MatchesTarget, CanonicalKeys, LinesDomains, Lines, Compact,
      Normalize;
    var feeds := ParsedFeeds(ds);
    ParsedKeysCanonical(ds);
    LookupIsScan(Merged(feeds), qname, category);
    forall d
      ensures Tagged(Merged(feeds), d, category) <==> Offered(ds, d, category)
    {
      MergedMeaning(feeds, d);
      OfferedIsListed(ds, d, category);
    }
  }

  /** In particular a listed domain without empty labels, and every name below it. */
  lemma ListedDomainsFound(ds: seq<Download>, d: Text, sub: Text, category: Text)
    requires Offered(ds, d, category) && NoEmpty(Split(d))
    ensures InCategory(Merged(ParsedFeeds(ds)), d, category)
    ensures InCategory(Merged(ParsedFeeds(ds)), sub + [DOT] + d, category)
  {
    hide Merged, InCategory, CanonicalKeys, CanonicalKey, LinesDomains, Lines, Split, Normalize, Offered, ListedUnder;
    var feeds := ParsedFeeds(ds);
    OfferedIsListed(ds, d, category);
    ParsedKeysCanonical(ds);
    MergedMeaning(feeds, d);
    assert Tagged(Merged(feeds), d, category);
    KeyMatchesItself(Merged(feeds), d);
    LookupIsScanPlain(Merged(feeds), d, category);
    SubdomainsInherit(Merged(feeds), sub, d, category);
  }

  lemma KeyMatchesItself(m: CategoryMap, d: Text)
    requires CanonicalKeys(m) && d in m
    ensures MatchesTarget(d, Wildcard, d) && Normalize(d) == d
  {
    KeySuffix(d);
  }

  // ---------------------------------------------------------------- publishing

  /** What an ingestion leaves in the store and in the index: nothing new when the sizes agree. */
  function Published(stored: CategoryMap, index: CategoryMap, merged: CategoryMap): (CategoryMap, CategoryMap) {
    if |merged| == |index| then (stored, index) else (merged, merged)
  }

  /** An ingestion keeps the store and the index equal once they are, also when it is skipped. */
  lemma PublishKeepsAgreement(stored: CategoryMap, index: CategoryMap, merged: CategoryMap)
    requires stored == index
    ensures Published(stored, index, merged).0 == Published(stored, index, merged).1
  {
  }

  /**
   * The index ends up as the merged map exactly when the sizes differ or it already was that map, and the
   * store takes a new map exactly when the index does.
   */
  lemma PublishExact(stored: CategoryMap, index: CategoryMap, merged: CategoryMap)
    ensures Published(stored, index, merged).1 == merged <==> |merged| != |index| || index == merged
    ensures Published(stored, index, merged) == (merged, merged) || Published(stored, index, merged) == (stored, index)
    ensures |merged| == |index| ==> Published(stored, index, merged) == (stored, index)
  {
  }

  /** Two feeds of equal size: the second is never published over the first. */
  lemma EqualSizeSkipped(a: Text, b: Text, category: Text)
    requires a != b
    ensures var before: CategoryMap, after: CategoryMap := map[a := {category}], map[b := {category}];
            Published(before, before, after).1 != after
  {
    var before: CategoryMap, after: CategoryMap := map[a := {category}], map[b := {category}];
    assert a in before && a !in after;
    assert before.Keys == {a} && after.Keys == {b};
    assert |before| == |before.Keys| == 1 && |after| == |after.Keys| == 1;
  }

  method Load(cp: InMemControlPlane, index: CategoryIndex) returns (n: nat)
    modifies index
    ensures index.categories == cp.categories && n == |cp.categories|
  {
    var m := cp.CategoryList();
    n := |m|;
    index.Replace(m);
  }

  /** `feeds` are the task results in the order they completed, `now` the clock. */
  method Ingest(cp: InMemControlPlane, index: CategoryIndex, feeds: seq<FeedResult>, now: int) returns (n: nat)
    modifies cp, index
    ensures (cp.categories, index.categories)
         == Published(old(cp.categories), old(index.categories), Merged(feeds))
    ensures n == |Merged(feeds)|
    ensures cp.lastIngestion == if n == |old(index.categories)| then old(cp.lastIngestion) else Some(now)
    ensures cp.State() == old(cp.State()).(categories := cp.categories, lastIngestion := cp.lastIngestion)
    ensures old(cp.categories == index.categories) ==> cp.categories == index.categories
  {
    hide Merged;
    var merged := Merge(feeds);
    n := |merged|;
    var size := index.Len();
    if n == size {
      return;
    }
    cp.ReplaceCategories(merged, now);
    index.Replace(merged);
  }
}
