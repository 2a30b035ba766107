/** Exactly which limits make a crawl that hits no cap sure to fetch every page within its depth limit. */
module CrawlCoverage {
  import opened Wrappers
  import opened CrawlState
  import opened CrawlPaths
  import opened CrawlRuns
  import opened CrawlWaves

  predicate IsFetched(c: Crawl, k: Key) {
    k in c.via && Fetched(c.via[k]) in c.events
  }

  predicate Followable(site: Site, seed: Url, u: Url) {
    site.key(u) == site.key(seed) || !site.isStatic(u)
  }

  /** Every page at most as many links away as the depth limit was fetched. */
  ghost predicate AllFetched(site: Site, lim: Limits, seed: Url, c: Crawl) {
    forall u, n: nat :: n <= lim.maxDepth && Reached(site, seed, site.key(u), n) && Followable(site, seed, u) ==>
      IsFetched(c, site.key(u))
  }

  ghost predicate RunsUncapped(site: Site, lim: Limits, seed: Url, order: seq<nat>, end: Crawl) {
    RunsTo(site, lim, seed, order, end) && end.pages < lim.maxPages && Uncapped(end)
  }

  /** Every finished crawl of every site that hits neither the page budget nor the cap on known pages, in whatever
      order its fetches complete, has fetched all there is to fetch. */
  ghost predicate CoverageIsSure(lim: Limits) {
    forall site, seed, order, end ::
      KeyDecides(site) && NeverPanics(site) && RunsUncapped(site, lim, seed, order, end) ==>
        AllFetched(site, lim, seed, end)
  }

  /** One page at a time, fewer than two levels, or fewer pages than it takes to push a page beyond the depth limit: a
      depth with more pages than a wave holds, and one page at each other depth, with one to spare. */
  predicate Covering(lim: Limits) {
    lim.tasks == 1 || lim.maxDepth < 2 || lim.maxPages < lim.maxDepth + lim.tasks + 2
  }

  // ---------------------------------------------------------------------------------------------
  // Fetched pages are counted by their keys.
  // ---------------------------------------------------------------------------------------------

  function FetchedKeys(site: Site, events: seq<Event>): set<Key> {
    set ev | ev in events && ev.Fetched? :: site.key(ev.entry.url)
  }

  /** No two fetched events have one key. */
  ghost predicate OnceEach(site: Site, events: seq<Event>) {
    forall i, j :: 0 <= i < j < |events| && events[i].Fetched? && events[j].Fetched? ==>
      site.key(events[i].entry.url) != site.key(events[j].entry.url)
  }

  lemma {:induction false} CountIsKeys(site: Site, events: seq<Event>)
    requires OnceEach(site, events)
    ensures FetchedCount(events) == |FetchedKeys(site, events)|
  {
    if events == [] {
      assert FetchedKeys(site, events) == {};
    } else {
      var rest, last := events[..|events| - 1], events[|events| - 1];
      CountIsKeys(site, rest);
      assert events == rest + [last];
      if last.Fetched? {
        assert FetchedKeys(site, events) == FetchedKeys(site, rest) + {site.key(last.entry.url)};
        assert site.key(last.entry.url) !in FetchedKeys(site, rest);
      } else {
        assert FetchedKeys(site, events) == FetchedKeys(site, rest);
      }
    }
  }

  lemma {:induction false} TwiceCounts(events: seq<Event>, i: nat, j: nat)
    requires i < j < |events| && events[i].entry == events[j].entry
    ensures EventCount(events, events[i].entry) >= 2
  {
    var last := |events| - 1;
    if j < last {
      TwiceCounts(events[..last], i, j);
    } else {
      assert events[i] in events[..last];
      EventCounted(events[..last], events[i]);
    }
  }

  lemma PagesAreKeys(site: Site, lim: Limits, seed: Url, c: Crawl)
    requires Inv(site, lim, seed, c)
    ensures c.pages == |FetchedKeys(site, c.events)|
  {
    forall i, j | 0 <= i < j < |c.events| && c.events[i].Fetched? && c.events[j].Fetched?
      ensures site.key(c.events[i].entry.url) != site.key(c.events[j].entry.url)
    {
      EventCounted(c.events, c.events[i]);
      EventCounted(c.events, c.events[j]);
      assert Places(c, c.events[i].entry) == 1 && Places(c, c.events[j].entry) == 1;
      if c.events[i].entry == c.events[j].entry {
        TwiceCounts(c.events, i, j);
      }
    }
    CountIsKeys(site, c.events);
  }

  lemma CardOfSubset<T>(a: set<T>, b: set<T>)
    requires a <= b
    ensures |a| <= |b|
  {
    assert b == a + (b - a);
  }

  // ---------------------------------------------------------------------------------------------
  // What every crawl keeps: the links of fetched pages are known.
  // ---------------------------------------------------------------------------------------------

  ghost predicate Followed(site: Site, c: Crawl, e: Entry) {
    forall k :: LinksTo(site, e.url, k) ==> k in c.via
  }

  ghost predicate LinksAreKnown(site: Site, c: Crawl, cur: Option<Entry>) {
    Uncapped(c) ==> forall e :: Fetched(e) in c.events && cur != Some(e) ==> Followed(site, c, e)
  }

  ghost predicate Settled(site: Site, lim: Limits, seed: Url, c: Crawl, cur: Option<Entry>) {
    Inv(site, lim, seed, c) && CandidatesAreBeyond(site, lim, c) && c.lost == [] && LinksAreKnown(site, c, cur)
  }

  lemma FinishSettles(site: Site, lim: Limits, seed: Url, c: Crawl, i: nat)
    requires Settled(site, lim, seed, c, None) && i < |c.pending| && !site.panics(c.pending[i].url)
    ensures Settled(site, lim, seed, Finish(site, c, i), Some(c.pending[i]))
  {
    hide Inv, Followed;
    FinishInv(site, lim, seed, c, i);
    var c' := Finish(site, c, i);
    assert c'.events == c.events + [Fetched(c.pending[i])];
    assert forall e :: Followed(site, c, e) ==> Followed(site, c', e) by {
      assert c'.via == c.via;
      SameFollowed(site, c, c');
    }
  }

  lemma SameFollowed(site: Site, c: Crawl, c': Crawl)
    requires Remembers(c, c')
    ensures forall e :: Followed(site, c, e) ==> Followed(site, c', e)
  {
  }

  lemma LinkSettles(site: Site, lim: Limits, seed: Url, c: Crawl, page: Entry, raw: Option<Url>)
    requires Settled(site, lim, seed, c, Some(page)) && Claims(site, c, page) && Fetched(page) in c.events
    requires raw in site.links(page.url)
    ensures var c' := AddLink(site, lim, c, page, raw);
      && Settled(site, lim, seed, c', Some(page)) && Claims(site, c', page) && Fetched(page) in c'.events
      && (Uncapped(c') && raw.Some? ==> site.key(raw.value) in c'.via)
  {
    hide Inv, Followed, LinksAreKnown, CandidatesAreBeyond, AddLink, Claims;
    var c' := AddLink(site, lim, c, page, raw);
    AddLinkInv(site, lim, seed, c, page, raw);
    KeysAreKnown(site, lim, seed, c);
    LinkEffect(site, lim, c, page, raw);
    LinkGrows(site, lim, c, page, raw);
    FewerBefore(c, c', page.depth + 1);
    SameLinksKnown(site, c, c', page);
  }

  lemma LinkEffect(site: Site, lim: Limits, c: Crawl, page: Entry, raw: Option<Url>)
    requires c.via.Keys == c.visited
    ensures var c' := AddLink(site, lim, c, page, raw);
      && c'.lost == c.lost && (forall e :: Fetched(e) in c'.events ==> Fetched(e) in c.events)
      && (Uncapped(c') && raw.Some? ==> site.key(raw.value) in c'.via)
  {
    hide IsPage;
    if !Ignored(site, c, raw) {
      AddPageClaims(site, lim, c, ChildOf(page, raw.value));
    }
  }

  lemma SameLinksKnown(site: Site, c: Crawl, c': Crawl, page: Entry)
    requires LinksAreKnown(site, c, Some(page)) && Grows(c, c', page.depth + 1) && |c.visited| <= |c'.visited|
    requires forall e :: Fetched(e) in c'.events ==> Fetched(e) in c.events
    ensures LinksAreKnown(site, c', Some(page))
  {
    hide Followed;
    SameFollowed(site, c, c');
  }

  lemma GrownRemembers(c: Crawl, c': Crawl, l: nat)
    requires Grows(c, c', l)
    ensures Remembers(c, c') && c'.pending == c.pending && c'.pages == c.pages
  {
  }

  ghost predicate RawsKnown(site: Site, c: Crawl, raws: seq<Option<Url>>) {
    forall raw :: raw in raws && raw.Some? ==> site.key(raw.value) in c.via
  }

  lemma {:induction false} FollowSettles(
      site: Site, lim: Limits, seed: Url, c: Crawl, page: Entry, raws: seq<Option<Url>>)
    requires Settled(site, lim, seed, c, Some(page)) && Claims(site, c, page) && Fetched(page) in c.events
    requires forall raw :: raw in raws ==> raw in site.links(page.url)
    ensures var c' := FollowAll(site, lim, c, page, raws);
      Settled(site, lim, seed, c', Some(page)) && (Uncapped(c') ==> Uncapped(c) && RawsKnown(site, c', raws))
    decreases |raws|
  {
    hide Inv, Settled, Claims, AddLink, Grows;
    if raws != [] {
      var d, c' := AddLink(site, lim, c, page, raws[0]), FollowAll(site, lim, c, page, raws);
      LinkSettles(site, lim, seed, c, page, raws[0]);
      FollowSettles(site, lim, seed, d, page, raws[1..]);
      SettledKeys(site, lim, seed, c, Some(page));
      LinkGrows(site, lim, c, page, raws[0]);
      SettledKeys(site, lim, seed, d, Some(page));
      FollowGrows(site, lim, d, page, raws[1..]);
      GrownRemembers(d, c', page.depth + 1);
      FewerBefore(c, d, page.depth + 1);
      assert raws == [raws[0]] + raws[1..];
    }
  }

  lemma SettledKeys(site: Site, lim: Limits, seed: Url, c: Crawl, cur: Option<Entry>)
    requires Settled(site, lim, seed, c, cur)
    ensures c.via.Keys == c.visited && Inv(site, lim, seed, c)
  {
  }

  lemma FewerBefore(c: Crawl, d: Crawl, l: nat)
    requires Grows(c, d, l) && c.via.Keys == c.visited
    ensures |c.visited| <= |d.visited|
  {
    assert c.visited <= d.visited by {
      assert forall k :: k in c.visited ==> k in c.via && k in d.via;
    }
    CardOfSubset(c.visited, d.visited);
  }

  lemma LastLinkSettles(site: Site, lim: Limits, seed: Url, c: Crawl, page: Entry)
    requires Settled(site, lim, seed, c, Some(page)) && (Uncapped(c) ==> RawsKnown(site, c, site.links(page.url)))
    ensures Settled(site, lim, seed, c, None)
  {
    hide Inv, CandidatesAreBeyond;
    if Uncapped(c) {
      forall k | LinksTo(site, page.url, k)
        ensures k in c.via
      {
        var v :| HasLink(site, page.url, v) && site.key(v) == k;
        assert Some(v) in site.links(page.url);
      }
      assert Followed(site, c, page);
    }
  }

  lemma FetchSettles(site: Site, lim: Limits, seed: Url, c: Crawl, i: nat)
    requires NeverPanics(site) && Settled(site, lim, seed, c, None) && i < |c.pending|
    ensures Settled(site, lim, seed, Fetch(site, lim, c, i), None)
  {
    hide Settled, Inv, Finish, FollowAll, Claims, RawsKnown;
    var e, f := c.pending[i], Finish(site, c, i);
    SettledKeys(site, lim, seed, c, None);
    FinishSettles(site, lim, seed, c, i);
    PageClaims(site, lim, seed, c, i);
    FollowSettles(site, lim, seed, f, e, site.links(e.url));
    LastLinkSettles(site, lim, seed, Fetch(site, lim, c, i), e);
  }

  lemma WaveSettles(site: Site, lim: Limits, seed: Url, c: Crawl)
    requires Settled(site, lim, seed, c, None)
    ensures Settled(site, lim, seed, TakeWave(lim, c), None) && TakeWave(lim, c).via == c.via
  {
    hide Inv, TakeWave, Followed;
    var n := WaveIs(lim, c);
    TakeWaveInv(site, lim, seed, c);
    SameFollowed(site, c, TakeWave(lim, c));
  }

  // ---------------------------------------------------------------------------------------------
  // Every crawl is layer by layer, or knows more pages at some depth than a wave holds, or has spent its budget.
  // ---------------------------------------------------------------------------------------------

  /** The pages known at depth `d`. */
  function PagesAt(site: Site, c: Crawl, d: nat): set<Key> {
    set k | k in c.via && c.via[k].depth == d && IsPage(site, c.via[k])
  }

  ghost predicate Crowded(site: Site, lim: Limits, c: Crawl) {
    exists d: nat :: d <= lim.maxDepth && |PagesAt(site, c, d)| > lim.tasks
  }

  predicate Spent(lim: Limits, c: Crawl) {
    c.pages + |c.pending| >= lim.maxPages
  }

  /** Everything in flight is just above depth `l`, and everything waiting is at depth `l`. */
  ghost predicate Aligned(site: Site, lim: Limits, seed: Url, c: Crawl, l: nat) {
    BreadthFirst(site, lim, seed, c, l, None) && forall i :: 0 <= i < |c.frontier| ==> c.frontier[i].depth == l
  }

  ghost predicate Ranked(site: Site, lim: Limits, seed: Url, c: Crawl) {
    Spent(lim, c) || Crowded(site, lim, c) || exists l: nat :: Aligned(site, lim, seed, c, l)
  }

  lemma StaysCrowded(site: Site, lim: Limits, c: Crawl, c': Crawl)
    requires Crowded(site, lim, c) && Remembers(c, c')
    ensures Crowded(site, lim, c')
  {
    var d: nat :| d <= lim.maxDepth && |PagesAt(site, c, d)| > lim.tasks;
    CardOfSubset(PagesAt(site, c, d), PagesAt(site, c', d));
  }

  /** The first `n` waiting pages have as many keys. */
  lemma {:induction false} WaitingKeys(site: Site, lim: Limits, seed: Url, c: Crawl, n: nat) returns (ks: set<Key>)
    requires Inv(site, lim, seed, c) && n <= |c.frontier|
    ensures |ks| == n
    ensures forall k :: k in ks ==> exists i :: 0 <= i < n && site.key(c.frontier[i].url) == k
    ensures forall i :: 0 <= i < n ==> c.frontier[i] in c.frontier && Claims(site, c, c.frontier[i])
  {
    hide ClaimsInv, FlowInv;
    if n == 0 {
      ks := {};
    } else {
      var rest := WaitingKeys(site, lim, seed, c, n - 1);
      var e := c.frontier[n - 1];
      assert e in c.frontier && Places(c, e) == 1;
      assert Claims(site, c, e);
      forall i | 0 <= i < n - 1
        ensures site.key(c.frontier[i].url) != site.key(e.url)
      {
        if c.frontier[i] == e {
          TwiceThere(c.frontier, i, n - 1);
        }
      }
      ks := rest + {site.key(e.url)};
      assert site.key(c.frontier[n - 1].url) == site.key(e.url);
    }
  }

  lemma TwiceThere(es: seq<Entry>, i: nat, j: nat)
    requires i < j < |es| && es[i] == es[j]
    ensures Count(es, es[i]) >= 2
  {
    assert es == es[..j] + es[j..] && es[i] in es[..j] && es[j..] == [es[j]] + es[j + 1..];
    assert multiset(es[..j])[es[i]] >= 1;
  }

  /** More pages waiting at one depth than a wave holds. */
  lemma LeftoverCrowds(site: Site, lim: Limits, seed: Url, c: Crawl, l: nat)
    requires Inv(site, lim, seed, c) && |c.frontier| > lim.tasks
    requires forall i :: 0 <= i < |c.frontier| ==> c.frontier[i].depth == l
    ensures Crowded(site, lim, c)
  {
    hide ClaimsInv, PlacesInv;
    var ks := WaitingKeys(site, lim, seed, c, lim.tasks + 1);
    assert c.frontier[0] in c.frontier && l <= lim.maxDepth;
    forall k | k in ks
      ensures k in PagesAt(site, c, l)
    {
      var i :| 0 <= i < lim.tasks + 1 && site.key(c.frontier[i].url) == k;
      assert c.frontier[i] in c.frontier && Claims(site, c, c.frontier[i]);
    }
    CardOfSubset(ks, PagesAt(site, c, l));
  }

  lemma WaveKeepsRank(site: Site, lim: Limits, seed: Url, c: Crawl)
    requires Inv(site, lim, seed, c) && Ranked(site, lim, seed, c) && c.pending == []
    ensures Ranked(site, lim, seed, TakeWave(lim, c))
  {
    hide Inv, BreadthFirst, TakeWave, Crowded;
    var n := WaveIs(lim, c);
    var c' := TakeWave(lim, c);
    assert c.pending + c.frontier[..n] == c.frontier[..n];
    if Crowded(site, lim, c) {
      StaysCrowded(site, lim, c, c');
    } else if !Spent(lim, c') {
      var l: nat :| Aligned(site, lim, seed, c, l);
      if n < |c.frontier| {
        LeftoverCrowds(site, lim, seed, c, l);
        StaysCrowded(site, lim, c, c');
      } else if n > 0 {
        WaveKeepsOrder(site, lim, seed, c, l, n);
        assert Aligned(site, lim, seed, c', l + 1);
      } else {
        assert c' == c;
      }
    }
  }

  lemma FetchGrows(site: Site, lim: Limits, seed: Url, c: Crawl, i: nat)
    requires NeverPanics(site) && Inv(site, lim, seed, c) && i < |c.pending|
    ensures var f, c' := Finish(site, c, i), Fetch(site, lim, c, i);
      && Grows(f, c', c.pending[i].depth + 1) && Remembers(c, c') && f.frontier == c.frontier
      && c'.pages + |c'.pending| == c.pages + |c.pending|
  {
    hide Inv, FollowAll;
    var e := c.pending[i];
    KeysAreKnown(site, lim, seed, c);
    FollowGrows(site, lim, Finish(site, c, i), e, site.links(e.url));
  }

  lemma FetchStaysAligned(site: Site, lim: Limits, seed: Url, c: Crawl, l: nat, i: nat)
    requires KeyDecides(site) && NeverPanics(site) && Inv(site, lim, seed, c)
    requires Aligned(site, lim, seed, c, l) && i < |c.pending|
    ensures Aligned(site, lim, seed, Fetch(site, lim, c, i), l)
  {
    hide Inv, BreadthFirst, Claims, KeyDecides, FollowAll, Remembers;
    var e, f := c.pending[i], Finish(site, c, i);
    FinishInv(site, lim, seed, c, i);
    PageClaims(site, lim, seed, c, i);
    FetchKeepsOrder(site, lim, seed, c, l, i);
    LevelOf(site, lim, seed, f, l, e);
    LinksStayInLayers(site, lim, seed, f, l, e, site.links(e.url));
    FetchGrows(site, lim, seed, c, i);
    PageIsExpanded(site, lim, seed, Fetch(site, lim, c, i), l, e);
  }

  lemma FetchKeepsRank(site: Site, lim: Limits, seed: Url, c: Crawl, i: nat)
    requires KeyDecides(site) && NeverPanics(site) && Inv(site, lim, seed, c) && Ranked(site, lim, seed, c)
    requires i < |c.pending|
    ensures Ranked(site, lim, seed, Fetch(site, lim, c, i))
  {
    hide Inv, Aligned, Crowded, Fetch, KeyDecides, NeverPanics, Grows, Remembers;
    FetchGrows(site, lim, seed, c, i);
    if Crowded(site, lim, c) {
      StaysCrowded(site, lim, c, Fetch(site, lim, c, i));
    } else if !Spent(lim, c) {
      var l: nat :| Aligned(site, lim, seed, c, l);
      FetchStaysAligned(site, lim, seed, c, l, i);
    }
  }

  lemma {:induction false} OrderedKeepsRank(site: Site, lim: Limits, seed: Url, c: Crawl, order: seq<nat>)
    requires KeyDecides(site) && NeverPanics(site) && Settled(site, lim, seed, c, None) && Ranked(site, lim, seed, c)
    requires Ordered(site, lim, c, order).Some?
    ensures var d := Ordered(site, lim, c, order).value; Settled(site, lim, seed, d, None) && Ranked(site, lim, seed, d)
    decreases |order|
  {
    hide Settled, Ranked, KeyDecides, NeverPanics, Fetch, TakeWave, Inv;
    if order != [] {
      var ready := Ready(lim, c);
      SettledKeys(site, lim, seed, c, None);
      if c.pending == [] {
        WaveKeepsRank(site, lim, seed, c);
        WaveSettles(site, lim, seed, c);
      }
      SettledKeys(site, lim, seed, ready, None);
      FetchKeepsRank(site, lim, seed, ready, order[0]);
      FetchSettles(site, lim, seed, ready, order[0]);
      OrderedKeepsRank(site, lim, seed, Fetch(site, lim, ready, order[0]), order[1..]);
    }
  }

  lemma StartIsRanked(site: Site, lim: Limits, seed: Url)
    ensures Settled(site, lim, seed, Start(site, seed), None) && Ranked(site, lim, seed, Start(site, seed))
  {
    hide Inv, BreadthFirst;
    StartInv(site, lim, seed);
    StartIsBreadthFirst(site, lim, seed);
    assert Aligned(site, lim, seed, Start(site, seed), 0);
  }

  // ---------------------------------------------------------------------------------------------
  // A page that is missed was recorded beyond the depth limit, and getting there takes pages.
  // ---------------------------------------------------------------------------------------------

  /** The crawl is over and hit no cap. */
  predicate Over(c: Crawl) {
    c.frontier == [] && c.pending == [] && Uncapped(c)
  }

  lemma ShallowPages(site: Site, lim: Limits, seed: Url, c: Crawl, d: nat)
    requires Settled(site, lim, seed, c, None) && Over(c) && d <= lim.maxDepth
    ensures forall k :: k in PagesAt(site, c, d) ==> IsFetched(c, k)
  {
    forall k | k in PagesAt(site, c, d)
      ensures IsFetched(c, k)
    {
      ShallowIsFetched(site, lim, seed, c, lim.maxDepth + 1, k);
    }
  }

  lemma KnownBehind(site: Site, lim: Limits, seed: Url, c: Crawl, u: Url, k: Key)
    requires KeyDecides(site) && Settled(site, lim, seed, c, None) && Over(c)
    requires IsFetched(c, site.key(u)) && LinksTo(site, u, k)
    ensures k in c.via
  {
    hide PlacesInv, FlowInv, CandidatesAreBeyond;
    ClaimIsReal(site, lim, seed, c, site.key(u));
    assert SameLinks(site, u, c.via[site.key(u)].url);
    assert Followed(site, c, c.via[site.key(u)]);
  }

  /** Unless all pages within `n` links were fetched, some page was recorded beyond the depth limit. */
  lemma {:induction false} MissedIsDeep(site: Site, lim: Limits, seed: Url, c: Crawl, u: Url, n: nat)
    returns (deep: Key)
    requires KeyDecides(site) && Settled(site, lim, seed, c, None) && Over(c)
    requires n <= lim.maxDepth && Reached(site, seed, site.key(u), n) && Followable(site, seed, u)
    requires !IsFetched(c, site.key(u))
    ensures deep in c.via && c.via[deep].depth > lim.maxDepth
    decreases n
  {
    hide Inv, PlacesInv, FlowInv, CandidatesAreBeyond;
    var k := site.key(u);
    SeedIsKnown(site, lim, seed, c);
    if k in c.via {
      deep := k;
      ClaimIsReal(site, lim, seed, c, k);
      if c.via[k].depth <= lim.maxDepth {
        assert site.isStatic(c.via[k].url) == site.isStatic(u);
        assert IsPage(site, c.via[k]);
        ShallowIsFetched(site, lim, seed, c, lim.maxDepth + 1, k);
      }
    } else {
      var p :| ReachedVia(site, seed, p, k, n);
      if IsFetched(c, site.key(p)) {
        KnownBehind(site, lim, seed, c, p, k);
      } else {
        deep := MissedIsDeep(site, lim, seed, c, p, n - 1);
      }
    }
  }

  /** The recorded parents of a page give a fetched page at every smaller depth. */
  lemma {:induction false} AncestorAt(site: Site, lim: Limits, seed: Url, c: Crawl, k: Key, d: nat) returns (a: Key)
    requires Inv(site, lim, seed, c) && k in c.via && d < c.via[k].depth
    ensures IsFetched(c, a) && c.via[a].depth == d
    decreases c.via[k].depth
  {
    assert Discovered(site, seed, c, c.via[k]);
    var p := site.key(c.via[k].parent.value);
    if c.via[p].depth == d {
      a := p;
    } else {
      a := AncestorAt(site, lim, seed, c, p, d);
    }
  }

  /** Fetched pages of depth at most `j`: one of each depth, and all of depth `d`. */
  lemma {:induction false} PagesPerDepth(
      site: Site, lim: Limits, seed: Url, c: Crawl, deep: Key, d: nat, j: nat) returns (ks: set<Key>)
    requires Settled(site, lim, seed, c, None) && Over(c) && j <= lim.maxDepth
    requires deep in c.via && c.via[deep].depth > lim.maxDepth && |PagesAt(site, c, d)| > lim.tasks
    ensures forall k :: k in ks ==> IsFetched(c, k) && c.via[k].depth <= j
    ensures |ks| >= j + 1 + if d <= j then lim.tasks else 0
    decreases j
  {
    hide Inv, CandidatesAreBeyond, LinksAreKnown;
    var rest := {};
    if j > 0 {
      rest := PagesPerDepth(site, lim, seed, c, deep, d, j - 1);
    }
    var level: set<Key>;
    if j == d {
      ShallowPages(site, lim, seed, c, d);
      level := PagesAt(site, c, d);
    } else {
      var a := AncestorAt(site, lim, seed, c, deep, j);
      level := {a};
    }
    ks := rest + level;
    assert rest !! level;
    assert |ks| == |rest| + |level|;
  }

  /** With so few pages a crowded crawl that hits no cap has missed nothing. */
  lemma CrowdedIsEnough(site: Site, lim: Limits, seed: Url, c: Crawl, deep: Key)
    requires Settled(site, lim, seed, c, None) && Over(c) && Crowded(site, lim, c)
    requires deep in c.via && c.via[deep].depth > lim.maxDepth
    ensures c.pages >= lim.maxDepth + lim.tasks + 1
  {
    hide Inv, CandidatesAreBeyond, LinksAreKnown;
    var d: nat :| d <= lim.maxDepth && |PagesAt(site, c, d)| > lim.tasks;
    var ks := PagesPerDepth(site, lim, seed, c, deep, d, lim.maxDepth);
    forall k | k in ks
      ensures k in FetchedKeys(site, c.events)
    {
      ClaimIsReal(site, lim, seed, c, k);
      assert Fetched(c.via[k]) in c.events;
    }
    CardOfSubset(ks, FetchedKeys(site, c.events));
    PagesAreKeys(site, lim, seed, c);
  }

  /** With fewer pages than the condition asks for, a crawl that hits no cap has missed nothing. */
  lemma FewPagesCover(site: Site, lim: Limits, seed: Url, order: seq<nat>, end: Crawl)
    requires lim.tasks > 0 && lim.maxPages < lim.maxDepth + lim.tasks + 2
    requires KeyDecides(site) && NeverPanics(site) && RunsUncapped(site, lim, seed, order, end)
    ensures AllFetched(site, lim, seed, end)
  {
    hide Ordered, Settled, Inv, KeyDecides, NeverPanics, Crowded, BreadthFirst;
    UncappedIsLast(site, lim, seed, order, end);
    StartIsRanked(site, lim, seed);
    OrderedKeepsRank(site, lim, seed, Start(site, seed), order);
    forall u, n: nat | n <= lim.maxDepth && Reached(site, seed, site.key(u), n) && Followable(site, seed, u)
      ensures IsFetched(end, site.key(u))
    {
      if !IsFetched(end, site.key(u)) {
        var deep := MissedIsDeep(site, lim, seed, end, u, n);
        if Crowded(site, lim, end) {
          CrowdedIsEnough(site, lim, seed, end, deep);
        } else {
          var l: nat :| Aligned(site, lim, seed, end, l);
          SettledKeys(site, lim, seed, end, None);
          AlignedMissesNothing(site, lim, seed, end, l, u, n);
        }
      }
    }
  }

  lemma UncappedIsLast(site: Site, lim: Limits, seed: Url, order: seq<nat>, end: Crawl)
    requires RunsUncapped(site, lim, seed, order, end)
    ensures Ordered(site, lim, Start(site, seed), order) == Some(end) && Over(end)
  {
    hide Ordered, DrainAll;
    var last := Ordered(site, lim, Start(site, seed), order).value;
    DrainKeepsPages(last);
    DrainStep(last);
  }

  lemma CoveredIsFetched(site: Site, lim: Limits, seed: Url, c: Crawl, u: Url, n: nat)
    requires KeyDecides(site) && Inv(site, lim, seed, c) && Covered(site, lim, seed, c)
    requires n <= lim.maxDepth && Reached(site, seed, site.key(u), n) && Followable(site, seed, u)
    ensures IsFetched(c, site.key(u))
  {
    hide PlacesInv, FlowInv, Reached;
    ClaimIsReal(site, lim, seed, c, site.key(u));
    SeedIsKnown(site, lim, seed, c);
    assert site.isStatic(c.via[site.key(u)].url) == site.isStatic(u);
  }

  lemma AlignedMissesNothing(site: Site, lim: Limits, seed: Url, c: Crawl, l: nat, u: Url, n: nat)
    requires KeyDecides(site) && Inv(site, lim, seed, c) && Aligned(site, lim, seed, c, l) && Over(c)
    requires n <= lim.maxDepth && Reached(site, seed, site.key(u), n) && Followable(site, seed, u)
    ensures IsFetched(c, site.key(u))
  {
    hide Inv, BreadthFirst, Covered, KeyDecides, Reached;
    EmptyFrontierCovers(site, lim, seed, c, l);
    CoveredIsFetched(site, lim, seed, c, u, n);
  }

  lemma NarrowCovers(site: Site, lim: Limits, seed: Url, order: seq<nat>, end: Crawl)
    requires Narrow(lim) && KeyDecides(site) && NeverPanics(site) && RunsUncapped(site, lim, seed, order, end)
    ensures AllFetched(site, lim, seed, end)
  {
    hide RunsTo, Inv, Covered, KeyDecides, NeverPanics, Reached;
    EveryOrderFinishes(site, lim, seed, order, end);
    NothingIsMissed(site, lim, seed, order, end);
    forall u, n: nat | n <= lim.maxDepth && Reached(site, seed, site.key(u), n) && Followable(site, seed, u)
      ensures IsFetched(end, site.key(u))
    {
      CoveredIsFetched(site, lim, seed, end, u, n);
    }
  }

  // ---------------------------------------------------------------------------------------------
  // With more pages, the site for waves of `t` pages has a crawl that misses one: page t + 3 is recorded one level too
  // deep, and with it all pages of the chain behind it.
  // ---------------------------------------------------------------------------------------------

  /** Page t + 3 and the pages of the chain behind it are at depth 3 and deeper. */
  lemma {:induction false} ChainIsDeep(t: nat, lim: Limits, c: Crawl, j: nat)
    requires t > 0 && Inv(Fan(t), lim, Url(0), c)
    requires Key(t + 3) in c.via && c.via[Key(t + 3)].depth == 3 && Key(t + 3 + j) in c.via
    ensures c.via[Key(t + 3 + j)].depth == 3 + j
    decreases j
  {
    hide Inv, Fan;
    if j > 0 {
      var p := ParentInChain(t, lim, c, j);
      ChainIsDeep(t, lim, c, j - 1);
    }
  }

  lemma ParentInChain(t: nat, lim: Limits, c: Crawl, j: nat) returns (p: Key)
    requires t > 0 && Inv(Fan(t), lim, Url(0), c) && j > 0 && Key(t + 3 + j) in c.via
    ensures p == Key(t + 2 + j) && IsFetched(c, p) && c.via[Key(t + 3 + j)].depth == c.via[p].depth + 1
  {
    hide PlacesInv, FlowInv;
    var e := c.via[Key(t + 3 + j)];
    ClaimIsReal(Fan(t), lim, Url(0), c, Key(t + 3 + j));
    assert e.url == Url(t + 3 + j);
    var u := e.parent.value;
    assert HasLink(Fan(t), u, e.url);
    OnlyFrom(t, u, j);
    p := Key(u.id);
  }

  lemma OnlyFrom(t: nat, u: Url, j: nat)
    requires j > 0 && HasLink(Fan(t), u, Url(t + 3 + j))
    ensures u.id == t + 2 + j
  {
    assert Some(Url(t + 3 + j)) in FanLinks(t, u);
    if u.id == 0 {
      var i :| 0 <= i < t + 1 && FanLinks(t, u)[i] == Some(Url(t + 3 + j));
    }
  }

  lemma {:induction false} ChainIsNear(t: nat, j: nat)
    requires t > 0
    ensures Reached(Fan(t), Url(0), Key(t + 3 + j), 2 + j)
  {
    if j == 0 {
      TwoLinksLeadThere(t);
    } else {
      ChainIsNear(t, j - 1);
      var u := Url(t + 2 + j);
      assert FanLinks(t, u) == [LinkTo(t + 3 + j)];
      assert FanLinks(t, u)[0] == Some(Url(t + 3 + j));
      assert HasLink(Fan(t), u, Url(t + 3 + j));
      assert LinksTo(Fan(t), u, Key(t + 3 + j));
      assert ReachedVia(Fan(t), Url(0), u, Key(t + 3 + j), 2 + j);
    }
  }

  function FirstKeys(n: nat): (ks: set<Key>)
    ensures |ks| == n
    ensures forall k :: k in ks <==> k.id < n
  {
    if n == 0 then {} else FirstKeys(n - 1) + {Key(n - 1)}
  }

  /** So such a crawl fetches at most `t + maxDepth + 1` pages, and knows one more. */
  lemma ChainIsCut(t: nat, lim: Limits, c: Crawl)
    requires t > 0 && lim.maxDepth >= 2 && Inv(Fan(t), lim, Url(0), c)
    requires Key(t + 3) in c.via && c.via[Key(t + 3)].depth == 3
    ensures !IsFetched(c, Key(t + lim.maxDepth + 1))
    ensures c.pages <= t + lim.maxDepth + 1 && |c.visited| <= t + lim.maxDepth + 2
  {
    hide ClaimsInv, PlacesInv, Fan;
    var m := lim.maxDepth;
    forall k | IsFetched(c, k)
      ensures k.id <= t + m
    {
      FetchedInChain(t, lim, c, k);
    }
    forall k | k in c.via
      ensures k.id <= t + m + 1
    {
      if k.id > t + 3 {
        var p := ParentInChain(t, lim, c, k.id - t - 3);
      }
    }
    PagesAreKeys(Fan(t), lim, Url(0), c);
    forall k | k in FetchedKeys(Fan(t), c.events)
      ensures IsFetched(c, k)
    {
      FetchedIsClaimed(Fan(t), lim, Url(0), c, k);
    }
    CardOfSubset(FetchedKeys(Fan(t), c.events), FirstKeys(t + m + 1));
    KeysAreKnown(Fan(t), lim, Url(0), c);
    CardOfSubset(c.visited, FirstKeys(t + m + 2));
  }

  lemma FetchedInChain(t: nat, lim: Limits, c: Crawl, k: Key)
    requires t > 0 && lim.maxDepth >= 2 && Inv(Fan(t), lim, Url(0), c) && IsFetched(c, k)
    requires Key(t + 3) in c.via && c.via[Key(t + 3)].depth == 3
    ensures k.id <= t + lim.maxDepth
  {
    hide ClaimsInv, PlacesInv, Fan;
    if k.id >= t + 3 {
      ChainIsDeep(t, lim, c, k.id - t - 3);
      assert Fetched(c.via[k]) in c.events;
    }
  }

  lemma FetchedIsClaimed(site: Site, lim: Limits, seed: Url, c: Crawl, k: Key)
    requires Inv(site, lim, seed, c) && k in FetchedKeys(site, c.events)
    ensures IsFetched(c, k)
  {
    hide ClaimsInv, FlowInv;
    var ev :| ev in c.events && ev.Fetched? && site.key(ev.entry.url) == k;
    EventCounted(c.events, ev);
    assert Places(c, ev.entry) > 0;
    assert ev == Fetched(ev.entry);
  }

  /** Under all other limits a finished crawl that hit no cap can have missed a page within the depth limit. */
  lemma ChainCanBeMissed(lim: Limits) returns (order: seq<nat>, end: Crawl)
    requires 1 <= lim.tasks <= 50 && lim.maxDepth <= 20 && !Covering(lim)
    ensures var site := Fan(lim.tasks);
      && KeyDecides(site) && NeverPanics(site) && RunsUncapped(site, lim, Url(0), order, end)
      && !AllFetched(site, lim, Url(0), end)
  {
    hide RunsTo, Reached, KeyDecides, NeverPanics, Inv;
    var t := lim.tasks;
    order, end := WavesCanOverstate(lim);
    EveryOrderFinishes(Fan(t), lim, Url(0), order, end);
    ChainIsCut(t, lim, end);
    ChainIsNear(t, lim.maxDepth - 2);
    var u := Url(t + lim.maxDepth + 1);
    assert Fan(t).key(u) == Key(u.id) && Followable(Fan(t), Url(0), u);
  }

  /** The exact condition on the limits under which a crawl that hits no cap is sure to fetch every page within its
      depth limit. */
  lemma CoverageExactly(lim: Limits)
    requires 1 <= lim.tasks <= 50 && lim.maxDepth <= 20
    ensures CoverageIsSure(lim) <==> Covering(lim)
  {
    hide RunsUncapped, AllFetched, KeyDecides, NeverPanics;
    if Covering(lim) {
      forall site, seed, order, end | KeyDecides(site) && NeverPanics(site) && RunsUncapped(site, lim, seed, order, end)
        ensures AllFetched(site, lim, seed, end)
      {
        if Narrow(lim) {
          NarrowCovers(site, lim, seed, order, end);
        } else {
          FewPagesCover(site, lim, seed, order, end);
        }
      }
    } else {
      var order, end := ChainCanBeMissed(lim);
    }
  }
}
