/** Distances from the seed, and why a crawl whose waves are of one depth each records the shortest ones. */
module CrawlPaths {
  import opened Wrappers
  import opened CrawlState

  ghost predicate LinksTo(site: Site, u: Url, k: Key) {
    exists v :: HasLink(site, u, v) && site.key(v) == k
  }

  /** Pages with the same key are the same page, as far as their links and their kind go. */
  ghost predicate KeyDecides(site: Site) {
    forall u, v :: site.key(u) == site.key(v) ==> site.isStatic(u) == site.isStatic(v) && SameLinks(site, u, v)
  }

  ghost predicate SameLinks(site: Site, u: Url, v: Url) {
    forall k :: LinksTo(site, u, k) ==> LinksTo(site, v, k)
  }

  /** `k` is reached from the seed by `n` links, all of them on pages (a static asset is not followed). */
  ghost predicate Reached(site: Site, seed: Url, k: Key, n: nat)
    decreases n, 1
  {
    if n == 0 then k == site.key(seed) else exists u :: ReachedVia(site, seed, u, k, n)
  }

  ghost predicate ReachedVia(site: Site, seed: Url, u: Url, k: Key, n: nat)
    requires n > 0
    decreases n, 0
  {
    Reached(site, seed, site.key(u), n - 1) && (site.key(u) == site.key(seed) || !site.isStatic(u))
      && LinksTo(site, u, k)
  }

  /** Every recorded depth is the length of a link path that the recorded parents spell out. */
  lemma {:induction false} DepthIsReal(site: Site, lim: Limits, seed: Url, c: Crawl, k: Key)
    requires Inv(site, lim, seed, c) && k in c.via
    ensures Reached(site, seed, k, c.via[k].depth)
    decreases c.via[k].depth
  {
    var e := c.via[k];
    assert Discovered(site, seed, c, e);
    if e.parent.Some? {
      var p := e.parent.value;
      DepthIsReal(site, lim, seed, c, site.key(p));
      var pe := c.via[site.key(p)];
      assert Fetched(pe) in c.events && IsPage(site, pe);
      assert Discovered(site, seed, c, pe);
      assert LinksTo(site, p, k);
      assert ReachedVia(site, seed, p, k, e.depth);
    }
  }

  // ---------------------------------------------------------------------------------------------
  // Waves of one depth.
  // ---------------------------------------------------------------------------------------------

  ghost predicate Expanded(site: Site, c: Crawl, e: Entry) {
    forall k :: LinksTo(site, e.url, k) ==> k in c.via && c.via[k].depth <= e.depth + 1
  }

  predicate Uncapped(c: Crawl) {
    |c.visited| < MAX_VISITED
  }

  /** All fetched pages but `cur` have had their links followed, unless the cap was reached. */
  ghost predicate FetchedExpanded(site: Site, c: Crawl, cur: Option<Entry>) {
    Uncapped(c) ==> forall e :: Fetched(e) in c.events && cur != Some(e) ==> Expanded(site, c, e)
  }

  /** The waiting pages in order of depth, none deeper than `l` or shallower than `l - 1`. */
  predicate Layered(es: seq<Entry>, l: nat) {
    && (forall i, j :: 0 <= i < j < |es| ==> es[i].depth <= es[j].depth)
    && (forall i :: 0 <= i < |es| ==> es[i].depth <= l <= es[i].depth + 1)
  }

  ghost predicate Shortest(site: Site, seed: Url, c: Crawl) {
    forall k, n: nat :: k in c.via && Reached(site, seed, k, n) ==> c.via[k].depth <= n
  }

  /** The crawl is layer by layer: the pages being fetched are all just above level `l`, and nothing below it is
      known. */
  ghost predicate BreadthFirst(site: Site, lim: Limits, seed: Url, c: Crawl, l: nat, cur: Option<Entry>) {
    && Layered(c.frontier, l) && (forall e :: e in c.pending ==> e.depth + 1 == l) && c.lost == []
    && (forall k :: k in c.via ==> c.via[k].depth <= l)
    && (cur.Some? ==> cur.value.depth + 1 == l)
    && Shortest(site, seed, c)
    && FetchedExpanded(site, c, cur)
    && CandidatesAreBeyond(site, lim, c)
  }

  /** All pages still to be fetched are at depth `m` or deeper. */
  ghost predicate NoneAbove(c: Crawl, m: nat) {
    forall e :: e in c.frontier || e in c.pending ==> m <= e.depth
  }

  /** A known page shallower than everything still to be fetched has been fetched. */
  lemma ShallowIsFetched(site: Site, lim: Limits, seed: Url, c: Crawl, m: nat, k: Key)
    requires Inv(site, lim, seed, c) && CandidatesAreBeyond(site, lim, c) && c.lost == [] && NoneAbove(c, m)
    requires k in c.via && IsPage(site, c.via[k]) && c.via[k].depth < m && c.via[k].depth <= lim.maxDepth
    ensures Fetched(c.via[k]) in c.events
  {
    var e := c.via[k];
    assert Places(c, e) == 1;
    assert e !in c.frontier && e !in c.pending;
    CountedEvent(c.events, e);
  }

  /** Every page within `m` links is known at its true distance once all shallower pages are fetched and followed. */
  lemma {:induction false} LayersAreComplete(
      site: Site, lim: Limits, seed: Url, c: Crawl, m: nat, cur: Option<Entry>, k: Key, n: nat)
    requires KeyDecides(site) && Inv(site, lim, seed, c) && CandidatesAreBeyond(site, lim, c) && c.lost == []
    requires Uncapped(c) && FetchedExpanded(site, c, cur) && (cur.Some? ==> m <= cur.value.depth)
    requires m <= lim.maxDepth + 1 && NoneAbove(c, m)
    requires n <= m && Reached(site, seed, k, n)
    ensures k in c.via && c.via[k].depth <= n
    decreases n
  {
    hide Inv, ClaimsInv, PlacesInv, FlowInv, CandidatesAreBeyond, NoneAbove;
    if n == 0 {
      SeedIsKnown(site, lim, seed, c);
    } else {
      var u :| ReachedVia(site, seed, u, k, n);
      var k' := site.key(u);
      LayersAreComplete(site, lim, seed, c, m, cur, k', n - 1);
      var e := c.via[k'];
      SeedIsKnown(site, lim, seed, c);
      ClaimIsReal(site, lim, seed, c, k');
      assert SameLinks(site, u, e.url);
      assert site.isStatic(u) == site.isStatic(e.url);
      ShallowIsFetched(site, lim, seed, c, m, k');
      assert Expanded(site, c, e);
    }
  }

  lemma SeedIsKnown(site: Site, lim: Limits, seed: Url, c: Crawl)
    requires Inv(site, lim, seed, c)
    ensures site.key(seed) in c.via && c.via[site.key(seed)] == SeedEntry(seed)
  {
  }

  lemma ClaimIsReal(site: Site, lim: Limits, seed: Url, c: Crawl, k: Key)
    requires Inv(site, lim, seed, c) && k in c.via
    ensures site.key(c.via[k].url) == k && Discovered(site, seed, c, c.via[k])
  {
  }

  lemma StartIsBreadthFirst(site: Site, lim: Limits, seed: Url)
    ensures BreadthFirst(site, lim, seed, Start(site, seed), 0, None)
  {
  }

  /** Taking a wave of pages of one depth. */
  lemma WaveKeepsOrder(site: Site, lim: Limits, seed: Url, c: Crawl, l: nat, n: nat)
    requires BreadthFirst(site, lim, seed, c, l, None) && c.pending == [] && 0 < n <= |c.frontier|
    requires forall i :: 0 <= i < n ==> c.frontier[i].depth == c.frontier[0].depth
    ensures var c' := c.(frontier := c.frontier[n..], pending := c.frontier[..n]);
      BreadthFirst(site, lim, seed, c', c.frontier[0].depth + 1, None)
  {
    hide Shortest, Expanded;
    var c' := c.(frontier := c.frontier[n..], pending := c.frontier[..n]);
    forall i | 0 <= i < |c'.frontier|
      ensures c'.frontier[i] == c.frontier[n + i] && c.frontier[0].depth <= c'.frontier[i].depth
    {
    }
    assert Shortest(site, seed, c') by {
      SameClaims(site, seed, c, c');
    }
    assert FetchedExpanded(site, c', None) by {
      SameExpansion(site, c, c');
    }
  }

  lemma SameClaims(site: Site, seed: Url, c: Crawl, c': Crawl)
    requires Shortest(site, seed, c) && c'.via == c.via
    ensures Shortest(site, seed, c')
  {
  }

  lemma SameExpansion(site: Site, c: Crawl, c': Crawl)
    requires FetchedExpanded(site, c, None) && c'.via == c.via && c'.visited == c.visited && c'.events == c.events
    ensures FetchedExpanded(site, c', None)
  {
    assert forall e :: Expanded(site, c, e) ==> Expanded(site, c', e);
  }

  /** The fetch of any page of the wave. */
  lemma FetchKeepsOrder(site: Site, lim: Limits, seed: Url, c: Crawl, l: nat, i: nat)
    requires Inv(site, lim, seed, c) && BreadthFirst(site, lim, seed, c, l, None)
    requires i < |c.pending| && !site.panics(c.pending[i].url)
    ensures BreadthFirst(site, lim, seed, Finish(site, c, i), l, Some(c.pending[i]))
  {
    var e := c.pending[i];
    var c' := Finish(site, c, i);
    assert c'.events == c.events + [Fetched(e)];
    assert e in c.pending;
    forall f | f in c'.pending
      ensures f in c.pending
    {
      assert f in c.pending[..i] || f in c.pending[i + 1..];
    }
    forall f | Fetched(f) in c'.events && f != e
      ensures Uncapped(c') ==> Expanded(site, c', f)
    {
      assert Fetched(f) in c.events;
      assert Uncapped(c) ==> Expanded(site, c, f);
    }
  }

  /** Following one link of the page just fetched. */
  lemma LinkKeepsOrder(site: Site, lim: Limits, seed: Url, c: Crawl, l: nat, page: Entry, raw: Option<Url>)
    requires KeyDecides(site) && Inv(site, lim, seed, c) && BreadthFirst(site, lim, seed, c, l, Some(page))
    requires Claims(site, c, page) && Fetched(page) in c.events && raw in site.links(page.url)
    ensures BreadthFirst(site, lim, seed, AddLink(site, lim, c, page, raw), l, Some(page))
    ensures var c' := AddLink(site, lim, c, page, raw);
      && (Uncapped(c') && raw.Some? ==> site.key(raw.value) in c'.via && c'.via[site.key(raw.value)].depth <= l)
      && (forall k :: k in c.via ==> k in c'.via && c'.via[k] == c.via[k])
      && (Uncapped(c') ==> Uncapped(c))
  {
    if !Ignored(site, c, raw) {
      assert site.key(raw.value) !in c.via && Uncapped(c);
      NewPageIsFar(site, lim, seed, c, l, page, site.key(raw.value));
      AddKeepsOrder(site, lim, seed, c, l, page, ChildOf(page, raw.value));
    }
  }

  /** A page not known when a page just above level `l` is followed is at least `l` links away. */
  lemma NewPageIsFar(site: Site, lim: Limits, seed: Url, c: Crawl, l: nat, page: Entry, k: Key)
    requires KeyDecides(site) && Inv(site, lim, seed, c) && BreadthFirst(site, lim, seed, c, l, Some(page))
    requires Fetched(page) in c.events && k !in c.via && Uncapped(c)
    ensures forall n: nat :: Reached(site, seed, k, n) ==> l <= n
  {
    hide Shortest, FetchedExpanded, CandidatesAreBeyond, ClaimsInv, PlacesInv, Reached;
    forall n: nat | Reached(site, seed, k, n)
      ensures l <= n
    {
      if n < l {
        LayersAreComplete(site, lim, seed, c, page.depth, Some(page), k, n);
      }
    }
  }

  lemma AddKeepsOrder(site: Site, lim: Limits, seed: Url, c: Crawl, l: nat, page: Entry, child: Entry)
    requires BreadthFirst(site, lim, seed, c, l, Some(page)) && child == ChildOf(page, child.url)
    requires site.key(child.url) !in c.via && Uncapped(c) && c.via.Keys == c.visited
    requires forall n: nat :: Reached(site, seed, site.key(child.url), n) ==> l <= n
    ensures BreadthFirst(site, lim, seed, AddPage(site, lim, c, child), l, Some(page))
    ensures AddPage(site, lim, c, child).via == c.via[site.key(child.url) := child]
    ensures Uncapped(AddPage(site, lim, c, child)) ==> Uncapped(c)
  {
    hide Reached;
    var c' := AddPage(site, lim, c, child);
    assert c'.via == c.via[site.key(child.url) := child];
    forall e | Fetched(e) in c'.events && e != page
      ensures Uncapped(c') ==> Expanded(site, c', e)
    {
      assert Fetched(e) in c.events;
      assert Expanded(site, c, e);
    }
    forall k, n: nat | k in c'.via && Reached(site, seed, k, n)
      ensures c'.via[k].depth <= n
    {
      if k != site.key(child.url) {
        assert c.via[k].depth <= n;
      }
    }
  }

  /** The raw links `raws` are known, one level below `page` at most. */
  ghost predicate AreKnown(site: Site, c: Crawl, page: Entry, raws: seq<Option<Url>>) {
    forall raw :: raw in raws && raw.Some?
      ==> site.key(raw.value) in c.via && c.via[site.key(raw.value)].depth <= page.depth + 1
  }

  /** After its last link the page just fetched counts as followed like the others. */
  lemma PageIsExpanded(site: Site, lim: Limits, seed: Url, c: Crawl, l: nat, page: Entry)
    requires BreadthFirst(site, lim, seed, c, l, Some(page))
    requires Uncapped(c) ==> AreKnown(site, c, page, site.links(page.url))
    ensures BreadthFirst(site, lim, seed, c, l, None)
  {
    if Uncapped(c) {
      forall k | LinksTo(site, page.url, k)
        ensures k in c.via && c.via[k].depth <= page.depth + 1
      {
        var v :| HasLink(site, page.url, v) && site.key(v) == k;
        assert Some(v) in site.links(page.url);
      }
    }
  }

  /** Every page within the depth limit was fetched, and everything one link further is known. */
  ghost predicate Covered(site: Site, lim: Limits, seed: Url, c: Crawl) {
    forall k, n: nat :: n <= lim.maxDepth + 1 && Reached(site, seed, k, n) ==>
      && k in c.via && c.via[k].depth <= n
      && (n <= lim.maxDepth && IsPage(site, c.via[k]) ==> Fetched(c.via[k]) in c.events)
  }

  lemma EmptyFrontierCovers(site: Site, lim: Limits, seed: Url, c: Crawl, l: nat)
    requires KeyDecides(site) && Inv(site, lim, seed, c) && BreadthFirst(site, lim, seed, c, l, None)
    requires c.frontier == [] && c.pending == [] && Uncapped(c)
    ensures Covered(site, lim, seed, c)
  {
    forall k, n: nat | n <= lim.maxDepth + 1 && Reached(site, seed, k, n)
      ensures k in c.via && c.via[k].depth <= n
      ensures n <= lim.maxDepth && IsPage(site, c.via[k]) ==> Fetched(c.via[k]) in c.events
    {
      LayersAreComplete(site, lim, seed, c, lim.maxDepth + 1, None, k, n);
      if n <= lim.maxDepth && IsPage(site, c.via[k]) {
        ShallowIsFetched(site, lim, seed, c, lim.maxDepth + 1, k);
      }
    }
  }
}
