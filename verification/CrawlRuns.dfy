/** What holds of every crawl, whatever the order in which its fetches complete. */
module CrawlRuns {
  import opened Wrappers
  import opened CrawlState
  import opened CrawlPaths

  // ---------------------------------------------------------------------------------------------
  // The accounting holds in every order.
  // ---------------------------------------------------------------------------------------------

  lemma {:induction false} TakeWaveInv(site: Site, lim: Limits, seed: Url, c: Crawl)
    requires Inv(site, lim, seed, c)
    ensures Inv(site, lim, seed, TakeWave(lim, c))
    decreases |c.frontier|
  {
    hide Inv;
    if WaveGoesOn(lim, c) {
      PopInv(site, lim, seed, c);
      TakeWaveInv(site, lim, seed, Pop(c));
    }
  }

  lemma {:induction false} FollowInv(site: Site, lim: Limits, seed: Url, c: Crawl, page: Entry, raws: seq<Option<Url>>)
    requires Inv(site, lim, seed, c) && Claims(site, c, page) && Fetched(page) in c.events
    requires forall raw :: raw in raws ==> raw in site.links(page.url)
    ensures Inv(site, lim, seed, FollowAll(site, lim, c, page, raws))
    decreases |raws|
  {
    hide Inv, AddLink, Claims;
    if raws != [] {
      AddLinkInv(site, lim, seed, c, page, raws[0]);
      FollowInv(site, lim, seed, AddLink(site, lim, c, page, raws[0]), page, raws[1..]);
    }
  }

  lemma PageClaims(site: Site, lim: Limits, seed: Url, c: Crawl, i: nat)
    requires Inv(site, lim, seed, c) && i < |c.pending|
    ensures Claims(site, Finish(site, c, i), c.pending[i])
    ensures !site.panics(c.pending[i].url) ==> Fetched(c.pending[i]) in Finish(site, c, i).events
  {
    assert c.pending[i] in c.pending;
    assert Places(c, c.pending[i]) > 0;
  }

  lemma FetchInv(site: Site, lim: Limits, seed: Url, c: Crawl, i: nat)
    requires Inv(site, lim, seed, c) && i < |c.pending|
    ensures Inv(site, lim, seed, Fetch(site, lim, c, i))
  {
    hide Inv, Finish, FollowAll, Claims;
    var e := c.pending[i];
    FinishInv(site, lim, seed, c, i);
    PageClaims(site, lim, seed, c, i);
    if !site.panics(e.url) {
      FollowInv(site, lim, seed, Finish(site, c, i), e, site.links(e.url));
    }
  }

  lemma {:induction false} OrderedInv(site: Site, lim: Limits, seed: Url, c: Crawl, order: seq<nat>)
    requires Inv(site, lim, seed, c) && Ordered(site, lim, c, order).Some?
    ensures Inv(site, lim, seed, Ordered(site, lim, c, order).value)
    decreases |order|
  {
    hide Inv, Fetch, TakeWave;
    if order != [] {
      TakeWaveInv(site, lim, seed, c);
      var ready := Ready(lim, c);
      FetchInv(site, lim, seed, ready, order[0]);
      OrderedInv(site, lim, seed, Fetch(site, lim, ready, order[0]), order[1..]);
    }
  }

  lemma {:induction false} DrainAllInv(site: Site, lim: Limits, seed: Url, c: Crawl)
    requires Inv(site, lim, seed, c)
    ensures var d := DrainAll(c);
      Inv(site, lim, seed, d) && d.frontier == [] && d.pending == c.pending && d.via == c.via && d.visited == c.visited
    decreases |c.frontier|
  {
    hide Inv;
    if c.frontier != [] {
      DrainInv(site, lim, seed, c);
      DrainAllInv(site, lim, seed, Drain(c));
    }
  }

  /** Every crawl, in whatever order its fetches complete, ends with all accounts settled. */
  lemma EveryOrderFinishes(site: Site, lim: Limits, seed: Url, order: seq<nat>, end: Crawl)
    requires RunsTo(site, lim, seed, order, end)
    ensures Inv(site, lim, seed, end) && end.frontier == [] && end.pending == []
  {
    hide Inv, Ordered, DrainAll;
    StartInv(site, lim, seed);
    OrderedInv(site, lim, seed, Start(site, seed), order);
    DrainAllInv(site, lim, seed, Ordered(site, lim, Start(site, seed), order).value);
  }

  /** How many events report a page with key `k`. */
  function Reports(site: Site, events: seq<Event>, k: Key): nat {
    if events == [] then 0
    else Reports(site, events[..|events| - 1], k) + if site.key(events[|events| - 1].entry.url) == k then 1 else 0
  }

  lemma {:induction false} ReportsAreCounts(site: Site, events: seq<Event>, k: Key, e: Entry)
    requires site.key(e.url) == k && forall ev :: ev in events && site.key(ev.entry.url) == k ==> ev.entry == e
    ensures Reports(site, events, k) == EventCount(events, e)
  {
    if events != [] {
      var last := |events| - 1;
      assert events[last] in events;
      assert forall ev :: ev in events[..last] ==> ev in events;
      ReportsAreCounts(site, events[..last], k, e);
    }
  }

  /** In every order every known page is reported exactly once, unless it is a static asset not to be shown or its fetch
      panicked; what is reported is its true parent and the length of a real link path; pages fetched stay within the
      budget. */
  lemma EveryPageReportedOnce(site: Site, lim: Limits, seed: Url, order: seq<nat>, c: Crawl, k: Key)
    requires RunsTo(site, lim, seed, order, c) && k in c.visited
    ensures k in c.via && site.key(c.via[k].url) == k && Discovered(site, seed, c, c.via[k])
    ensures Reached(site, seed, k, c.via[k].depth)
    ensures !site.panics(c.via[k].url) ==> Reports(site, c.events, k) == if Shown(site, lim, c.via[k]) then 1 else 0
    ensures forall ev :: ev in c.events && site.key(ev.entry.url) == k ==> ev.entry == c.via[k]
    ensures c.pages == FetchedCount(c.events) <= lim.maxPages
  {
    hide RunsTo;
    EveryOrderFinishes(site, lim, seed, order, c);
    var e := c.via[k];
    DepthIsReal(site, lim, seed, c, k);
    forall ev | ev in c.events && site.key(ev.entry.url) == k
      ensures ev.entry == e
    {
      EventCounted(c.events, ev);
      assert Places(c, ev.entry) > 0;
    }
    ReportsAreCounts(site, c.events, k, e);
    assert Places(c, e) == if Shown(site, lim, e) then 1 else 0;
    assert e in c.lost ==> site.panics(e.url);
  }

  // ---------------------------------------------------------------------------------------------
  // Following links.
  // ---------------------------------------------------------------------------------------------

  /** What is still to be done, at most. */
  function Work(c: Crawl): int {
    MAX_VISITED - |c.visited| + |c.frontier| + |c.pending|
  }

  /** What is recorded stays recorded. */
  predicate Remembers(c: Crawl, c': Crawl) {
    forall k :: k in c.via ==> k in c'.via && c'.via[k] == c.via[k]
  }

  /** New pages are recorded, and wait at the end, at depth `l`. */
  predicate Grows(c: Crawl, c': Crawl, l: nat) {
    && c'.via.Keys == c'.visited && Remembers(c, c') && Work(c') <= Work(c)
    && c'.pending == c.pending && c'.pages == c.pages
    && c.frontier <= c'.frontier && forall i :: |c.frontier| <= i < |c'.frontier| ==> c'.frontier[i].depth == l
  }

  lemma LinkGrows(site: Site, lim: Limits, c: Crawl, page: Entry, raw: Option<Url>)
    requires c.via.Keys == c.visited
    ensures Grows(c, AddLink(site, lim, c, page, raw), page.depth + 1)
  {
    hide Remembers;
    var c' := AddLink(site, lim, c, page, raw);
    if Ignored(site, c, raw) {
      ItRemembers(c, c, {});
    } else {
      var k := site.key(raw.value);
      assert c'.visited == c.visited + {k} && |c'.visited| == |c.visited| + 1;
      assert c'.via == c.via[k := ChildOf(page, raw.value)];
      ItRemembers(c, c', {k});
      assert c'.frontier == c.frontier || c'.frontier == c.frontier + [ChildOf(page, raw.value)];
    }
  }

  lemma ItRemembers(c: Crawl, c': Crawl, added: set<Key>)
    requires c.via.Keys == c.visited && c'.via.Keys == c.visited + added && added !! c.visited
    requires forall k :: k in c'.via && k !in added ==> k in c.via && c'.via[k] == c.via[k]
    ensures Remembers(c, c')
  {
  }

  lemma {:induction false} FollowGrows(site: Site, lim: Limits, c: Crawl, page: Entry, raws: seq<Option<Url>>)
    requires c.via.Keys == c.visited
    ensures Grows(c, FollowAll(site, lim, c, page, raws), page.depth + 1)
    decreases |raws|
  {
    hide AddLink;
    if raws != [] {
      LinkGrows(site, lim, c, page, raws[0]);
      FollowGrows(site, lim, AddLink(site, lim, c, page, raws[0]), page, raws[1..]);
    }
  }

  // ---------------------------------------------------------------------------------------------
  // Limits under which every wave is of one depth.
  // ---------------------------------------------------------------------------------------------

  /** One page at a time, or too shallow or too few pages for a wave to reach across two depths. */
  predicate Narrow(lim: Limits) {
    lim.tasks == 1 || lim.maxDepth < 2 || lim.maxPages < lim.tasks + 3
  }

  ghost predicate NeverPanics(site: Site) {
    forall u :: !site.panics(u)
  }

  /** Pages left over from a wave mean that the wave was full, or the budget is spent. */
  predicate Leftover(lim: Limits, c: Crawl, l: nat) {
    c.frontier != [] && c.frontier[0].depth + 1 == l ==>
      c.pages + |c.pending| >= lim.tasks + 1 || c.pages + |c.pending| >= lim.maxPages
  }

  predicate BelowSeed(site: Site, seed: Url, c: Crawl, l: nat) {
    if l == 0 then c == Start(site, seed)
    else c.pages + |c.pending| >= 1 && forall i :: 0 <= i < |c.frontier| ==> c.frontier[i].depth >= 1
  }

  /** Between fetches: everything in flight has one depth, and so will the next wave. */
  ghost predicate InLayers(site: Site, lim: Limits, seed: Url, c: Crawl, l: nat) {
    && Inv(site, lim, seed, c) && BreadthFirst(site, lim, seed, c, l, None)
    && Leftover(lim, c, l) && BelowSeed(site, seed, c, l)
  }

  /** What a wave takes: the first `n` waiting pages, as many as width and budget allow. */
  lemma {:induction false} WaveIs(lim: Limits, c: Crawl) returns (n: nat)
    ensures n <= |c.frontier|
    ensures TakeWave(lim, c) == c.(frontier := c.frontier[n..], pending := c.pending + c.frontier[..n])
    ensures n < |c.frontier| ==> |c.pending| + n >= lim.tasks || c.pages + |c.pending| + n >= lim.maxPages
    ensures n > 0 ==> |c.pending| + n <= lim.tasks && c.pages + |c.pending| + n <= lim.maxPages
    decreases |c.frontier|
  {
    if WaveGoesOn(lim, c) {
      var m := WaveIs(lim, Pop(c));
      n := m + 1;
      assert c.frontier[1..][m..] == c.frontier[n..];
      assert c.pending + [c.frontier[0]] + c.frontier[1..][..m] == c.pending + c.frontier[..n];
    } else {
      n := 0;
      assert c.pending + c.frontier[..0] == c.pending;
    }
  }

  /** Under narrow limits the next wave is of one depth. */
  lemma WaveIsUniform(site: Site, lim: Limits, seed: Url, c: Crawl, l: nat, n: nat, i: nat)
    requires Narrow(lim) && InLayers(site, lim, seed, c, l) && c.pending == [] && i < n <= |c.frontier|
    requires n <= lim.tasks && c.pages + n <= lim.maxPages
    ensures c.frontier[i].depth == c.frontier[0].depth
  {
    hide ClaimsInv, PlacesInv, Shortest, FetchedExpanded, CandidatesAreBeyond;
    assert c.frontier[i] in c.frontier && c.frontier[0] in c.frontier;
    assert c.frontier[0].depth <= c.frontier[i].depth <= l <= c.frontier[0].depth + 1;
  }

  lemma WaveStaysInLayers(site: Site, lim: Limits, seed: Url, c: Crawl, l: nat) returns (l': nat)
    requires Narrow(lim) && InLayers(site, lim, seed, c, l) && c.pending == []
    ensures InLayers(site, lim, seed, TakeWave(lim, c), l')
  {
    hide Inv, BreadthFirst, TakeWave;
    var n := WaveIs(lim, c);
    if n == 0 {
      l' := l;
      assert c.pending + c.frontier[..0] == c.pending;
    } else {
      l' := c.frontier[0].depth + 1;
      forall i: nat | i < n
        ensures c.frontier[i].depth == c.frontier[0].depth
      {
        WaveIsUniform(site, lim, seed, c, l, n, i);
      }
      TakeWaveInv(site, lim, seed, c);
      WaveKeepsOrder(site, lim, seed, c, l, n);
      assert c.pending + c.frontier[..n] == c.frontier[..n];
    }
  }

  /** Following links keeps the layers, and makes them known. */
  lemma {:induction false} LinksStayInLayers(
      site: Site, lim: Limits, seed: Url, c: Crawl, l: nat, page: Entry, raws: seq<Option<Url>>)
    requires KeyDecides(site) && Inv(site, lim, seed, c) && BreadthFirst(site, lim, seed, c, l, Some(page))
    requires Claims(site, c, page) && Fetched(page) in c.events
    requires forall raw :: raw in raws ==> raw in site.links(page.url)
    ensures var c' := FollowAll(site, lim, c, page, raws);
      BreadthFirst(site, lim, seed, c', l, Some(page))
        && (Uncapped(c') ==> AreKnown(site, c', page, raws) && Uncapped(c))
    decreases |raws|
  {
    hide Inv, BreadthFirst, Claims, KeyDecides, Uncapped, AddLink, Grows, AreKnown;
    if raws != [] {
      var d := AddLink(site, lim, c, page, raws[0]);
      LevelOf(site, lim, seed, c, l, page);
      AddLinkInv(site, lim, seed, c, page, raws[0]);
      LinkKeepsOrder(site, lim, seed, c, l, page, raws[0]);
      LinksStayInLayers(site, lim, seed, d, l, page, raws[1..]);
      KeysAreKnown(site, lim, seed, d);
      FollowGrows(site, lim, d, page, raws[1..]);
      if Uncapped(FollowAll(site, lim, d, page, raws[1..])) {
        OneMoreKnown(site, d, FollowAll(site, lim, d, page, raws[1..]), page, raws);
      }
    } else {
      NoneKnown(site, c, page);
    }
  }

  lemma NoneKnown(site: Site, c: Crawl, page: Entry)
    ensures AreKnown(site, c, page, [])
  {
  }

  lemma KeysAreKnown(site: Site, lim: Limits, seed: Url, c: Crawl)
    requires Inv(site, lim, seed, c)
    ensures c.via.Keys == c.visited
  {
  }

  lemma OneMoreKnown(site: Site, c: Crawl, c': Crawl, page: Entry, raws: seq<Option<Url>>)
    requires raws != [] && Grows(c, c', page.depth + 1)
    requires raws[0].Some? ==>
      site.key(raws[0].value) in c.via && c.via[site.key(raws[0].value)].depth <= page.depth + 1
    ensures AreKnown(site, c', page, raws[1..]) ==> AreKnown(site, c', page, raws)
  {
    assert raws == [raws[0]] + raws[1..];
  }

  lemma LevelOf(site: Site, lim: Limits, seed: Url, c: Crawl, l: nat, page: Entry)
    requires BreadthFirst(site, lim, seed, c, l, Some(page))
    ensures page.depth + 1 == l
  {
  }

  lemma FetchStaysInLayers(site: Site, lim: Limits, seed: Url, c: Crawl, l: nat, i: nat)
    requires KeyDecides(site) && NeverPanics(site) && InLayers(site, lim, seed, c, l) && i < |c.pending|
    ensures InLayers(site, lim, seed, Fetch(site, lim, c, i), l)
  {
    hide Inv, BreadthFirst, Claims, KeyDecides, FollowAll;
    var e := c.pending[i];
    var f := Finish(site, c, i);
    FinishInv(site, lim, seed, c, i);
    PageClaims(site, lim, seed, c, i);
    FetchKeepsOrder(site, lim, seed, c, l, i);
    FetchInv(site, lim, seed, c, i);
    LevelOf(site, lim, seed, f, l, e);
    LinksStayInLayers(site, lim, seed, f, l, e, site.links(e.url));
    KeysAreKnown(site, lim, seed, f);
    FollowGrows(site, lim, f, e, site.links(e.url));
    PageIsExpanded(site, lim, seed, FollowAll(site, lim, f, e, site.links(e.url)), l, e);
  }

  lemma {:induction false} OrderedStaysInLayers(site: Site, lim: Limits, seed: Url, c: Crawl, l: nat, order: seq<nat>)
    returns (l': nat)
    requires Narrow(lim) && KeyDecides(site) && NeverPanics(site)
    requires InLayers(site, lim, seed, c, l) && Ordered(site, lim, c, order).Some?
    ensures InLayers(site, lim, seed, Ordered(site, lim, c, order).value, l')
    decreases |order|
  {
    hide InLayers, Narrow, KeyDecides, NeverPanics, Fetch, TakeWave;
    l' := l;
    if order != [] {
      if c.pending == [] {
        l' := WaveStaysInLayers(site, lim, seed, c, l);
      }
      var ready := Ready(lim, c);
      FetchStaysInLayers(site, lim, seed, ready, l', order[0]);
      l' := OrderedStaysInLayers(site, lim, seed, Fetch(site, lim, ready, order[0]), l', order[1..]);
    }
  }

  lemma EveryOrderStaysInLayers(site: Site, lim: Limits, seed: Url, order: seq<nat>) returns (l: nat)
    requires Narrow(lim) && KeyDecides(site) && NeverPanics(site)
    requires Ordered(site, lim, Start(site, seed), order).Some?
    ensures InLayers(site, lim, seed, Ordered(site, lim, Start(site, seed), order).value, l)
  {
    hide Ordered;
    StartInv(site, lim, seed);
    StartIsBreadthFirst(site, lim, seed);
    l := OrderedStaysInLayers(site, lim, seed, Start(site, seed), 0, order);
  }

  /** Under narrow limits, in every order, each recorded depth is exactly the distance from the seed. */
  lemma DepthIsDistance(site: Site, lim: Limits, seed: Url, order: seq<nat>, end: Crawl, k: Key)
    requires Narrow(lim) && KeyDecides(site) && NeverPanics(site)
    requires RunsTo(site, lim, seed, order, end) && k in end.visited
    ensures k in end.via && Reached(site, seed, k, end.via[k].depth)
    ensures forall n: nat :: Reached(site, seed, k, n) ==> end.via[k].depth <= n
  {
    hide Ordered, DrainAll, Reached, KeyDecides, NeverPanics;
    EveryOrderFinishes(site, lim, seed, order, end);
    DepthIsReal(site, lim, seed, end, k);
    var l := EveryOrderStaysInLayers(site, lim, seed, order);
    DrainAllInv(site, lim, seed, Ordered(site, lim, Start(site, seed), order).value);
  }

  /** Under narrow limits, in every order, a crawl that hits neither the page budget nor the cap on known pages fetches
      every page within the depth limit. */
  lemma NothingIsMissed(site: Site, lim: Limits, seed: Url, order: seq<nat>, end: Crawl)
    requires Narrow(lim) && KeyDecides(site) && NeverPanics(site)
    requires RunsTo(site, lim, seed, order, end) && end.pages < lim.maxPages && |end.visited| < MAX_VISITED
    ensures Covered(site, lim, seed, end)
  {
    hide Ordered, Inv, BreadthFirst, Covered, KeyDecides, NeverPanics, Leftover, BelowSeed;
    var last := Ordered(site, lim, Start(site, seed), order).value;
    var l := EveryOrderStaysInLayers(site, lim, seed, order);
    DrainKeepsPages(last);
    DrainStep(last);
    assert end == last;
    EmptyFrontierCovers(site, lim, seed, end, l);
  }

  lemma {:induction false} DrainKeepsPages(c: Crawl)
    ensures DrainAll(c).pages == c.pages
    decreases |c.frontier|
  {
    if c.frontier != [] {
      DrainKeepsPages(Drain(c));
    }
  }

  // ---------------------------------------------------------------------------------------------
  // No crawl gets stuck.
  // ---------------------------------------------------------------------------------------------

  lemma {:induction false} OrderedAppend(site: Site, lim: Limits, c: Crawl, order: seq<nat>, more: seq<nat>)
    requires Ordered(site, lim, c, order).Some?
    ensures Ordered(site, lim, c, order + more) == Ordered(site, lim, Ordered(site, lim, c, order).value, more)
    decreases |order|
  {
    hide Ready, Fetch;
    if order == [] {
      assert order + more == more;
    } else {
      assert (order + more)[1..] == order[1..] + more;
      OrderedAppend(site, lim, Fetch(site, lim, Ready(lim, c), order[0]), order[1..], more);
    }
  }

  lemma FetchIsWork(site: Site, lim: Limits, seed: Url, c: Crawl, i: nat)
    requires Inv(site, lim, seed, c) && i < |c.pending|
    ensures var c' := Fetch(site, lim, c, i); Work(c') < Work(c) && Remembers(c, c')
  {
    hide Inv, FollowAll;
    var e := c.pending[i];
    KeysAreKnown(site, lim, seed, c);
    FollowGrows(site, lim, Finish(site, c, i), e, site.links(e.url));
  }

  /** Any state of a crawl can be completed, and what is recorded stays recorded. */
  lemma {:induction false} EveryCrawlCanFinish(site: Site, lim: Limits, seed: Url, order: seq<nat>, c: Crawl)
    returns (whole: seq<nat>, end: Crawl)
    requires lim.tasks > 0 && Ordered(site, lim, Start(site, seed), order) == Some(c)
    ensures RunsTo(site, lim, seed, whole, end) && order <= whole && Remembers(c, end)
    decreases Work(c)
  {
    hide Inv, Ordered, Fetch, TakeWave, DrainAll;
    StartInv(site, lim, seed);
    OrderedInv(site, lim, seed, Start(site, seed), order);
    if c.pending == [] && (c.frontier == [] || c.pages >= lim.maxPages) {
      whole, end := order, DrainAll(c);
      DrainAllInv(site, lim, seed, c);
      assert RunsTo(site, lim, seed, whole, end);
    } else {
      var n := WaveIs(lim, c);
      var ready := Ready(lim, c);
      TakeWaveInv(site, lim, seed, c);
      OrderedFirst(site, lim, c, 0, []);
      assert [0] + [] == [0];
      OneMore(site, lim, Fetch(site, lim, ready, 0));
      OrderedAppend(site, lim, Start(site, seed), order, [0]);
      FetchIsWork(site, lim, seed, ready, 0);
      WorkIsPositive(site, lim, seed, c);
      whole, end := EveryCrawlCanFinish(site, lim, seed, order + [0], Fetch(site, lim, ready, 0));
      assert order <= order + [0];
    }
  }

  lemma OneMore(site: Site, lim: Limits, c: Crawl)
    ensures Ordered(site, lim, c, []) == Some(c)
  {
  }

  lemma WorkIsPositive(site: Site, lim: Limits, seed: Url, c: Crawl)
    requires Inv(site, lim, seed, c)
    ensures Work(c) >= 0
  {
  }
}
