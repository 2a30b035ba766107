/** The crawl loop: waves of concurrent fetches that complete in any order, then a drain of what is left. */
module Crawler {
  import opened Wrappers
  import opened Arithmetic
  import opened CrawlState
  import opened CrawlPaths
  import opened CrawlRuns
  import opened CrawlCoverage

  /** The limits a crawl really runs under. */
  function Effective(lim: Limits): Limits {
    Limits(ClampNat(lim.maxPages, 1, 5000), ClampNat(lim.maxDepth, 0, 20), ClampNat(lim.tasks, 1, 50),
      lim.captureStatic)
  }

  /** `events`, `visited` and `pages` are the outcome of a crawl whose fetches complete in some order. */
  ghost predicate Outcome(site: Site, lim: Limits, seed: Url, events: seq<Event>, visited: set<Key>, pages: nat) {
    exists order, end :: RunsTo(site, lim, seed, order, end) && Shows(end, visited, [], [], events, pages)
  }

  /** The loop variables are the parts of the state `c`. */
  ghost predicate Shows(
      c: Crawl, visited: set<Key>, frontier: seq<Entry>, wave: seq<Entry>, events: seq<Event>, pages: nat)
  {
    c.visited == visited && c.frontier == frontier && c.pending == wave && c.events == events && c.pages == pages
  }

  /** Every page within `depth` links of the seed was fetched. */
  ghost predicate FetchesAll(site: Site, seed: Url, events: seq<Event>, depth: nat) {
    forall u, n: nat :: n <= depth && Reached(site, seed, site.key(u), n) && Followable(site, seed, u) ==>
      FetchesKey(site, events, site.key(u))
  }

  ghost predicate FetchesKey(site: Site, events: seq<Event>, k: Key) {
    exists e :: Fetched(e) in events && site.key(e.url) == k
  }

  /** What a crawl asked to keep to `params` does. */
  ghost predicate Obeys(
      site: Site, params: Limits, seed: Url, events: seq<Event>, visited: set<Key>, pages: nat)
  {
    var budget, depth := MaxNat(1, MinNat(params.maxPages, 5000)), MinNat(params.maxDepth, 20);
    var width := MaxNat(1, MinNat(params.tasks, 50));
    var uncapped := pages < budget && |visited| < 20_000;
    && pages == FetchedCount(events) <= budget && |visited| <= 20_000
    && (forall e :: Fetched(e) in events ==> e.depth <= depth)
    && (uncapped && KeyDecides(site) && NeverPanics(site) && (width == 1 || depth < 2 || budget < depth + width + 2) ==>
          FetchesAll(site, seed, events, depth))
  }

  /** The crawl. Its outcome is that of some completion order under the limits asked for, where those are possible; it
      fetches at most 5000 pages, goes at most 20 links deep, and, if it hits no cap, misses nothing under the limits of
      `CoverageExactly`, one task among them. */
  method Run(site: Site, params: Limits, seed: Url) returns (events: seq<Event>, visited: set<Key>, pages: nat)
    ensures Outcome(site, Effective(params), seed, events, visited, pages)
    ensures Obeys(site, params, seed, events, visited, pages)
    ensures 1 <= params.maxPages <= 5000 && params.maxDepth <= 20 && 1 <= params.tasks <= 50 ==>
      Outcome(site, params, seed, events, visited, pages)
  {
    hide TakeWave, Ready, Ordered, Fetch, FollowAll, DrainAll, RunsTo, Outcome, Obeys;
    var lim := Effective(params);
    visited, pages, events := {site.key(seed)}, 0, [];
    var frontier := [SeedEntry(seed)];
    ghost var c := Start(site, seed);
    ghost var order: seq<nat> := [];
    NothingCompleted(site, lim, c);
    while frontier != [] && pages < lim.maxPages
      invariant Shows(c, visited, frontier, [], events, pages) && |visited| <= MAX_VISITED
      invariant Ordered(site, lim, Start(site, seed), order) == Some(c)
      decreases MAX_VISITED - |visited| + |frontier|
    {
      ghost var before := c;
      var wave: seq<Entry> := [];
      while |wave| < lim.tasks && pages + |wave| < lim.maxPages && frontier != []
        invariant Shows(c, visited, frontier, wave, events, pages)
        invariant TakeWave(lim, c) == TakeWave(lim, before)
        invariant |frontier| + |wave| == |before.frontier|
        decreases |frontier|
      {
        TakeStep(lim, c);
        c := Pop(c);
        wave, frontier := wave + [frontier[0]], frontier[1..];
      }
      if wave == [] {
        break;
      }
      TakeStep(lim, c);
      ghost var settled, room := before, MAX_VISITED - |visited| + |frontier|;
      ReadyIs(lim, settled);
      while wave != []
        invariant Shows(c, visited, frontier, wave, events, pages) && |visited| <= MAX_VISITED
        invariant MAX_VISITED - |visited| + |frontier| <= room
        invariant Ordered(site, lim, Start(site, seed), order) == Some(settled)
        invariant c == if wave == [] then settled else Ready(lim, settled)
        decreases |wave|
      {
        var i :| 0 <= i < |wave|;
        var page := wave[i];
        OrderedLast(site, lim, Start(site, seed), order, i);
        FetchIs(site, lim, c, i);
        settled, order := Fetch(site, lim, c, i), order + [i];
        ReadyIs(lim, settled);
        c := Finish(site, c, i);
        wave := Without(wave, i);
        if site.panics(page.url) {
          continue;
        }
        pages, events := pages + 1, events + [Fetched(page)];
        visited, frontier, events, c := Follow(site, lim, page, visited, frontier, events, c);
      }
    }
    ghost var last := c;
    while frontier != []
      invariant DrainAll(c) == DrainAll(last)
      invariant Shows(c, visited, frontier, [], events, pages)
      decreases |frontier|
    {
      DrainStep(c);
      c := Drain(c);
      events, frontier := events + [Candidate(frontier[0])], frontier[1..];
    }
    DrainStep(c);
    Conclude(site, lim, seed, order, last, c);
    OutcomeObeys(site, params, seed, events, visited, pages);
  }

  lemma OutcomeObeys(site: Site, params: Limits, seed: Url, events: seq<Event>, visited: set<Key>, pages: nat)
    requires Outcome(site, Effective(params), seed, events, visited, pages)
    ensures Obeys(site, params, seed, events, visited, pages)
  {
    hide RunsTo, KeyDecides, NeverPanics, ClaimsInv, PlacesInv, AllFetched, FetchesAll;
    var lim := Effective(params);
    var order, end :| RunsTo(site, lim, seed, order, end) && Shows(end, visited, [], [], events, pages);
    EveryOrderFinishes(site, lim, seed, order, end);
    if KeyDecides(site) && NeverPanics(site) && end.pages < lim.maxPages && Uncapped(end) && Covering(lim) {
      CoverageHolds(site, lim, seed, order, end);
      AllAreShown(site, lim, seed, end);
    }
  }

  lemma CoverageHolds(site: Site, lim: Limits, seed: Url, order: seq<nat>, end: Crawl)
    requires lim.tasks > 0 && Covering(lim) && KeyDecides(site) && NeverPanics(site)
    requires RunsTo(site, lim, seed, order, end) && end.pages < lim.maxPages && Uncapped(end)
    ensures AllFetched(site, lim, seed, end)
  {
    hide RunsTo, KeyDecides, NeverPanics, AllFetched;
    if Narrow(lim) {
      NarrowCovers(site, lim, seed, order, end);
    } else {
      FewPagesCover(site, lim, seed, order, end);
    }
  }

  lemma AllAreShown(site: Site, lim: Limits, seed: Url, end: Crawl)
    requires Inv(site, lim, seed, end) && AllFetched(site, lim, seed, end)
    ensures FetchesAll(site, seed, end.events, lim.maxDepth)
  {
    hide Inv, Reached;
    forall u, n: nat | n <= lim.maxDepth && Reached(site, seed, site.key(u), n) && Followable(site, seed, u)
      ensures FetchesKey(site, end.events, site.key(u))
    {
      assert IsFetched(end, site.key(u));
      ClaimIsReal(site, lim, seed, end, site.key(u));
    }
  }

  lemma Conclude(site: Site, lim: Limits, seed: Url, order: seq<nat>, last: Crawl, end: Crawl)
    requires Ordered(site, lim, Start(site, seed), order) == Some(last) && last.pending == []
    requires last.frontier == [] || last.pages >= lim.maxPages
    requires end == DrainAll(last) && end.frontier == [] && end.pending == []
    ensures Outcome(site, lim, seed, end.events, end.visited, end.pages)
  {
    hide Ordered, DrainAll;
    assert RunsTo(site, lim, seed, order, end);
  }

  lemma NothingCompleted(site: Site, lim: Limits, c: Crawl)
    ensures Ordered(site, lim, c, []) == Some(c)
  {
  }

  lemma ReadyIs(lim: Limits, c: Crawl)
    ensures Ready(lim, c) == if c.pending == [] then TakeWave(lim, c) else c
  {
  }

  lemma FetchIs(site: Site, lim: Limits, c: Crawl, i: nat)
    requires i < |c.pending|
    ensures var e, finished := c.pending[i], Finish(site, c, i);
      Fetch(site, lim, c, i)
      == if site.panics(e.url) then finished else FollowAll(site, lim, finished, e, site.links(e.url))
  {
  }

  lemma FollowingEnds(site: Site, lim: Limits, c: Crawl, page: Entry, links: seq<Option<Url>>, j: nat)
    requires j <= |links| && (j == |links| || |c.visited| >= MAX_VISITED)
    ensures FollowAll(site, lim, c, page, links[j..]) == c
  {
    if j < |links| {
      CapStops(site, lim, c, page, links[j..]);
    }
  }

  /** The links of one fetched page, in order, until the cap on known pages stops the loop. */
  method Follow(
      site: Site, lim: Limits, page: Entry, visited0: set<Key>, frontier0: seq<Entry>, events0: seq<Event>,
      ghost c0: Crawl)
    returns (visited: set<Key>, frontier: seq<Entry>, events: seq<Event>, ghost c: Crawl)
    requires Shows(c0, visited0, frontier0, c0.pending, events0, c0.pages) && |visited0| <= MAX_VISITED
    ensures Shows(c, visited, frontier, c0.pending, events, c0.pages) && |visited| <= MAX_VISITED
    ensures c == FollowAll(site, lim, c0, page, site.links(page.url))
    ensures |frontier| - |visited| <= |frontier0| - |visited0|
  {
    hide FollowAll;
    visited, frontier, events, c := visited0, frontier0, events0, c0;
    var links := site.links(page.url);
    var j := 0;
    assert links[0..] == links;
    while j < |links| && |visited| < MAX_VISITED
      invariant 0 <= j <= |links|
      invariant Shows(c, visited, frontier, c0.pending, events, c0.pages) && |visited| <= MAX_VISITED
      invariant |frontier| - |visited| <= |frontier0| - |visited0|
      invariant FollowAll(site, lim, c0, page, links) == FollowAll(site, lim, c, page, links[j..])
    {
      var raw := links[j];
      FollowNext(site, lim, c, page, links, j);
      c := AddLink(site, lim, c, page, raw);
      if raw.Some? && site.key(raw.value) !in visited {
        var child := ChildOf(page, raw.value);
        visited := visited + {site.key(child.url)};
        if site.isStatic(child.url) {
          if lim.captureStatic && site.isTrackable(child.url) {
            events := events + [Candidate(child)];
          }
        } else if child.depth <= lim.maxDepth {
          frontier := frontier + [child];
        } else {
          events := events + [Candidate(child)];
        }
      }
      j := j + 1;
    }
    FollowingEnds(site, lim, c, page, links, j);
  }
}
