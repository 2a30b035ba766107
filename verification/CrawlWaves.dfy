/** Exactly which limits make recorded depths the distances from the seed. */
module CrawlWaves {
  import opened Wrappers
  import opened CrawlState
  import opened CrawlPaths
  import opened CrawlRuns

  /** Every finished crawl of every site, in whatever order its fetches complete, has recorded the distances. */
  ghost predicate DistancesAreExact(lim: Limits) {
    forall site, seed, order, end :: KeyDecides(site) && NeverPanics(site) && RunsTo(site, lim, seed, order, end) ==>
      Shortest(site, seed, end)
  }

  // ---------------------------------------------------------------------------------------------
  // A site for waves of `t` pages: 0 links to 1 .. t + 1; 1 links to t + 2; t + 1 and t + 2 link to t + 3, from where a
  // chain goes on. The first wave below the seed leaves t + 1 behind, which is fetched together with t + 2, one level
  // deeper; if t + 2 completes first, t + 3 is recorded at depth 3 although two links lead to it.
  // ---------------------------------------------------------------------------------------------

  function LinkTo(id: nat): Option<Url> {
    Some(Url(id))
  }

  function FanLinks(t: nat, u: Url): seq<Option<Url>> {
    if u.id == 0 then seq(t + 1, i requires 0 <= i => LinkTo(i + 1))
    else if u.id == 1 then [LinkTo(t + 2)]
    else if u.id == t + 1 || u.id == t + 2 then [LinkTo(t + 3)]
    else if u.id >= t + 3 then [LinkTo(u.id + 1)]
    else []
  }

  function Fan(t: nat): Site {
    Site((u: Url) => Key(u.id), u => false, u => false, (u: Url) => FanLinks(t, u), u => false)
  }

  function Child(id: nat): Entry {
    ChildOf(SeedEntry(Url(0)), Url(id))
  }

  function Children(n: nat): seq<Entry> {
    seq(n, i requires 0 <= i => Child(i + 1))
  }

  /** The pages below `known` are known, and nothing else. */
  ghost predicate Looks(c: Crawl, frontier: seq<Entry>, pending: seq<Entry>, pages: nat, known: nat) {
    && c.frontier == frontier && c.pending == pending && c.pages == pages
    && |c.visited| == known && forall i: nat :: Key(i) in c.visited <==> i < known
  }

  /** A link to the next page not known yet. */
  lemma LinkToNew(
      t: nat, lim: Limits, c: Crawl, page: Entry, frontier: seq<Entry>, pending: seq<Entry>, pages: nat, id: nat)
    requires Looks(c, frontier, pending, pages, id) && id < MAX_VISITED
    ensures var c', child := AddLink(Fan(t), lim, c, page, LinkTo(id)), ChildOf(page, Url(id));
      && Key(id) in c'.via && c'.via[Key(id)] == child
      && (child.depth <= lim.maxDepth ==> Looks(c', frontier + [child], pending, pages, id + 1))
  {
  }

  lemma FollowOne(site: Site, lim: Limits, c: Crawl, page: Entry, raw: Option<Url>)
    ensures FollowAll(site, lim, c, page, [raw]) == AddLink(site, lim, c, page, raw)
  {
    hide AddLink;
    FollowFirst(site, lim, c, page, raw, []);
    assert [raw] + [] == [raw];
  }

  lemma {:induction false} SeedLinks(t: nat, lim: Limits, c: Crawl, j: nat)
    requires j <= t + 1 && t + 4 < MAX_VISITED && lim.maxDepth >= 1 && Looks(c, Children(j), [], 1, j + 1)
    ensures Looks(FollowAll(Fan(t), lim, c, SeedEntry(Url(0)), FanLinks(t, Url(0))[j..]), Children(t + 1), [], 1, t + 2)
    decreases t + 1 - j
  {
    hide AddLink, FollowAll, Looks;
    var links := FanLinks(t, Url(0));
    if j == t + 1 {
      assert links[j..] == [];
      NoMoreLinks(Fan(t), lim, c, SeedEntry(Url(0)));
    } else {
      FollowNext(Fan(t), lim, c, SeedEntry(Url(0)), links, j);
      LinkToNew(t, lim, c, SeedEntry(Url(0)), Children(j), [], 1, j + 1);
      assert Children(j) + [Child(j + 1)] == Children(j + 1);
      SeedLinks(t, lim, AddLink(Fan(t), lim, c, SeedEntry(Url(0)), links[j]), j + 1);
    }
  }

  lemma NoMoreLinks(site: Site, lim: Limits, c: Crawl, page: Entry)
    ensures FollowAll(site, lim, c, page, []) == c
  {
  }

  lemma SeedFetched(t: nat, lim: Limits) returns (c: Crawl)
    requires t + 4 < MAX_VISITED && lim.tasks > 0 && lim.maxPages > 0 && lim.maxDepth >= 1
    ensures Ordered(Fan(t), lim, Start(Fan(t), Url(0)), [0]) == Some(c) && Looks(c, Children(t + 1), [], 1, t + 2)
  {
    hide AddLink, FollowAll, TakeWave, Ordered;
    var site, start := Fan(t), Start(Fan(t), Url(0));
    var n := WaveIs(lim, start);
    var ready := Ready(lim, start);
    assert ready.pending == [SeedEntry(Url(0))];
    c := Fetch(site, lim, ready, 0);
    assert FanLinks(t, Url(0))[0..] == FanLinks(t, Url(0));
    SeedLinks(t, lim, Finish(site, ready, 0), 0);
    Single(site, lim, start, 0);
  }

  lemma Single(site: Site, lim: Limits, c: Crawl, i: nat)
    requires i < |Ready(lim, c).pending|
    ensures Ordered(site, lim, c, [i]) == Some(Fetch(site, lim, Ready(lim, c), i))
  {
    hide Fetch, Ready;
    OrderedFirst(site, lim, c, i, []);
    assert [i] + [] == [i];
  }

  /** The pages of the first wave that link nowhere. */
  lemma {:induction false} QuietPages(t: nat, lim: Limits, c: Crawl, j: nat, frontier: seq<Entry>)
    returns (order: seq<nat>, d: Crawl)
    requires 1 <= j <= t && Looks(c, frontier, Children(t + 1)[j..t], 1 + j, t + 3)
    ensures Ordered(Fan(t), lim, c, order) == Some(d) && Looks(d, frontier, [], t + 1, t + 3)
    decreases t - j
  {
    hide Ordered, TakeWave;
    if j == t {
      order, d := [], c;
      OneMore(Fan(t), lim, c);
    } else {
      var e := c.pending[0];
      assert e == Child(j + 1) && FanLinks(t, e.url) == [];
      var f := Finish(Fan(t), c, 0);
      NoMoreLinks(Fan(t), lim, f, e);
      assert f.pending == Children(t + 1)[j + 1..t];
      order, d := QuietPages(t, lim, f, j + 1, frontier);
      OrderedFirst(Fan(t), lim, c, 0, order);
      order := [0] + order;
    }
  }

  /** The first wave below the seed: page 1 is followed to t + 2, and page t + 1 is left behind. */
  lemma FirstWave(t: nat, lim: Limits, c: Crawl) returns (order: seq<nat>, d: Crawl)
    requires 2 <= t == lim.tasks && t + 4 < MAX_VISITED && lim.maxPages >= t + 3 && lim.maxDepth >= 2
    requires Looks(c, Children(t + 1), [], 1, t + 2)
    ensures Ordered(Fan(t), lim, c, order) == Some(d)
    ensures Looks(d, [Child(t + 1), ChildOf(Child(1), Url(t + 2))], [], t + 1, t + 3)
  {
    hide Ordered, TakeWave, AddLink, FollowAll;
    var site := Fan(t);
    var n := WaveIs(lim, c);
    assert n == t;
    var ready := Ready(lim, c);
    assert ready.frontier == [Child(t + 1)] && ready.pending == Children(t + 1)[0..t];
    var f := Finish(site, ready, 0);
    var page := Child(1);
    assert ready.pending[0] == page && f.pending == Children(t + 1)[1..t];
    LinkToNew(t, lim, f, page, [Child(t + 1)], Children(t + 1)[1..t], 2, t + 2);
    FollowOne(site, lim, f, page, LinkTo(t + 2));
    var b := Fetch(site, lim, ready, 0);
    assert [Child(t + 1)] + [ChildOf(page, Url(t + 2))] == [Child(t + 1), ChildOf(page, Url(t + 2))];
    order, d := QuietPages(t, lim, b, 1, [Child(t + 1), ChildOf(page, Url(t + 2))]);
    OrderedFirst(site, lim, c, 0, order);
    order := [0] + order;
  }

  /** The mixed wave: page t + 2 completes before page t + 1. */
  lemma MixedWave(t: nat, lim: Limits, c: Crawl) returns (d: Crawl)
    requires 2 <= t == lim.tasks && t + 4 < MAX_VISITED && lim.maxPages >= t + 3 && lim.maxDepth >= 2
    requires Looks(c, [Child(t + 1), ChildOf(Child(1), Url(t + 2))], [], t + 1, t + 3)
    ensures Ordered(Fan(t), lim, c, [1]) == Some(d) && Key(t + 3) in d.via && d.via[Key(t + 3)].depth == 3
  {
    hide Ordered, TakeWave, AddLink, FollowAll;
    var site, page := Fan(t), ChildOf(Child(1), Url(t + 2));
    var n := WaveIs(lim, c);
    assert n == 2;
    var ready := Ready(lim, c);
    assert ready.pending == [Child(t + 1), page];
    var f := Finish(site, ready, 1);
    LinkToNew(t, lim, f, page, f.frontier, f.pending, f.pages, t + 3);
    FollowOne(site, lim, f, page, LinkTo(t + 3));
    d := Fetch(site, lim, ready, 1);
    Single(site, lim, c, 1);
  }

  lemma TwoLinksLeadThere(t: nat)
    requires t > 0
    ensures Reached(Fan(t), Url(0), Key(t + 3), 2)
  {
    var site, seed := Fan(t), Url(0);
    assert site.links(seed) == FanLinks(t, seed) && FanLinks(t, seed)[t] == Some(Url(t + 1));
    assert site.links(Url(t + 1)) == FanLinks(t, Url(t + 1));
    assert FanLinks(t, Url(t + 1))[0] == Some(Url(t + 3));
    assert HasLink(site, seed, Url(t + 1)) && HasLink(site, Url(t + 1), Url(t + 3));
    assert LinksTo(site, seed, Key(t + 1)) && LinksTo(site, Url(t + 1), Key(t + 3));
    assert Reached(site, seed, Key(0), 0);
    assert ReachedVia(site, seed, seed, Key(t + 1), 1);
    assert Reached(site, seed, Key(t + 1), 1);
    assert ReachedVia(site, seed, Url(t + 1), Key(t + 3), 2);
  }

  /** Where a wave can reach across two depths, a finished crawl can have recorded a wrong depth. */
  lemma WavesCanOverstate(lim: Limits) returns (order: seq<nat>, end: Crawl)
    requires 1 <= lim.tasks <= 50 && !Narrow(lim)
    ensures var site := Fan(lim.tasks);
      && KeyDecides(site) && NeverPanics(site) && RunsTo(site, lim, Url(0), order, end)
      && Key(lim.tasks + 3) in end.via && end.via[Key(lim.tasks + 3)].depth == 3
      && Reached(site, Url(0), Key(lim.tasks + 3), 2)
  {
    hide Ordered, Looks, RunsTo, Reached;
    var t := lim.tasks;
    var site, start := Fan(t), Start(Fan(t), Url(0));
    var a := SeedFetched(t, lim);
    var more, b := FirstWave(t, lim, a);
    var c := MixedWave(t, lim, b);
    OrderedAppend(site, lim, start, [0], more);
    OrderedAppend(site, lim, start, [0] + more, [1]);
    order, end := EveryCrawlCanFinish(site, lim, Url(0), [0] + more + [1], c);
    TwoLinksLeadThere(t);
  }

  /** The exact condition on the limits under which a crawl is sure to record distances: one page at a time, or fewer
      than two levels, or fewer pages than a mixed wave needs. */
  lemma DistancesExactly(lim: Limits)
    requires 1 <= lim.tasks <= 50
    ensures DistancesAreExact(lim) <==> Narrow(lim)
  {
    hide RunsTo, Reached, KeyDecides, NeverPanics;
    if Narrow(lim) {
      forall site, seed, order, end | KeyDecides(site) && NeverPanics(site) && RunsTo(site, lim, seed, order, end)
        ensures Shortest(site, seed, end)
      {
        EveryOrderFinishes(site, lim, seed, order, end);
        forall k | k in end.via
          ensures forall n: nat :: Reached(site, seed, k, n) ==> end.via[k].depth <= n
        {
          DepthIsDistance(site, lim, seed, order, end, k);
        }
      }
    } else {
      var order, end := WavesCanOverstate(lim);
    }
  }
}
