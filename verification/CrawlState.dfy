/**
 The state of a crawl and what every step keeps: which pages are known, which wait, which were
 reported, and how far from the seed they are.
 */
module CrawlState {
  import opened Wrappers

  datatype Url = Url(id: nat)
  datatype Key = Key(id: nat)

  /** What the crawler can see of the web. `links(u)` are the raw links of page `u`, resolved, or `None` for those
      that do not resolve or are out of scope; `key` is the dedup key; fetching a page for which `panics` holds is
      lost. */
  datatype Site = Site(
    key: Url -> Key,
    isStatic: Url -> bool,
    isTrackable: Url -> bool,
    links: Url -> seq<Option<Url>>,
    panics: Url -> bool)

  datatype Limits = Limits(maxPages: nat, maxDepth: nat, tasks: nat, captureStatic: bool)

  const MAX_VISITED: nat := 20_000

  /** A page to crawl or reported: its URL, its depth, and the page it was discovered from. */
  datatype Entry = Entry(url: Url, depth: nat, parent: Option<Url>)

  datatype Event = Fetched(entry: Entry) | Candidate(entry: Entry)

  /** `pending` are the pages of the current wave still being fetched. `lost` (fetches that panicked) and `via` (the
      entry that first claimed each key) are history. */
  datatype Crawl = Crawl(
    visited: set<Key>,
    frontier: seq<Entry>,
    pending: seq<Entry>,
    events: seq<Event>,
    pages: nat,
    lost: seq<Entry>,
    via: map<Key, Entry>)

  function SeedEntry(seed: Url): Entry {
    Entry(seed, 0, None)
  }

  function Start(site: Site, seed: Url): Crawl {
    Crawl({site.key(seed)}, [SeedEntry(seed)], [], [], 0, [], map[site.key(seed) := SeedEntry(seed)])
  }

  // ---------------------------------------------------------------------------------------------
  // The steps.
  // ---------------------------------------------------------------------------------------------

  /** Moving the first waiting page into the wave. */
  function Pop(c: Crawl): Crawl
    requires c.frontier != []
  {
    c.(frontier := c.frontier[1..], pending := c.pending + [c.frontier[0]])
  }

  function Without<T>(s: seq<T>, i: nat): seq<T>
    requires i < |s|
  {
    s[..i] + s[i + 1..]
  }

  /** The fetch of the `i`-th pending page completes. */
  function Finish(site: Site, c: Crawl, i: nat): Crawl
    requires i < |c.pending|
  {
    var e := c.pending[i];
    var rest := c.(pending := Without(c.pending, i));
    if site.panics(e.url) then rest.(lost := c.lost + [e])
    else rest.(events := c.events + [Fetched(e)], pages := c.pages + 1)
  }

  /** A raw link that changes nothing: the cap on known pages is reached, it is out of scope, or already known. */
  predicate Ignored(site: Site, c: Crawl, raw: Option<Url>) {
    |c.visited| >= MAX_VISITED || raw.None? || site.key(raw.value) in c.visited
  }

  /** A page not known before. */
  function AddPage(site: Site, lim: Limits, c: Crawl, child: Entry): Crawl {
    var k := site.key(child.url);
    var known := c.(visited := c.visited + {k}, via := c.via[k := child]);
    if site.isStatic(child.url) then
      if lim.captureStatic && site.isTrackable(child.url) then known.(events := c.events + [Candidate(child)])
      else known
    else if child.depth <= lim.maxDepth then known.(frontier := c.frontier + [child])
    else known.(events := c.events + [Candidate(child)])
  }

  function ChildOf(page: Entry, u: Url): Entry {
    Entry(u, page.depth + 1, Some(page.url))
  }

  /** One raw link of the fetched page `page`. */
  function AddLink(site: Site, lim: Limits, c: Crawl, page: Entry, raw: Option<Url>): Crawl {
    if Ignored(site, c, raw) then c else AddPage(site, lim, c, ChildOf(page, raw.value))
  }

  /** After the crawl, a page still waiting is reported unfetched. */
  function Drain(c: Crawl): Crawl
    requires c.frontier != []
  {
    c.(frontier := c.frontier[1..], events := c.events + [Candidate(c.frontier[0])])
  }

  // ---------------------------------------------------------------------------------------------
  // The crawl as a function of the order in which fetches complete.
  // ---------------------------------------------------------------------------------------------

  predicate WaveGoesOn(lim: Limits, c: Crawl) {
    |c.pending| < lim.tasks && c.pages + |c.pending| < lim.maxPages && c.frontier != []
  }

  /** Moving waiting pages into the wave, up to its width and the page budget. */
  function TakeWave(lim: Limits, c: Crawl): Crawl
    decreases |c.frontier|
  {
    if WaveGoesOn(lim, c) then TakeWave(lim, Pop(c)) else c
  }

  function FollowAll(site: Site, lim: Limits, c: Crawl, page: Entry, raws: seq<Option<Url>>): Crawl
    decreases |raws|
  {
    if raws == [] then c else FollowAll(site, lim, AddLink(site, lim, c, page, raws[0]), page, raws[1..])
  }

  /** The fetch of the `i`-th page of the wave completes and its links are followed. */
  function Fetch(site: Site, lim: Limits, c: Crawl, i: nat): Crawl
    requires i < |c.pending|
  {
    var e := c.pending[i];
    var finished := Finish(site, c, i);
    if site.panics(e.url) then finished else FollowAll(site, lim, finished, e, site.links(e.url))
  }

  function Ready(lim: Limits, c: Crawl): Crawl {
    if c.pending == [] then TakeWave(lim, c) else c
  }

  /** The crawl in which fetches complete in the given order, each number being a position in the wave at that time. */
  function Ordered(site: Site, lim: Limits, c: Crawl, order: seq<nat>): Option<Crawl>
    decreases |order|
  {
    if order == [] then Some(c)
    else
      var ready := Ready(lim, c);
      if order[0] >= |ready.pending| then None else Ordered(site, lim, Fetch(site, lim, ready, order[0]), order[1..])
  }

  function DrainAll(c: Crawl): Crawl
    decreases |c.frontier|
  {
    if c.frontier == [] then c else DrainAll(Drain(c))
  }

  /** The crawl runs to `end` when fetches complete in the given order. */
  ghost predicate RunsTo(site: Site, lim: Limits, seed: Url, order: seq<nat>, end: Crawl) {
    var last := Ordered(site, lim, Start(site, seed), order);
    && last.Some? && last.value.pending == []
    && (last.value.frontier == [] || last.value.pages >= lim.maxPages)
    && end == DrainAll(last.value)
  }

  lemma FollowFirst(site: Site, lim: Limits, c: Crawl, page: Entry, raw: Option<Url>, rest: seq<Option<Url>>)
    ensures FollowAll(site, lim, c, page, [raw] + rest)
      == FollowAll(site, lim, AddLink(site, lim, c, page, raw), page, rest)
  {
    assert ([raw] + rest)[1..] == rest;
  }

  lemma FollowNext(site: Site, lim: Limits, c: Crawl, page: Entry, raws: seq<Option<Url>>, j: nat)
    requires j < |raws|
    ensures FollowAll(site, lim, c, page, raws[j..])
            == FollowAll(site, lim, AddLink(site, lim, c, page, raws[j]), page, raws[j + 1..])
  {
    hide AddLink, FollowAll;
    assert raws[j..] == [raws[j]] + raws[j + 1..];
    FollowFirst(site, lim, c, page, raws[j], raws[j + 1..]);
  }

  /** Once the cap on known pages is reached, links change nothing. */
  lemma {:induction false} CapStops(site: Site, lim: Limits, c: Crawl, page: Entry, raws: seq<Option<Url>>)
    requires |c.visited| >= MAX_VISITED
    ensures FollowAll(site, lim, c, page, raws) == c
    decreases |raws|
  {
    hide AddPage;
    if raws != [] {
      CapStops(site, lim, c, page, raws[1..]);
    }
  }

  /** One more completion. */
  lemma OrderedFirst(site: Site, lim: Limits, c: Crawl, i: nat, rest: seq<nat>)
    requires i < |Ready(lim, c).pending|
    ensures Ordered(site, lim, c, [i] + rest) == Ordered(site, lim, Fetch(site, lim, Ready(lim, c), i), rest)
  {
    assert ([i] + rest)[1..] == rest;
  }

  lemma {:induction false} OrderedLast(site: Site, lim: Limits, c: Crawl, order: seq<nat>, i: nat)
    requires Ordered(site, lim, c, order).Some? && i < |Ready(lim, Ordered(site, lim, c, order).value).pending|
    ensures var q := Ordered(site, lim, c, order).value;
      Ordered(site, lim, c, order + [i]) == Some(Fetch(site, lim, Ready(lim, q), i))
    decreases |order|
  {
    hide Ready, Fetch;
    if order == [] {
      assert order + [i] == [i] + [];
      OrderedFirst(site, lim, c, i, []);
    } else {
      assert (order + [i])[0] == order[0] && (order + [i])[1..] == order[1..] + [i];
      OrderedLast(site, lim, Fetch(site, lim, Ready(lim, c), order[0]), order[1..], i);
    }
  }

  lemma TakeStep(lim: Limits, c: Crawl)
    ensures WaveGoesOn(lim, c) ==> TakeWave(lim, Pop(c)) == TakeWave(lim, c)
    ensures !WaveGoesOn(lim, c) ==> TakeWave(lim, c) == c
  {
  }

  lemma DrainStep(c: Crawl)
    ensures c.frontier != [] ==> DrainAll(Drain(c)) == DrainAll(c)
    ensures c.frontier == [] ==> DrainAll(c) == c
  {
  }

  // ---------------------------------------------------------------------------------------------
  // Accounting: every known page is in exactly one place.
  // ---------------------------------------------------------------------------------------------

  function Count(es: seq<Entry>, e: Entry): nat {
    multiset(es)[e]
  }

  function EventCount(events: seq<Event>, e: Entry): nat {
    if events == [] then 0
    else EventCount(events[..|events| - 1], e) + if events[|events| - 1].entry == e then 1 else 0
  }

  /** In how many places `e` is: waiting, in flight, reported, lost. */
  function Places(c: Crawl, e: Entry): nat {
    Count(c.frontier, e) + Count(c.pending, e) + EventCount(c.events, e) + Count(c.lost, e)
  }

  /** `e` is the entry that claimed its key. */
  predicate Claims(site: Site, c: Crawl, e: Entry) {
    site.key(e.url) in c.via && c.via[site.key(e.url)] == e
  }

  /** Static assets are reported only if capturing is on and they are trackable; the seed always counts as a page. */
  predicate Shown(site: Site, lim: Limits, e: Entry) {
    e.parent.None? || !site.isStatic(e.url) || (lim.captureStatic && site.isTrackable(e.url))
  }

  predicate IsPage(site: Site, e: Entry) {
    e.parent.None? || !site.isStatic(e.url)
  }

  predicate HasLink(site: Site, u: Url, v: Url) {
    Some(v) in site.links(u)
  }

  /** The recorded parent of an entry is a fetched page, one link and one level away. */
  predicate Discovered(site: Site, seed: Url, c: Crawl, e: Entry) {
    match e.parent
    case None => e == SeedEntry(seed)
    case Some(p) =>
      && site.key(p) in c.via && c.via[site.key(p)].url == p
      && e.depth == c.via[site.key(p)].depth + 1
      && HasLink(site, p, e.url)
      && Fetched(c.via[site.key(p)]) in c.events
  }

  /** Every known key has a claiming entry that was really discovered. */
  ghost predicate ClaimsInv(site: Site, seed: Url, c: Crawl) {
    && c.via.Keys == c.visited && site.key(seed) in c.via && c.via[site.key(seed)] == SeedEntry(seed)
    && (forall k :: k in c.via ==> site.key(c.via[k].url) == k && Discovered(site, seed, c, c.via[k]))
  }

  /** Every claiming entry that is to be shown is in exactly one place; nothing else is anywhere. */
  ghost predicate PlacesInv(site: Site, lim: Limits, c: Crawl) {
    forall e :: Places(c, e) == if Claims(site, c, e) && Shown(site, lim, e) then 1 else 0
  }

  ghost predicate FlowInv(site: Site, lim: Limits, c: Crawl) {
    && (forall e :: e in c.frontier || e in c.pending ==> IsPage(site, e) && e.depth <= lim.maxDepth)
    && (forall e :: Fetched(e) in c.events ==> !site.panics(e.url) && IsPage(site, e) && e.depth <= lim.maxDepth)
    && |c.visited| <= MAX_VISITED
    && c.pages + |c.pending| <= lim.maxPages
    && c.pages == FetchedCount(c.events)
    && (forall e :: e in c.lost ==> site.panics(e.url))
  }

  ghost predicate Inv(site: Site, lim: Limits, seed: Url, c: Crawl) {
    ClaimsInv(site, seed, c) && PlacesInv(site, lim, c) && FlowInv(site, lim, c)
  }

  function FetchedCount(events: seq<Event>): nat {
    if events == [] then 0
    else FetchedCount(events[..|events| - 1]) + if events[|events| - 1].Fetched? then 1 else 0
  }

  /** Until the final drain, only pages beyond the depth limit and static assets are reported unfetched. */
  ghost predicate CandidatesAreBeyond(site: Site, lim: Limits, c: Crawl) {
    forall e :: Candidate(e) in c.events ==> e.depth > lim.maxDepth || !IsPage(site, e)
  }

  lemma EventAdded(events: seq<Event>, ev: Event, e: Entry)
    ensures EventCount(events + [ev], e) == EventCount(events, e) + if ev.entry == e then 1 else 0
    ensures FetchedCount(events + [ev]) == FetchedCount(events) + if ev.Fetched? then 1 else 0
  {
    assert (events + [ev])[..|events|] == events;
  }

  lemma {:induction false} EventCounted(events: seq<Event>, ev: Event)
    requires ev in events
    ensures EventCount(events, ev.entry) > 0
  {
    var last := |events| - 1;
    if events[last] != ev {
      assert ev in events[..last];
      EventCounted(events[..last], ev);
    }
  }

  lemma {:induction false} CountedEvent(events: seq<Event>, e: Entry)
    requires EventCount(events, e) > 0
    ensures Fetched(e) in events || Candidate(e) in events
  {
    var last := |events| - 1;
    if events[last].entry != e {
      CountedEvent(events[..last], e);
    } else {
      assert events[last] == Fetched(e) || events[last] == Candidate(e);
    }
  }

  lemma CountWithout(s: seq<Entry>, i: nat, e: Entry)
    requires i < |s|
    ensures Count(Without(s, i), e) == Count(s, e) - if s[i] == e then 1 else 0
  {
    assert s == s[..i] + [s[i]] + s[i + 1..];
  }

  lemma StartInv(site: Site, lim: Limits, seed: Url)
    ensures Inv(site, lim, seed, Start(site, seed)) && CandidatesAreBeyond(site, lim, Start(site, seed))
  {
    assert forall e :: Count([SeedEntry(seed)], e) == if e == SeedEntry(seed) then 1 else 0;
  }

  lemma PopInv(site: Site, lim: Limits, seed: Url, c: Crawl)
    requires Inv(site, lim, seed, c) && c.frontier != [] && c.pages + |c.pending| < lim.maxPages
    ensures Inv(site, lim, seed, Pop(c))
  {
    hide ClaimsInv, PlacesInv, FlowInv, Places;
    forall e
      ensures Places(Pop(c), e) == Places(c, e)
    {
      PopPlaces(c, e);
    }
    KeepPlaces(site, lim, seed, c, Pop(c));
    PopFlow(site, lim, c);
  }

  lemma PopPlaces(c: Crawl, e: Entry)
    requires c.frontier != []
    ensures Places(Pop(c), e) == Places(c, e)
  {
    assert c.frontier == [c.frontier[0]] + c.frontier[1..];
  }

  lemma PopFlow(site: Site, lim: Limits, c: Crawl)
    requires FlowInv(site, lim, c) && c.frontier != [] && c.pages + |c.pending| < lim.maxPages
    ensures FlowInv(site, lim, Pop(c))
  {
    assert c.frontier[0] in c.frontier;
    assert forall e :: e in c.frontier[1..] ==> e in c.frontier;
  }

  lemma FinishInv(site: Site, lim: Limits, seed: Url, c: Crawl, i: nat)
    requires Inv(site, lim, seed, c) && i < |c.pending|
    ensures Inv(site, lim, seed, Finish(site, c, i))
  {
    hide ClaimsInv, PlacesInv, FlowInv, Places;
    forall e
      ensures Places(Finish(site, c, i), e) == Places(c, e)
    {
      FinishPlaces(site, c, i, e);
    }
    KeepPlaces(site, lim, seed, c, Finish(site, c, i));
    FinishFlow(site, lim, c, i);
  }

  lemma FinishPlaces(site: Site, c: Crawl, i: nat, e: Entry)
    requires i < |c.pending|
    ensures Places(Finish(site, c, i), e) == Places(c, e)
  {
    hide Without;
    CountWithout(c.pending, i, e);
    EventAdded(c.events, Fetched(c.pending[i]), e);
  }

  lemma FinishFlow(site: Site, lim: Limits, c: Crawl, i: nat)
    requires FlowInv(site, lim, c) && i < |c.pending|
    ensures FlowInv(site, lim, Finish(site, c, i))
  {
    EventAdded(c.events, Fetched(c.pending[i]), c.pending[i]);
    assert c.pending[i] in c.pending;
    forall e | e in Without(c.pending, i)
      ensures e in c.pending
    {
      assert e in c.pending[..i] || e in c.pending[i + 1..];
    }
  }

  lemma DrainInv(site: Site, lim: Limits, seed: Url, c: Crawl)
    requires Inv(site, lim, seed, c) && c.frontier != []
    ensures Inv(site, lim, seed, Drain(c))
  {
    hide ClaimsInv, PlacesInv, FlowInv, Places;
    forall e
      ensures Places(Drain(c), e) == Places(c, e)
    {
      DrainPlaces(c, e);
    }
    KeepPlaces(site, lim, seed, c, Drain(c));
    DrainFlow(site, lim, c);
  }

  lemma DrainPlaces(c: Crawl, e: Entry)
    requires c.frontier != []
    ensures Places(Drain(c), e) == Places(c, e)
  {
    assert c.frontier == [c.frontier[0]] + c.frontier[1..];
    EventAdded(c.events, Candidate(c.frontier[0]), e);
  }

  lemma DrainFlow(site: Site, lim: Limits, c: Crawl)
    requires FlowInv(site, lim, c) && c.frontier != []
    ensures FlowInv(site, lim, Drain(c))
  {
    EventAdded(c.events, Candidate(c.frontier[0]), c.frontier[0]);
    assert forall e :: e in c.frontier[1..] ==> e in c.frontier;
    assert forall e :: Fetched(e) in Drain(c).events ==> Fetched(e) in c.events;
  }

  /** Steps that only move entries from place to place keep the claims. */
  lemma KeepPlaces(site: Site, lim: Limits, seed: Url, c: Crawl, c': Crawl)
    requires Inv(site, lim, seed, c)
    requires c'.via == c.via && c'.visited == c.visited
    requires forall e :: Places(c', e) == Places(c, e)
    requires forall ev :: ev in c.events ==> ev in c'.events
    ensures ClaimsInv(site, seed, c') && PlacesInv(site, lim, c')
  {
    forall k | k in c'.via
      ensures site.key(c'.via[k].url) == k && Discovered(site, seed, c', c'.via[k])
    {
      assert Discovered(site, seed, c, c.via[k]);
    }
    forall e
      ensures Places(c', e) == if Claims(site, c', e) && Shown(site, lim, e) then 1 else 0
    {
      assert Claims(site, c', e) == Claims(site, c, e);
    }
  }

  lemma AddLinkInv(site: Site, lim: Limits, seed: Url, c: Crawl, page: Entry, raw: Option<Url>)
    requires Inv(site, lim, seed, c) && Claims(site, c, page) && Fetched(page) in c.events
      && raw in site.links(page.url)
    ensures Inv(site, lim, seed, AddLink(site, lim, c, page, raw))
    ensures CandidatesAreBeyond(site, lim, c) ==> CandidatesAreBeyond(site, lim, AddLink(site, lim, c, page, raw))
    ensures var c' := AddLink(site, lim, c, page, raw); Claims(site, c', page) && Fetched(page) in c'.events
  {
    hide AddPage, PlacesInv, FlowInv, CandidatesAreBeyond, Discovered, Shown;
    if !Ignored(site, c, raw) {
      var child := ChildOf(page, raw.value);
      var c' := AddPage(site, lim, c, child);
      AddPageClaims(site, lim, c, child);
      NewClaim(site, seed, c, c', page, child);
      AddPagePlaces(site, lim, c, child);
      NewPlace(site, lim, c, c', child);
      AddPageFlow(site, lim, c, child);
    }
  }

  /** A page not yet known gets the entry `child`, discovered on the claimed page `page`. */
  lemma NewClaim(site: Site, seed: Url, c: Crawl, c': Crawl, page: Entry, child: Entry)
    requires ClaimsInv(site, seed, c) && Claims(site, c, page) && Fetched(page) in c.events
    requires site.key(child.url) !in c.visited && forall ev :: ev in c.events ==> ev in c'.events
    requires child == ChildOf(page, child.url) && HasLink(site, page.url, child.url)
    requires c'.via == c.via[site.key(child.url) := child] && c'.visited == c.visited + {site.key(child.url)}
    ensures ClaimsInv(site, seed, c') && Claims(site, c', page) && Claims(site, c', child)
  {
    forall j | j in c'.via
      ensures site.key(c'.via[j].url) == j && Discovered(site, seed, c', c'.via[j])
    {
      if j != site.key(child.url) {
        assert Discovered(site, seed, c, c.via[j]);
      }
    }
  }

  lemma NewPlace(site: Site, lim: Limits, c: Crawl, c': Crawl, child: Entry)
    requires PlacesInv(site, lim, c) && site.key(child.url) !in c.via
    requires c'.via == c.via[site.key(child.url) := child]
    requires forall e :: Places(c', e) == Places(c, e) + if e == child && Shown(site, lim, child) then 1 else 0
    ensures PlacesInv(site, lim, c')
  {
    forall e
      ensures Places(c', e) == if Claims(site, c', e) && Shown(site, lim, e) then 1 else 0
    {
      assert site.key(e.url) != site.key(child.url) ==> Claims(site, c', e) == Claims(site, c, e);
    }
  }

  lemma AddPageClaims(site: Site, lim: Limits, c: Crawl, child: Entry)
    ensures var c' := AddPage(site, lim, c, child);
      && c'.via == c.via[site.key(child.url) := child] && c'.visited == c.visited + {site.key(child.url)}
      && forall ev :: ev in c.events ==> ev in c'.events
  {
  }

  lemma AddPageFlow(site: Site, lim: Limits, c: Crawl, child: Entry)
    requires FlowInv(site, lim, c) && |c.visited| < MAX_VISITED && child.parent.Some?
    ensures FlowInv(site, lim, AddPage(site, lim, c, child))
    ensures CandidatesAreBeyond(site, lim, c) ==> CandidatesAreBeyond(site, lim, AddPage(site, lim, c, child))
  {
    var c' := AddPage(site, lim, c, child);
    if c'.frontier == c.frontier + [child] {
      assert c'.events == c.events;
      assert forall e :: e in c'.frontier ==> e in c.frontier || e == child;
    } else {
      assert c'.frontier == c.frontier;
      EventAdded(c.events, Candidate(child), child);
      assert forall e :: Fetched(e) in c'.events ==> Fetched(e) in c.events;
      assert forall e :: Candidate(e) in c'.events ==> Candidate(e) in c.events || e == child;
    }
  }

  lemma AddPagePlaces(site: Site, lim: Limits, c: Crawl, child: Entry)
    requires child.parent.Some?
    ensures forall e :: Places(AddPage(site, lim, c, child), e)
                        == Places(c, e) + if e == child && Shown(site, lim, child) then 1 else 0
  {
    var c' := AddPage(site, lim, c, child);
    forall e
      ensures Places(c', e) == Places(c, e) + if e == child && Shown(site, lim, child) then 1 else 0
    {
      if site.isStatic(child.url) || child.depth > lim.maxDepth {
        EventAdded(c.events, Candidate(child), e);
      }
    }
  }
}
