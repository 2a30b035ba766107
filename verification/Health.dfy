/** The rolling health window: probe outcomes in, a snapshot of rates and latency percentiles out. */
module Health {
  import opened Wrappers
  import opened Resilience

  datatype Sample = Sample(kind: ProbeClass, rtt: nat)

  datatype Stats = Stats(
    total: nat,
    answeredRate: real,
    rateLimitedRate: real,
    serverErrRate: real,
    timeoutDropRate: real,
    rttP50: real,
    rttP95: real,
    latencyInflation: real)

  const EMPTY: Stats := Stats(0, 1.0, 0.0, 0.0, 0.0, 0.0, 0.0, 1.0)

  // ---------------------------------------------------------------------------------------------
  // Nearest-rank percentiles.
  // ---------------------------------------------------------------------------------------------

  predicate IsSorted(s: seq<nat>) {
    forall i, j :: 0 <= i < j < |s| ==> s[i] <= s[j]
  }

  function Insert(s: seq<nat>, x: nat): (r: seq<nat>)
    ensures |r| == |s| + 1
  {
    if s == [] then [x] else if x <= s[0] then [x] + s else [s[0]] + Insert(s[1..], x)
  }

  /** The ascending rearrangement of `s`. */
  function Sorted(s: seq<nat>): (r: seq<nat>)
    ensures |r| == |s|
  {
    if s == [] then [] else Insert(Sorted(s[1..]), s[0])
  }

  lemma PutInFront(x: nat, s: seq<nat>)
    requires IsSorted(s) && forall y :: y in s ==> x <= y
    ensures IsSorted([x] + s)
  {
    forall i, j | 0 <= i < j < |[x] + s|
      ensures ([x] + s)[i] <= ([x] + s)[j]
    {
      assert ([x] + s)[j] == s[j - 1] && s[j - 1] in s;
    }
  }

  lemma {:induction false} InsertKeeps(s: seq<nat>, x: nat)
    ensures multiset(Insert(s, x)) == multiset(s) + multiset{x}
  {
    if s != [] && x > s[0] {
      InsertKeeps(s[1..], x);
      assert Insert(s, x) == [s[0]] + Insert(s[1..], x);
      assert multiset([s[0]] + Insert(s[1..], x)) == multiset{s[0]} + multiset(Insert(s[1..], x));
      assert s == [s[0]] + s[1..];
      assert multiset(s) == multiset{s[0]} + multiset(s[1..]);
    }
  }

  lemma {:induction false} InsertIsSorted(s: seq<nat>, x: nat)
    requires IsSorted(s)
    ensures IsSorted(Insert(s, x)) && multiset(Insert(s, x)) == multiset(s) + multiset{x}
  {
    InsertKeeps(s, x);
    if s != [] {
      if x <= s[0] {
        PutInFront(x, s);
      } else {
        InsertIsSorted(s[1..], x);
        InsertAbove(s[1..], x, s[0]);
        PutInFront(s[0], Insert(s[1..], x));
      }
    }
  }

  lemma {:induction false} InsertAbove(s: seq<nat>, x: nat, lo: nat)
    requires lo <= x && forall i :: 0 <= i < |s| ==> lo <= s[i]
    ensures forall y :: y in Insert(s, x) ==> lo <= y
  {
    if s != [] && x > s[0] {
      InsertAbove(s[1..], x, lo);
    }
  }

  lemma {:induction false} SortedIsSorted(s: seq<nat>)
    ensures IsSorted(Sorted(s)) && multiset(Sorted(s)) == multiset(s)
  {
    if s != [] {
      SortedIsSorted(s[1..]);
      InsertIsSorted(Sorted(s[1..]), s[0]);
      assert s == [s[0]] + s[1..];
    }
  }

  function Round(x: real): int {
    (x + 0.5).Floor
  }

  function Clamp01(x: real): (r: real)
    ensures 0.0 <= r <= 1.0
  {
    if x < 0.0 then 0.0 else if x > 1.0 then 1.0 else x
  }

  /** The rank of the percentile `q` among `n` values. */
  function RankOf(n: nat, q: real): (i: nat)
    requires n > 0
    ensures i < n
  {
    Round((n - 1) as real * Clamp01(q))
  }

  function Percentile(s: seq<nat>, q: real): real {
    if s == [] then 0.0 else Sorted(s)[RankOf(|s|, q)] as real
  }

  function CountLess(s: seq<nat>, v: nat): nat {
    if s == [] then 0 else (if s[0] < v then 1 else 0) + CountLess(s[1..], v)
  }

  lemma {:induction false} CountLessInsert(s: seq<nat>, x: nat, v: nat)
    ensures CountLess(Insert(s, x), v) == CountLess(s, v) + if x < v then 1 else 0
  {
    if s == [] {
      assert CountLess([x][1..], v) == 0;
    } else if x <= s[0] {
      assert ([x] + s)[1..] == s;
    } else {
      CountLessInsert(s[1..], x, v);
      assert ([s[0]] + Insert(s[1..], x))[1..] == Insert(s[1..], x);
    }
  }

  lemma {:induction false} CountLessSorted(s: seq<nat>, v: nat)
    ensures CountLess(Sorted(s), v) == CountLess(s, v)
  {
    if s != [] {
      CountLessSorted(s[1..], v);
      CountLessInsert(Sorted(s[1..]), s[0], v);
    }
  }

  lemma {:induction false} CountLessAt(s: seq<nat>, i: nat, v: nat)
    requires IsSorted(s) && i < |s|
    ensures s[i] >= v ==> CountLess(s, v) <= i
    ensures s[i] < v ==> CountLess(s, v) > i
  {
    if s[0] >= v {
      AllAbove(s, v);
    } else if i > 0 {
      assert forall j :: 0 <= j < |s[1..]| ==> s[1..][j] == s[j + 1];
      CountLessAt(s[1..], i - 1, v);
    }
  }

  lemma {:induction false} AllAbove(s: seq<nat>, v: nat)
    requires forall i :: 0 <= i < |s| ==> s[i] >= v
    ensures CountLess(s, v) == 0
  {
    if s != [] {
      AllAbove(s[1..], v);
    }
  }

  /** `i` is the whole number nearest to `x`, the larger one of two. */
  predicate IsNearest(i: int, x: real) {
    i as real - 0.5 <= x < i as real + 0.5
  }

  lemma RankIsNearest(n: nat, q: real)
    requires n > 0 && 0.0 <= q <= 1.0
    ensures IsNearest(RankOf(n, q), q * (n - 1) as real)
    ensures forall q': real :: q' < 0.0 ==> RankOf(n, q') == 0
    ensures forall q': real :: q' > 1.0 ==> RankOf(n, q') == n - 1
  {
    var x := (n - 1) as real * Clamp01(q);
    assert x == q * (n - 1) as real;
    RoundIsNearest(x);
  }

  lemma RoundIsNearest(x: real)
    ensures IsNearest(Round(x), x)
  {
  }

  /** The percentile is a recorded value of the rank nearest to the fraction `q` of the way from the first to the last:
      at most `rank` values are below it, and more than `rank` are not above it. */
  lemma PercentileHasRank(s: seq<nat>, q: real) returns (x: nat, rank: nat)
    requires s != [] && 0.0 <= q <= 1.0
    ensures x in s && Percentile(s, q) == x as real
    ensures IsNearest(rank, q * (|s| - 1) as real)
    ensures CountLess(s, x) <= rank < CountLess(s, x + 1)
  {
    hide Sorted, CountLess, RankOf, Percentile;
    RankIsNearest(|s|, q);
    rank := RankOf(|s|, q);
    x := ValueHasRank(s, q);
  }

  lemma ValueHasRank(s: seq<nat>, q: real) returns (x: nat)
    requires s != []
    ensures x in s && Percentile(s, q) == x as real
    ensures CountLess(s, x) <= RankOf(|s|, q) < CountLess(s, x + 1)
  {
    hide Sorted, CountLess, RankOf;
    SortedIsSorted(s);
    var r, i := Sorted(s), RankOf(|s|, q);
    x := r[i];
    assert x in multiset(r);
    assert x in s;
    CountLessAt(r, i, x);
    CountLessAt(r, i, x + 1);
    CountLessSorted(s, x);
    CountLessSorted(s, x + 1);
  }

  lemma ScaledGrows(a: real, x: real, y: real)
    requires a >= 0.0 && x <= y
    ensures a * x <= a * y
  {
  }

  lemma RoundGrows(x: real, y: real)
    requires x <= y
    ensures Round(x) <= Round(y)
  {
  }

  lemma RankGrows(n: nat, q: real, q': real)
    requires n > 0 && q <= q'
    ensures RankOf(n, q) <= RankOf(n, q')
  {
    var a, x, y := (n - 1) as real, Clamp01(q), Clamp01(q');
    assert x <= y;
    hide Clamp01, Round;
    ScaledGrows(a, x, y);
    RoundGrows(a * x, a * y);
  }

  lemma PercentileGrows(s: seq<nat>, q: real, q': real)
    requires q <= q'
    ensures Percentile(s, q) <= Percentile(s, q')
  {
    if s != [] {
      hide RankOf, Sorted;
      RankGrows(|s|, q, q');
      SortedIsSorted(s);
      var r, i, j := Sorted(s), RankOf(|s|, q), RankOf(|s|, q');
      assert i < j ==> r[i] <= r[j];
    }
  }

  // ---------------------------------------------------------------------------------------------
  // The snapshot of a window.
  // ---------------------------------------------------------------------------------------------

  function CountKinds(buf: seq<Sample>, kinds: set<ProbeClass>): nat {
    if buf == [] then 0 else (if buf[0].kind in kinds then 1 else 0) + CountKinds(buf[1..], kinds)
  }

  function Rtts(buf: seq<Sample>): (r: seq<nat>)
    ensures |r| == |buf| && forall i :: 0 <= i < |buf| ==> r[i] == buf[i].rtt
  {
    seq(|buf|, i requires 0 <= i < |buf| => buf[i].rtt)
  }

  function Fraction(buf: seq<Sample>, kinds: set<ProbeClass>): real
    requires buf != []
  {
    CountKinds(buf, kinds) as real / |buf| as real
  }

  const ANSWERS: set<ProbeClass> := {Success, NotFound}
  const DROPS: set<ProbeClass> := {Timeout, ConnError}

  function Snapshot(buf: seq<Sample>, baseline: Option<real>): Stats {
    if buf == [] then EMPTY
    else
      var p95 := Percentile(Rtts(buf), 0.95);
      Stats(|buf|,
            Fraction(buf, ANSWERS), Fraction(buf, {RateLimited}), Fraction(buf, {ServerError}), Fraction(buf, DROPS),
            Percentile(Rtts(buf), 0.50), p95,
            if baseline.Some? && baseline.value > 0.0 then p95 / baseline.value else 1.0)
  }

  lemma OneOfFour(k: ProbeClass)
    ensures (if k in ANSWERS then 1 else 0) + (if k in {RateLimited} then 1 else 0)
      + (if k in {ServerError} then 1 else 0)
            + (if k in DROPS then 1 else 0) == 1
  {
    assert ANSWERS == {Success, NotFound} && DROPS == {Timeout, ConnError};
  }

  lemma {:induction false} KindsPartition(buf: seq<Sample>)
    ensures CountKinds(buf, ANSWERS) + CountKinds(buf, {RateLimited}) + CountKinds(buf, {ServerError})
            + CountKinds(buf, DROPS) == |buf|
  {
    if buf != [] {
      KindsPartition(buf[1..]);
      OneOfFour(buf[0].kind);
    }
  }

  lemma SumOfFractions(a: nat, b: nat, c: nat, d: nat, n: nat)
    requires n > 0 && a + b + c + d == n
    ensures a as real / n as real + b as real / n as real + c as real / n as real + d as real / n as real == 1.0
  {
    var m := n as real;
    assert a as real / m + b as real / m + c as real / m + d as real / m
           == (a as real + b as real + c as real + d as real) / m;
  }

  /** The four fractions sum to one, the median is at most the 95th percentile, and both are recorded times. */
  lemma SnapshotIsSound(buf: seq<Sample>, baseline: Option<real>)
    requires buf != []
    ensures var s := Snapshot(buf, baseline);
      && s.total == |buf|
      && s.answeredRate + s.rateLimitedRate + s.serverErrRate + s.timeoutDropRate == 1.0
      && s.rttP50 <= s.rttP95
      && (exists i :: 0 <= i < |buf| && s.rttP50 == buf[i].rtt as real)
      && (exists i :: 0 <= i < |buf| && s.rttP95 == buf[i].rtt as real)
  {
    KindsPartition(buf);
    SumOfFractions(CountKinds(buf, ANSWERS), CountKinds(buf, {RateLimited}), CountKinds(buf, {ServerError}),
                   CountKinds(buf, DROPS), |buf|);
    PercentileGrows(Rtts(buf), 0.50, 0.95);
    RecordedPercentile(buf, 0.50);
    RecordedPercentile(buf, 0.95);
  }

  lemma RecordedPercentile(buf: seq<Sample>, q: real)
    requires buf != []
    ensures exists i :: 0 <= i < |buf| && Percentile(Rtts(buf), q) == buf[i].rtt as real
  {
    var x := ValueHasRank(Rtts(buf), q);
    var i :| 0 <= i < |buf| && Rtts(buf)[i] == x;
    assert Percentile(Rtts(buf), q) == buf[i].rtt as real;
  }

  /** Where the samples of these kinds are. */
  function Those(buf: seq<Sample>, kinds: set<ProbeClass>): set<nat> {
    set i: nat | i < |buf| && buf[i].kind in kinds
  }

  lemma {:induction false} CountIsCard(buf: seq<Sample>, kinds: set<ProbeClass>)
    ensures CountKinds(buf, kinds) == |Those(buf, kinds)|
    decreases |buf|
  {
    if buf == [] {
      assert Those(buf, kinds) == {};
    } else {
      var front, last := buf[..|buf| - 1], |buf| - 1;
      assert buf == front + [buf[last]];
      CountIsCard(front, kinds);
      CountAppend(front, buf[last], kinds);
      assert Those(buf, kinds) == Those(front, kinds) + if buf[last].kind in kinds then {last} else {};
    }
  }

  lemma {:induction false} CountAppend(buf: seq<Sample>, x: Sample, kinds: set<ProbeClass>)
    ensures CountKinds(buf + [x], kinds) == CountKinds(buf, kinds) + if x.kind in kinds then 1 else 0
  {
    if buf != [] {
      assert (buf + [x])[1..] == buf[1..] + [x];
      CountAppend(buf[1..], x, kinds);
    } else {
      assert (buf + [x])[1..] == [];
    }
  }

  lemma FractionTimes(buf: seq<Sample>, kinds: set<ProbeClass>)
    requires buf != []
    ensures Fraction(buf, kinds) * |buf| as real == |Those(buf, kinds)| as real
  {
    hide CountKinds;
    CountIsCard(buf, kinds);
    Undivided(CountKinds(buf, kinds) as real, |buf| as real);
  }

  lemma Undivided(x: real, n: real)
    requires n > 0.0
    ensures x / n * n == x
  {
  }

  /** Of an empty window all is well. */
  lemma NothingIsWell(baseline: Option<real>)
    ensures var s := Snapshot([], baseline);
      && s.total == 0 && s.answeredRate == 1.0 && s.rateLimitedRate == s.serverErrRate == s.timeoutDropRate == 0.0
      && s.rttP50 == s.rttP95 == 0.0 && s.latencyInflation == 1.0
  {
  }

  /** What each figure of a snapshot counts or measures. */
  lemma SnapshotFigures(buf: seq<Sample>, baseline: Option<real>)
    requires buf != []
    ensures var s, n := Snapshot(buf, baseline), |buf| as real;
      && s.answeredRate * n == |Those(buf, {Success, NotFound})| as real
      && s.rateLimitedRate * n == |Those(buf, {RateLimited})| as real
      && s.serverErrRate * n == |Those(buf, {ServerError})| as real
      && s.timeoutDropRate * n == |Those(buf, {Timeout, ConnError})| as real
      && s.rttP50 == Percentile(Rtts(buf), 0.5) && s.rttP95 == Percentile(Rtts(buf), 0.95)
      && (baseline.None? || baseline.value <= 0.0 ==> s.latencyInflation == 1.0)
      && (baseline.Some? && baseline.value > 0.0 ==> s.latencyInflation * baseline.value == s.rttP95)
  {
    hide Fraction, Percentile;
    FractionTimes(buf, {Success, NotFound});
    FractionTimes(buf, {RateLimited});
    FractionTimes(buf, {ServerError});
    FractionTimes(buf, {Timeout, ConnError});
    if baseline.Some? && baseline.value > 0.0 {
      Undivided(Percentile(Rtts(buf), 0.95), baseline.value);
    }
  }

  // ---------------------------------------------------------------------------------------------
  // The window over a whole history.
  // ---------------------------------------------------------------------------------------------

  /** The last `cap` outcomes of a history. */
  function Last(history: seq<Sample>, cap: nat): seq<Sample> {
    if |history| <= cap then history else history[|history| - cap..]
  }

  /** The round-trip times of the answered outcomes. */
  function Answered(history: seq<Sample>): (r: seq<nat>)
    ensures |r| <= |history|
  {
    if history == [] then []
    else
      var last := history[|history| - 1];
      Answered(history[..|history| - 1]) + if last.kind.Answered() then [last.rtt] else []
  }

  function AtLeastOne(x: real): real {
    if x < 1.0 then 1.0 else x
  }

  /** The latency baseline: fixed by the first `k` answered outcomes. */
  function Baseline(history: seq<Sample>, k: nat): Option<real> {
    var answered := Answered(history);
    if |answered| < k then None else Some(AtLeastOne(Percentile(answered[..k], 0.95)))
  }

  lemma {:induction false} AnsweredSplits(a: seq<Sample>, b: seq<Sample>)
    ensures Answered(a + b) == Answered(a) + Answered(b)
  {
    if b == [] {
      assert a + b == a;
    } else {
      var init, last := b[..|b| - 1], b[|b| - 1];
      assert (a + b)[..|a + b| - 1] == a + init;
      AnsweredSplits(a, init);
    }
  }

  /** Once there is a baseline, nothing that happens later changes it. */
  lemma BaselineIsFixed(history: seq<Sample>, more: seq<Sample>, k: nat)
    requires Baseline(history, k).Some?
    ensures Baseline(history + more, k) == Baseline(history, k)
  {
    AnsweredSplits(history, more);
    assert (Answered(history) + Answered(more))[..k] == Answered(history)[..k];
  }

  /** The baseline is at least one, and otherwise one of the first `k` answered times, of the rank nearest to 95% of the
      way from the first to the last. */
  lemma BaselineIsHigh(history: seq<Sample>, k: nat) returns (x: nat, rank: nat)
    requires k > 0 && Baseline(history, k).Some?
    ensures var a := FirstAnswers(history, k);
      && |a| == k && x in a && IsNearest(rank, 0.95 * (k - 1) as real)
      && CountLess(a, x) <= rank < CountLess(a, x + 1)
      && Baseline(history, k).value == if x == 0 then 1.0 else x as real
  {
    hide Percentile, IsNearest, CountLess, Answered;
    var a := Answered(history);
    assert |a| == k ==> a[..k] == a;
    assert FirstAnswers(history, k) == a[..k];
    x, rank := PercentileHasRank(FirstAnswers(history, k), 0.95);
  }

  /** The first `k` answered round-trip times, or as many as there are. */
  function FirstAnswers(history: seq<Sample>, k: nat): seq<nat> {
    if |Answered(history)| <= k then Answered(history) else Answered(history)[..k]
  }

  lemma WarmUpStep(history: seq<Sample>, kind: ProbeClass, rtt: nat, k: nat)
    requires k > 0
    ensures var w, after := FirstAnswers(history, k), history + [Sample(kind, rtt)];
      if Baseline(history, k).None? && kind.Answered() then
        && FirstAnswers(after, k) == w + [rtt]
        && Baseline(after, k) == if |w + [rtt]| >= k then Some(AtLeastOne(Percentile(w + [rtt], 0.95))) else None
      else FirstAnswers(after, k) == w && Baseline(after, k) == Baseline(history, k)
  {
    hide Percentile, Answered;
    var a := Answered(history);
    AnsweredOne(history, kind, rtt);
    if kind.Answered() {
      assert |a| >= k ==> (a + [rtt])[..k] == a[..k];
      assert |a| < k ==> (a + [rtt])[..|a| + 1] == a + [rtt];
      assert |a| == k ==> a[..k] == a;
    }
  }

  lemma AnsweredOne(history: seq<Sample>, kind: ProbeClass, rtt: nat)
    ensures Answered(history + [Sample(kind, rtt)]) == Answered(history) + if kind.Answered() then [rtt] else []
  {
    assert (history + [Sample(kind, rtt)])[..|history|] == history;
  }

  lemma LastSlides(history: seq<Sample>, x: Sample, cap: nat)
    requires cap > 0
    ensures var was := Last(history, cap);
      Last(history + [x], cap) == (if |was| >= cap then was[1..] else was) + [x]
  {
  }

  class HealthWindow {
    const cap: nat
    const warmupK: nat
    var buf: seq<Sample>
    var warmupRtts: seq<nat>
    var baseline: Option<real>
    ghost var history: seq<Sample>

    /** The window, the warm-up sample and the baseline are what the whole history says they are. */
    ghost predicate Valid()
      reads this
    {
      && cap > 0 && warmupK > 0
      && buf == Last(history, cap)
      && baseline == Baseline(history, warmupK)
      && warmupRtts == FirstAnswers(history, warmupK)
    }

    constructor (cap: nat, warmupK: nat)
      ensures Valid() && history == [] && this.cap == (if cap < 1 then 1 else cap)
      ensures this.warmupK == if warmupK < 1 then 1 else warmupK
    {
      this.cap := if cap < 1 then 1 else cap;
      this.warmupK := if warmupK < 1 then 1 else warmupK;
      buf, warmupRtts, baseline, history := [], [], None, [];
    }

    method Record(kind: ProbeClass, rtt: nat)
      requires Valid()
      modifies this
      ensures Valid() && history == old(history) + [Sample(kind, rtt)]
    {
      hide Percentile, Answered, FirstAnswers, Baseline, Last;
      WarmUpStep(history, kind, rtt, warmupK);
      LastSlides(history, Sample(kind, rtt), cap);
      if baseline.None? && kind.Answered() {
        warmupRtts := warmupRtts + [rtt];
        if |warmupRtts| >= warmupK {
          baseline := Some(AtLeastOne(Percentile(warmupRtts, 0.95)));
        }
      }
      if |buf| >= cap {
        buf := buf[1..];
      }
      buf := buf + [Sample(kind, rtt)];
      history := history + [Sample(kind, rtt)];
    }

    method TakeStats() returns (s: Stats)
      requires Valid()
      ensures s == Snapshot(buf, baseline)
    {
      var total := |buf|;
      if total == 0 {
        return EMPTY;
      }
      hide CountKinds, Percentile;
      var rl, se, to, answered, rtts := Tally();
      var t := total as real;
      var p50 := Percentile(rtts, 0.50);
      var p95 := Percentile(rtts, 0.95);
      var inflation := if baseline.Some? && baseline.value > 0.0 then p95 / baseline.value else 1.0;
      s := Stats(total, answered as real / t, rl as real / t, se as real / t, to as real / t, p50, p95, inflation);
    }

    /** The counting loop of a snapshot. */
    method Tally() returns (rl: nat, se: nat, to: nat, answered: nat, rtts: seq<nat>)
      ensures rl == CountKinds(buf, {RateLimited}) && se == CountKinds(buf, {ServerError})
      ensures to == CountKinds(buf, DROPS) && answered == CountKinds(buf, ANSWERS)
      ensures rtts == Rtts(buf)
    {
      hide CountKinds;
      rl, se, to, answered, rtts := 0, 0, 0, 0, [];
      var i := 0;
      assert buf[0..] == buf;
      while i < |buf|
        invariant 0 <= i <= |buf|
        invariant rl + CountKinds(buf[i..], {RateLimited}) == CountKinds(buf, {RateLimited})
        invariant se + CountKinds(buf[i..], {ServerError}) == CountKinds(buf, {ServerError})
        invariant to + CountKinds(buf[i..], DROPS) == CountKinds(buf, DROPS)
        invariant answered + CountKinds(buf[i..], ANSWERS) == CountKinds(buf, ANSWERS)
        invariant rtts == Rtts(buf)[..i]
      {
        CountFrom(buf, i, {RateLimited});
        CountFrom(buf, i, {ServerError});
        CountFrom(buf, i, DROPS);
        CountFrom(buf, i, ANSWERS);
        match buf[i].kind {
          case RateLimited => rl := rl + 1;
          case ServerError => se := se + 1;
          case Timeout => to := to + 1;
          case ConnError => to := to + 1;
          case _ =>
        }
        if buf[i].kind.Answered() {
          answered := answered + 1;
        }
        rtts := rtts + [buf[i].rtt];
        i := i + 1;
      }
      CountNone({RateLimited});
      CountNone({ServerError});
      CountNone(DROPS);
      CountNone(ANSWERS);
      assert buf[i..] == [] && Rtts(buf)[..i] == Rtts(buf);
    }
  }

  lemma CountFrom(buf: seq<Sample>, i: nat, kinds: set<ProbeClass>)
    requires i < |buf|
    ensures CountKinds(buf[i..], kinds) == (if buf[i].kind in kinds then 1 else 0) + CountKinds(buf[i + 1..], kinds)
  {
    assert buf[i..][1..] == buf[i + 1..];
  }

  lemma CountNone(kinds: set<ProbeClass>)
    ensures CountKinds([], kinds) == 0
  {
  }
}
