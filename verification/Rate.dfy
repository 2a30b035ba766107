/** The rate controller: a health score in, a concurrency and delay directive out. */
module Rate {
  import opened Wrappers
  import opened Arithmetic
  import opened Resilience
  import opened Health

  const HEALTHY_WM: real := 0.75
  const STRESSED_WM: real := 0.50
  const SS_GROWTH: real := 1.5
  const SS_EXIT_FRAC: real := 0.5
  const DELAY_STEP: nat := 100
  const DELAY_RELIEF: nat := 50
  const WEIGHT: real := 0.25
  const RATE_REF: real := 0.10
  const LAT_REF: real := 2.0
  const MIN_SAMPLES: nat := 12

  function Max(x: real, y: real): real {
    if x < y then y else x
  }

  /** One minus the worst of the weighted blend and the hardest single signal. */
  function Combine(rl: real, se: real, to: real, lat: real): (r: real)
    ensures 0.0 <= r <= 1.0
  {
    Clamp01(1.0 - Clamp01(Max(WEIGHT * rl + WEIGHT * se + WEIGHT * to + WEIGHT * lat, Max(Max(rl, se), to))))
  }

  /** The health score. */
  function Score(s: Stats): (r: real)
    ensures 0.0 <= r <= 1.0
  {
    var rl, se := Clamp01(s.rateLimitedRate / RATE_REF), Clamp01(s.serverErrRate / RATE_REF);
    var to := Clamp01(s.timeoutDropRate / RATE_REF);
    var lat := Clamp01(Max(s.latencyInflation - 1.0, 0.0) / LAT_REF);
    Combine(rl, se, to, lat)
  }

  datatype Caps = Caps(minConcurrency: nat, maxConcurrency: nat, maxDelay: nat)

  datatype Controller = Controller(conc: real, delay: nat, slowStart: bool, lastScore: real)

  datatype Directive = Directive(concurrency: nat, delay: nat)

  function OneOrMore(n: nat): nat {
    if n < 1 then 1 else n
  }

  function Lo(caps: Caps): real {
    OneOrMore(caps.minConcurrency) as real
  }

  function Hi(caps: Caps): real {
    OneOrMore(caps.maxConcurrency) as real
  }

  function FromFloor(caps: Caps, startDelay: nat): Controller {
    Controller(Lo(caps), MinNat(startDelay, caps.maxDelay), true, 1.0)
  }

  function AtCeiling(caps: Caps, startDelay: nat): Controller {
    Controller(Hi(caps), MinNat(startDelay, caps.maxDelay), false, 1.0)
  }

  datatype Reaction = Hold | Grow | Neutral | Shrink

  /** How a snapshot is acted on. */
  function React(s: Stats): Reaction {
    if s.total < MIN_SAMPLES then Hold
    else if Score(s) >= HEALTHY_WM then Grow
    else if Score(s) <= STRESSED_WM then Shrink
    else Neutral
  }

  /** The clamp of a floating-point value panics unless the bounds are in order. */
  function Tick(caps: Caps, c: Controller, s: Stats): Controller
    requires Lo(caps) <= Hi(caps)
  {
    var c := c.(lastScore := Score(s));
    match React(s)
    case Hold => c
    case Grow =>
      var conc := if c.slowStart then c.conc * SS_GROWTH else c.conc + 1.0;
      Controller(ClampReal(conc, Lo(caps), Hi(caps)), if c.delay < DELAY_RELIEF then 0 else c.delay - DELAY_RELIEF,
                 c.slowStart && conc < caps.maxConcurrency as real * SS_EXIT_FRAC, c.lastScore)
    case Shrink =>
      Controller(ClampReal(c.conc * 0.5, Lo(caps), Hi(caps)), MinNat(c.delay + DELAY_STEP, caps.maxDelay), false,
        c.lastScore)
    case Neutral => c.(conc := ClampReal(c.conc, Lo(caps), Hi(caps)))
  }

  function Direct(caps: Caps, c: Controller): Directive {
    var rounded := Round(c.conc);
    var lo, hi := OneOrMore(caps.minConcurrency), OneOrMore(caps.maxConcurrency);
    Directive(if rounded < lo then lo else if rounded > hi then hi else rounded, MinNat(c.delay, caps.maxDelay))
  }

  class RateController {
    const caps: Caps
    var conc: real
    var delay: nat
    var slowStart: bool
    var lastScore: real

    ghost function Abstract(): Controller
      reads this
    {
      Controller(conc, delay, slowStart, lastScore)
    }

    constructor (caps: Caps, startDelay: nat)
      ensures this.caps == caps && Abstract() == FromFloor(caps, startDelay)
      ensures conc == MaxNat(1, caps.minConcurrency) as real && slowStart && lastScore == 1.0
    {
      this.caps := caps;
      conc := OneOrMore(caps.minConcurrency) as real;
      delay, slowStart, lastScore := MinNat(startDelay, caps.maxDelay), true, 1.0;
    }

    constructor Optimistic(caps: Caps, startDelay: nat)
      ensures this.caps == caps && Abstract() == AtCeiling(caps, startDelay)
      ensures conc == MaxNat(1, caps.maxConcurrency) as real && !slowStart && lastScore == 1.0
    {
      this.caps := caps;
      conc := OneOrMore(caps.maxConcurrency) as real;
      delay, slowStart, lastScore := MinNat(startDelay, caps.maxDelay), false, 1.0;
    }

    method Step(s: Stats) returns (d: Directive)
      requires Lo(caps) <= Hi(caps)
      modifies this
      ensures Abstract() == Tick(caps, old(Abstract()), s) && d == Direct(caps, Abstract())
    {
      var score := Score(s);
      lastScore := score;
      if s.total < MIN_SAMPLES {
        return Direct(caps, Controller(conc, delay, slowStart, lastScore));
      }
      if score >= HEALTHY_WM {
        if slowStart {
          conc := conc * SS_GROWTH;
          if conc >= caps.maxConcurrency as real * SS_EXIT_FRAC {
            slowStart := false;
          }
        } else {
          conc := conc + 1.0;
        }
        delay := if delay < DELAY_RELIEF then 0 else delay - DELAY_RELIEF;
      } else if score <= STRESSED_WM {
        conc := conc * 0.5;
        slowStart := false;
        delay := MinNat(delay + DELAY_STEP, caps.maxDelay);
      }
      conc := ClampReal(conc, Lo(caps), Hi(caps));
      d := Direct(caps, Controller(conc, delay, slowStart, lastScore));
    }
  }

  // ---------------------------------------------------------------------------------------------
  // The score.
  // ---------------------------------------------------------------------------------------------

  /** No worse rates, no worse latency: no lower score. */
  lemma ScoreIsAntitone(s: Stats, t: Stats)
    requires s.rateLimitedRate <= t.rateLimitedRate && s.serverErrRate <= t.serverErrRate
    requires s.timeoutDropRate <= t.timeoutDropRate && s.latencyInflation <= t.latencyInflation
    ensures Score(s) >= Score(t)
  {
    ClampGrows(s.rateLimitedRate / RATE_REF, t.rateLimitedRate / RATE_REF);
    ClampGrows(s.serverErrRate / RATE_REF, t.serverErrRate / RATE_REF);
    ClampGrows(s.timeoutDropRate / RATE_REF, t.timeoutDropRate / RATE_REF);
    ClampGrows(Max(s.latencyInflation - 1.0, 0.0) / LAT_REF, Max(t.latencyInflation - 1.0, 0.0) / LAT_REF);
    hide Clamp01;
    BlendGrows(
      Clamp01(s.rateLimitedRate / RATE_REF), Clamp01(s.serverErrRate / RATE_REF), Clamp01(s.timeoutDropRate / RATE_REF),
      Clamp01(Max(s.latencyInflation - 1.0, 0.0) / LAT_REF),
      Clamp01(t.rateLimitedRate / RATE_REF), Clamp01(t.serverErrRate / RATE_REF), Clamp01(t.timeoutDropRate / RATE_REF),
      Clamp01(Max(t.latencyInflation - 1.0, 0.0) / LAT_REF));
  }

  lemma ClampGrows(x: real, y: real)
    requires x <= y
    ensures Clamp01(x) <= Clamp01(y)
  {
  }

  lemma BlendGrows(a: real, b: real, c: real, d: real, a': real, b': real, c': real, d': real)
    requires a <= a' && b <= b' && c <= c' && d <= d'
    ensures Combine(a, b, c, d) >= Combine(a', b', c', d')
  {
  }

  /** A target is stressed exactly when one failure rate reaches 5% or the blended signals reach one half. */
  lemma StressedExactly(s: Stats)
    requires s.rateLimitedRate >= 0.0 && s.serverErrRate >= 0.0 && s.timeoutDropRate >= 0.0
    ensures Score(s) <= STRESSED_WM <==>
            || s.rateLimitedRate >= 0.05 || s.serverErrRate >= 0.05 || s.timeoutDropRate >= 0.05
            || 10.0 * (s.rateLimitedRate + s.serverErrRate + s.timeoutDropRate)
               + Clamp01((s.latencyInflation - 1.0) / 2.0) >= 2.0
  {
  }

  /** It is healthy exactly when no failure rate exceeds 2.5% and the blended signals stay within one quarter. */
  lemma HealthyExactly(s: Stats)
    requires s.rateLimitedRate >= 0.0 && s.serverErrRate >= 0.0 && s.timeoutDropRate >= 0.0
    ensures Score(s) >= HEALTHY_WM <==>
            && s.rateLimitedRate <= 0.025 && s.serverErrRate <= 0.025 && s.timeoutDropRate <= 0.025
            && 10.0 * (s.rateLimitedRate + s.serverErrRate + s.timeoutDropRate)
               + Clamp01((s.latencyInflation - 1.0) / 2.0) <= 1.0
  {
  }

  /** It is perfect exactly when nothing failed and nothing was slower than the baseline. */
  lemma PerfectExactly(s: Stats)
    ensures Score(s) == 1.0 <==>
      s.rateLimitedRate <= 0.0 && s.serverErrRate <= 0.0 && s.timeoutDropRate <= 0.0 && s.latencyInflation <= 1.0
  {
  }

  /** A snapshot is acted on from twelve samples on, by its score: up from three quarters, down to one half. */
  lemma ReactsExactly(s: Stats)
    ensures React(s) == Hold <==> s.total < 12
    ensures React(s) == Grow <==> s.total >= 12 && Score(s) >= 0.75
    ensures React(s) == Shrink <==> s.total >= 12 && Score(s) <= 0.5
  {
    hide Score;
  }

  /** Latency alone never counts against a target: without failures it stays healthy however slow it gets. */
  lemma SlownessAloneIsHealthy(s: Stats)
    requires s.rateLimitedRate == 0.0 && s.serverErrRate == 0.0 && s.timeoutDropRate == 0.0
    ensures Score(s) >= HEALTHY_WM
  {
  }

  lemma {:induction false} CountReplaced(buf: seq<Sample>, i: nat, x: Sample, kinds: set<ProbeClass>)
    requires i < |buf|
    ensures CountKinds(buf[i := x], kinds) + (if buf[i].kind in kinds then 1 else 0)
            == CountKinds(buf, kinds) + (if x.kind in kinds then 1 else 0)
  {
    if i == 0 {
      assert buf[0 := x][1..] == buf[1..];
    } else {
      assert buf[i := x][1..] == buf[1..][i - 1 := x];
      CountReplaced(buf[1..], i - 1, x, kinds);
    }
  }

  lemma RateGrows(a: nat, b: nat, n: nat)
    requires a <= b && n > 0
    ensures a as real / n as real <= b as real / n as real
  {
  }

  /** Replacing an answered sample by a stressed one of the same round-trip time never raises the score. */
  lemma StressNeverHelps(buf: seq<Sample>, baseline: Option<real>, i: nat, kind: ProbeClass)
    requires i < |buf| && buf[i].kind.Answered() && !kind.Answered()
    ensures Score(Snapshot(buf[i := Sample(kind, buf[i].rtt)], baseline)) <= Score(Snapshot(buf, baseline))
  {
    var worse := buf[i := Sample(kind, buf[i].rtt)];
    assert Rtts(worse) == Rtts(buf);
    CountReplaced(buf, i, Sample(kind, buf[i].rtt), {RateLimited});
    CountReplaced(buf, i, Sample(kind, buf[i].rtt), {ServerError});
    CountReplaced(buf, i, Sample(kind, buf[i].rtt), DROPS);
    RateGrows(CountKinds(buf, {RateLimited}), CountKinds(worse, {RateLimited}), |buf|);
    RateGrows(CountKinds(buf, {ServerError}), CountKinds(worse, {ServerError}), |buf|);
    RateGrows(CountKinds(buf, DROPS), CountKinds(worse, DROPS), |buf|);
    ScoreIsAntitone(Snapshot(buf, baseline), Snapshot(worse, baseline));
  }

  // ---------------------------------------------------------------------------------------------
  // Runs.
  // ---------------------------------------------------------------------------------------------

  function Run(caps: Caps, c: Controller, xs: seq<Stats>): Controller
    requires Lo(caps) <= Hi(caps)
    decreases |xs|
  {
    if xs == [] then c else Run(caps, Tick(caps, c, xs[0]), xs[1..])
  }

  predicate InRange(caps: Caps, c: Controller) {
    Lo(caps) <= c.conc <= Hi(caps) && c.delay <= caps.maxDelay
  }

  lemma TickShrinks(caps: Caps, c: Controller, s: Stats)
    requires Lo(caps) <= Hi(caps) && React(s) == Shrink
    ensures var r := Tick(caps, c, s);
      && r.conc == ClampReal(c.conc * 0.5, Lo(caps), Hi(caps)) && r.delay == MinNat(c.delay + 100, caps.maxDelay)
        && !r.slowStart
  {
    hide React;
  }

  lemma TickGrows(caps: Caps, c: Controller, s: Stats)
    requires Lo(caps) <= Hi(caps) && React(s) == Grow
    ensures var r, conc := Tick(caps, c, s), if c.slowStart then c.conc * 1.5 else c.conc + 1.0;
      && r.conc == ClampReal(conc, Lo(caps), Hi(caps)) && r.delay == (if c.delay < 50 then 0 else c.delay - 50)
      && (r.slowStart <==> c.slowStart && conc < caps.maxConcurrency as real * 0.5)
  {
    hide React;
  }

  lemma TickHolds(caps: Caps, c: Controller, s: Stats)
    requires Lo(caps) <= Hi(caps) && InRange(caps, c) && (React(s) == Hold || React(s) == Neutral)
    ensures var r := Tick(caps, c, s); r.conc == c.conc && r.delay == c.delay && r.slowStart == c.slowStart
  {
    hide React;
  }

  lemma TickInRange(caps: Caps, c: Controller, s: Stats)
    requires Lo(caps) <= Hi(caps) && InRange(caps, c)
    ensures InRange(caps, Tick(caps, c, s))
  {
    hide React;
  }

  lemma {:induction false} RunStaysInRange(caps: Caps, c: Controller, xs: seq<Stats>)
    requires Lo(caps) <= Hi(caps) && InRange(caps, c)
    ensures InRange(caps, Run(caps, c, xs))
    decreases |xs|
  {
    if xs != [] {
      TickInRange(caps, c, xs[0]);
      RunStaysInRange(caps, Tick(caps, c, xs[0]), xs[1..]);
    }
  }

  /** Every directive of every run stays inside the caps and is the controller's own concurrency, to the nearest
      whole number. */
  lemma CapsAreNeverExceeded(caps: Caps, startDelay: nat, fromFloor: bool, xs: seq<Stats>)
    requires Lo(caps) <= Hi(caps)
    ensures var c := Run(caps, if fromFloor then FromFloor(caps, startDelay) else AtCeiling(caps, startDelay), xs);
      var d := Direct(caps, c);
      && MaxNat(1, caps.minConcurrency) <= d.concurrency <= MaxNat(1, caps.maxConcurrency)
      && d.delay == c.delay <= caps.maxDelay
      && -0.5 <= d.concurrency as real - c.conc <= 0.5
  {
    RunStaysInRange(caps, if fromFloor then FromFloor(caps, startDelay) else AtCeiling(caps, startDelay), xs);
  }

  /** The concurrency halved `k` times, down to the floor. */
  function Halved(caps: Caps, conc: real, k: nat): real {
    Max(Lo(caps), conc * Pow(0.5, k))
  }

  /** `k` stressed ticks in a row halve the concurrency `k` times, down to the floor, and add `100k` ms of delay, up
      to the cap. */
  lemma {:induction false} StressedRun(caps: Caps, c: Controller, xs: seq<Stats>)
    requires Lo(caps) <= Hi(caps) && InRange(caps, c) && forall i :: 0 <= i < |xs| ==> React(xs[i]) == Shrink
    ensures var r := Run(caps, c, xs);
      && r.conc == Halved(caps, c.conc, |xs|)
      && r.delay == MinNat(c.delay + 100 * |xs|, caps.maxDelay)
      && (xs != [] ==> !r.slowStart)
    decreases |xs|
  {
    hide React, Tick, Halved;
    if xs != [] {
      assert React(xs[0]) == Shrink;
      var c' := Tick(caps, c, xs[0]);
      TickShrinks(caps, c, xs[0]);
      TickInRange(caps, c, xs[0]);
      StressedRun(caps, c', xs[1..]);
      HalvedStep(caps, c.conc, |xs[1..]|);
      if xs[1..] == [] {
        assert Run(caps, c', xs[1..]) == c';
      }
    } else {
      NotHalved(caps, c.conc);
    }
  }

  lemma NotHalved(caps: Caps, conc: real)
    requires Lo(caps) <= conc
    ensures Halved(caps, conc, 0) == conc
  {
  }

  lemma HalvedStep(caps: Caps, conc: real, k: nat)
    requires Lo(caps) <= conc <= Hi(caps)
    ensures Halved(caps, ClampReal(conc * 0.5, Lo(caps), Hi(caps)), k) == Halved(caps, conc, k + 1)
  {
    var lo, p := Lo(caps), Pow(0.5, k);
    HalvesAreSmall(k);
    assert Pow(0.5, k + 1) == 0.5 * p;
    assert ClampReal(conc * 0.5, lo, Hi(caps)) == Max(lo, conc * 0.5);
    HalveOnce(lo, conc, p);
  }

  lemma HalveOnce(lo: real, conc: real, p: real)
    requires lo > 0.0 && conc >= lo && 0.0 < p <= 1.0
    ensures Max(lo, Max(lo, conc * 0.5) * p) == Max(lo, conc * (0.5 * p))
  {
    assert conc * (0.5 * p) == conc * 0.5 * p;
    if conc * 0.5 < lo {
      Scales(p, conc * 0.5, lo);
      Scales(lo, p, 1.0);
    }
  }

  lemma Scales(a: real, x: real, y: real)
    requires a >= 0.0 && x <= y
    ensures a * x <= a * y && x * a <= y * a
  {
  }

  lemma {:induction false} HalvesAreSmall(k: nat)
    ensures 0.0 < Pow(0.5, k) <= 1.0
  {
    if k > 0 {
      HalvesAreSmall(k - 1);
    }
  }

  /** Past slow start, `k` healthy ticks in a row add `k`, up to the ceiling, and take `50k` ms of delay off. */
  lemma {:induction false} HealthyRun(caps: Caps, c: Controller, xs: seq<Stats>)
    requires Lo(caps) <= Hi(caps) && InRange(caps, c) && !c.slowStart
    requires forall i :: 0 <= i < |xs| ==> React(xs[i]) == Grow
    ensures var r := Run(caps, c, xs);
      && r.conc == MinReal(Hi(caps), c.conc + |xs| as real)
      && r.delay == (if c.delay < 50 * |xs| then 0 else c.delay - 50 * |xs|)
      && !r.slowStart
    decreases |xs|
  {
    hide React, Tick;
    if xs != [] {
      assert React(xs[0]) == Grow;
      TickGrows(caps, c, xs[0]);
      TickInRange(caps, c, xs[0]);
      HealthyRun(caps, Tick(caps, c, xs[0]), xs[1..]);
    }
  }

  function CountReaction(xs: seq<Stats>, r: Reaction): nat {
    if xs == [] then 0 else (if React(xs[0]) == r then 1 else 0) + CountReaction(xs[1..], r)
  }

  /** Slow start, once over, never comes back. */
  lemma {:induction false} SlowStartEndsForGood(caps: Caps, c: Controller, xs: seq<Stats>)
    requires Lo(caps) <= Hi(caps) && !c.slowStart
    ensures !Run(caps, c, xs).slowStart
    decreases |xs|
  {
    hide React;
    if xs != [] {
      SlowStartEndsForGood(caps, Tick(caps, c, xs[0]), xs[1..]);
    }
  }

  /** The floor grown by half `n` times, which is where `n` healthy ticks of slow start lead. */
  function Grown(caps: Caps, n: nat): real {
    Lo(caps) * Pow(SS_GROWTH, n)
  }

  predicate BelowExit(caps: Caps, n: nat) {
    Grown(caps, n) < caps.maxConcurrency as real * SS_EXIT_FRAC
  }

  /** A controller is still in slow start after a run exactly when no tick of it was stressed and, if any was healthy,
      the floor grown by half for each healthy tick is still below half the maximum. */
  lemma {:induction false} SlowStartExactly(caps: Caps, startDelay: nat, xs: seq<Stats>)
    requires Lo(caps) <= Hi(caps)
    ensures var r, k := Run(caps, FromFloor(caps, startDelay), xs), CountReaction(xs, Grow);
      r.slowStart <==> CountReaction(xs, Shrink) == 0 && (k > 0 ==> BelowExit(caps, k))
  {
    hide React, Tick, Run, CountReaction;
    assert Grown(caps, 0) == Lo(caps);
    SlowStartFrom(caps, FromFloor(caps, startDelay), 0, xs);
  }

  lemma {:induction false} SlowStartFrom(caps: Caps, c: Controller, n: nat, xs: seq<Stats>)
    requires Lo(caps) <= Hi(caps) && c.slowStart && InRange(caps, c) && c.conc == Grown(caps, n)
    requires n > 0 ==> BelowExit(caps, n)
    ensures var r, k := Run(caps, c, xs), n + CountReaction(xs, Grow);
      r.slowStart <==> CountReaction(xs, Shrink) == 0 && (k > 0 ==> BelowExit(caps, k))
    decreases |xs|
  {
    hide React, Tick, BelowExit, Grown;
    if xs != [] {
      var c' := Tick(caps, c, xs[0]);
      TickInRange(caps, c, xs[0]);
      if React(xs[0]) == Grow {
        GrowInSlowStart(caps, c, n, xs[0]);
        if c'.slowStart {
          SlowStartFrom(caps, c', n + 1, xs[1..]);
        } else {
          SlowStartEndsForGood(caps, c', xs[1..]);
          BeyondExit(caps, n + 1, n + CountReaction(xs, Grow));
        }
      } else if React(xs[0]) == Shrink {
        TickShrinks(caps, c, xs[0]);
        SlowStartEndsForGood(caps, c', xs[1..]);
      } else {
        TickHolds(caps, c, xs[0]);
        SlowStartFrom(caps, c', n, xs[1..]);
      }
    }
  }

  lemma GrowInSlowStart(caps: Caps, c: Controller, n: nat, s: Stats)
    requires Lo(caps) <= Hi(caps) && React(s) == Grow && c.slowStart && InRange(caps, c) && c.conc == Grown(caps, n)
    ensures var c' := Tick(caps, c, s);
      (c'.slowStart <==> BelowExit(caps, n + 1)) && (c'.slowStart ==> c'.conc == Grown(caps, n + 1))
  {
    hide React, Tick;
    TickGrows(caps, c, s);
    assert Grown(caps, n + 1) == c.conc * 1.5;
  }

  lemma BeyondExit(caps: Caps, n: nat, m: nat)
    requires n <= m && !BelowExit(caps, n)
    ensures !BelowExit(caps, m)
  {
    GrowthIsMonotone(n, m);
    Scales(Lo(caps), Pow(SS_GROWTH, n), Pow(SS_GROWTH, m));
  }

  lemma {:induction false} GrowthIsMonotone(a: nat, b: nat)
    requires a <= b
    ensures Pow(SS_GROWTH, a) <= Pow(SS_GROWTH, b)
  {
    if a < b {
      GrowthIsMonotone(a, b - 1);
      assert Pow(SS_GROWTH, b) == 1.5 * Pow(SS_GROWTH, b - 1);
    }
  }

  // ---------------------------------------------------------------------------------------------
  // Two controllers on the same target.
  // ---------------------------------------------------------------------------------------------

  lemma ClampContracts(x: real, y: real, lo: real, hi: real)
    requires lo <= hi && x <= y
    ensures ClampReal(x, lo, hi) <= ClampReal(y, lo, hi)
    ensures ClampReal(y, lo, hi) - ClampReal(x, lo, hi) <= y - x
  {
  }

  /** A distance halved `k` times. */
  function HalvedGap(gap: real, k: nat): real
    decreases k
  {
    if k == 0 then gap else HalvedGap(gap * 0.5, k - 1)
  }

  /** Two controllers past slow start, fed the same snapshots: the slower never overtakes the faster, what is between
      them never grows, and every stressed tick at least halves it, the clamp notwithstanding. */
  lemma {:induction false} ControllersConverge(caps: Caps, slow: Controller, fast: Controller, xs: seq<Stats>)
    requires Lo(caps) <= Hi(caps) && InRange(caps, slow) && InRange(caps, fast)
    requires !slow.slowStart && !fast.slowStart && slow.conc <= fast.conc
    ensures var a, b := Run(caps, slow, xs), Run(caps, fast, xs);
      0.0 <= b.conc - a.conc <= HalvedGap(fast.conc - slow.conc, CountReaction(xs, Shrink))
    decreases |xs|
  {
    hide React, Tick;
    if xs != [] {
      var slow', fast' := Tick(caps, slow, xs[0]), Tick(caps, fast, xs[0]);
      TickTogether(caps, slow, fast, xs[0]);
      ControllersConverge(caps, slow', fast', xs[1..]);
      var gap, gap', k := fast.conc - slow.conc, fast'.conc - slow'.conc, CountReaction(xs[1..], Shrink);
      GapStep(if React(xs[0]) == Shrink then gap * 0.5 else gap, gap', k);
    }
  }

  lemma {:induction false} GapStep(gap: real, gap': real, k: nat)
    requires gap' <= gap
    ensures HalvedGap(gap', k) <= HalvedGap(gap, k)
    decreases k
  {
    if k > 0 {
      GapStep(gap * 0.5, gap' * 0.5, k - 1);
    }
  }

  lemma TickTogether(caps: Caps, slow: Controller, fast: Controller, s: Stats)
    requires Lo(caps) <= Hi(caps) && InRange(caps, slow) && InRange(caps, fast)
    requires !slow.slowStart && !fast.slowStart && slow.conc <= fast.conc
    ensures var a, b := Tick(caps, slow, s), Tick(caps, fast, s);
      && InRange(caps, a) && InRange(caps, b) && !a.slowStart && !b.slowStart
      && 0.0 <= b.conc - a.conc <= (if React(s) == Shrink then (fast.conc - slow.conc) * 0.5 else fast.conc - slow.conc)
  {
    hide React;
    match React(s)
    case Shrink => ClampContracts(slow.conc * 0.5, fast.conc * 0.5, Lo(caps), Hi(caps));
    case Grow => ClampContracts(slow.conc + 1.0, fast.conc + 1.0, Lo(caps), Hi(caps));
    case _ =>
  }
}
