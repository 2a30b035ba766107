/** Congestion-window probe-rate control: a smoothed round-trip estimate and three knobs derived from it. */
module Congestion {
  import opened Wrappers
  import opened Arithmetic
  import opened Health

  datatype Limits = Limits(
    concFloor: nat, concCeil: nat, timeoutFloor: nat, timeoutCeil: nat, retryFloor: nat, retryCeil: nat)

  datatype Window = Window(sent: nat, lost: nat, delivered: nat, rttSum: nat)

  datatype Estimate = Estimate(srtt: real, rttvar: real, warmup: bool)

  datatype Decision = Decision(concurrency: nat, timeoutMs: nat, retries: nat)

  /** A clamp panics unless its bounds are in order. */
  predicate InOrder(lim: Limits) {
    lim.concFloor <= lim.concCeil && lim.timeoutFloor <= lim.timeoutCeil && lim.retryFloor <= lim.retryCeil
  }

  /** Comparing the loss ratio: of an empty window it is infinite or, with nothing lost, not a number. */
  predicate LossAbove(w: Window, x: real) {
    if w.sent == 0 then w.lost > 0 else w.lost as real / w.sent as real > x
  }

  predicate LossBelow(w: Window, x: real) {
    w.sent > 0 && w.lost as real / w.sent as real < x
  }

  function Mean(w: Window): real
    requires w.delivered > 0
  {
    w.rttSum as real / w.delivered as real
  }

  /** The estimator update, as in section 2 of RFC 6298. */
  function Observe(e: Estimate, w: Window): Estimate {
    if w.delivered == 0 then e
    else e.(rttvar := 0.75 * e.rttvar + 0.25 * Abs(Mean(w) - e.srtt), srtt := 0.875 * e.srtt + 0.125 * Mean(w))
  }

  function OrElse(x: Option<real>, y: real): real {
    if x.Some? then x.value else y
  }

  predicate Congested(e: Estimate, w: Window, minRtt: Option<real>) {
    LossAbove(w, 0.10) || e.srtt > 2.0 * OrElse(minRtt, e.srtt)
  }

  predicate Healthy(e: Estimate, w: Window, minRtt: Option<real>) {
    LossBelow(w, 0.05) && e.srtt <= 1.5 * OrElse(minRtt, e.srtt)
  }

  function NextEstimate(e: Estimate, w: Window, minRtt: Option<real>): Estimate {
    var o := Observe(e, w);
    o.(warmup := o.warmup && !Congested(o, w, minRtt))
  }

  /** The knobs, given the updated estimate. */
  function Knobs(e: Estimate, conc: nat, w: Window, minRtt: Option<real>, lim: Limits): Decision
    requires InOrder(lim)
  {
    Decision(
      ClampNat(
        if Congested(e, w, minRtt) then conc / 2
        else if e.warmup && Healthy(e, w, minRtt) then MaxNat(conc * 2, conc + 4)
        else if Healthy(e, w, minRtt) then conc + 1
        else conc, lim.concFloor, lim.concCeil),
      ClampNat(MaxNat(0, Saturate(Round((e.srtt + 2.0 * e.rttvar) / 1000.0))), lim.timeoutFloor, lim.timeoutCeil),
      ClampNat(
        if LossAbove(w, 0.10) then lim.retryCeil
        else if LossBelow(w, 0.05) then lim.retryFloor
        else MaxNat((lim.retryFloor + lim.retryCeil) / 2, 1), lim.retryFloor, lim.retryCeil))
  }

  /** A negative float becomes zero when cast to an unsigned number. */
  function Saturate(x: int): nat {
    if x < 0 then 0 else x
  }

  class Estimator {
    var srtt: real
    var rttvar: real
    var warmup: bool

    ghost function Abstract(): Estimate
      reads this
    {
      Estimate(srtt, rttvar, warmup)
    }

    constructor Warmup(initialTimeoutMs: nat)
      ensures Abstract() == Seed(initialTimeoutMs)
      ensures srtt == 1000.0 * initialTimeoutMs as real && 2.0 * rttvar == srtt && warmup
    {
      srtt, rttvar, warmup := initialTimeoutMs as real * 1000.0, initialTimeoutMs as real * 500.0, true;
    }

    method Decide(conc: nat, w: Window, minRtt: Option<real>, lim: Limits) returns (d: Decision)
      requires InOrder(lim)
      modifies this
      ensures Abstract() == NextEstimate(old(Abstract()), w, minRtt)
      ensures d == Knobs(Observe(old(Abstract()), w), conc, w, minRtt, lim)
    {
      ghost var e := Abstract();
      if w.delivered > 0 {
        var mean := w.rttSum as real / w.delivered as real;
        var err := Abs(mean - srtt);
        rttvar := 0.75 * rttvar + 0.25 * err;
        srtt := 0.875 * srtt + 0.125 * mean;
      }
      assert Abstract() == Observe(e, w);
      var floor := OrElse(minRtt, srtt);
      var timeout := ClampNat(MaxNat(0, Saturate(Round((srtt + 2.0 * rttvar) / 1000.0))), lim.timeoutFloor,
        lim.timeoutCeil);
      var congested := LossAbove(w, 0.10) || srtt > 2.0 * floor;
      var healthy := LossBelow(w, 0.05) && srtt <= 1.5 * floor;
      var wanted := conc;
      if congested {
        warmup := false;
        wanted := conc / 2;
      } else if warmup && healthy {
        wanted := MaxNat(conc * 2, conc + 4);
      } else if healthy {
        wanted := conc + 1;
      }
      var retries := if LossAbove(w, 0.10) then lim.retryCeil
                     else if LossBelow(w, 0.05) then lim.retryFloor
                     else MaxNat((lim.retryFloor + lim.retryCeil) / 2, 1);
      d := Decision(ClampNat(wanted, lim.concFloor, lim.concCeil), timeout,
        ClampNat(retries, lim.retryFloor, lim.retryCeil));
    }
  }

  function Seed(initialTimeoutMs: nat): Estimate {
    Estimate(initialTimeoutMs as real * 1000.0, initialTimeoutMs as real * 500.0, true)
  }

  // ---------------------------------------------------------------------------------------------
  // Runs.
  // ---------------------------------------------------------------------------------------------

  datatype Input = Input(window: Window, minRtt: Option<real>)

  function Run(e: Estimate, xs: seq<Input>): Estimate
    decreases |xs|
  {
    if xs == [] then e else Run(NextEstimate(e, xs[0].window, xs[0].minRtt), xs[1..])
  }

  /** The decisions of a run, each starting from the concurrency of the one before. */
  function Decisions(e: Estimate, conc: nat, xs: seq<Input>, lim: Limits): (ds: seq<Decision>)
    requires InOrder(lim)
    ensures |ds| == |xs|
    decreases |xs|
  {
    if xs == [] then []
    else
      var d := Knobs(Observe(e, xs[0].window), conc, xs[0].window, xs[0].minRtt, lim);
      [d] + Decisions(NextEstimate(e, xs[0].window, xs[0].minRtt), d.concurrency, xs[1..], lim)
  }

  /** The concurrency the `i`-th decision starts from. */
  function Before(conc: nat, ds: seq<Decision>, i: nat): nat
    requires i < |ds|
  {
    if i == 0 then conc else ds[i - 1].concurrency
  }

  /** The estimate at the `i`-th decision: that of the run so far, updated by the window itself. */
  function EstimateAt(e: Estimate, xs: seq<Input>, i: nat): Estimate
    requires i < |xs|
  {
    Observe(Run(e, xs[..i]), xs[i].window)
  }

  predicate CongestedAt(e: Estimate, xs: seq<Input>, i: nat)
    requires i < |xs|
  {
    Congested(EstimateAt(e, xs, i), xs[i].window, xs[i].minRtt)
  }

  lemma EstimateLater(e: Estimate, xs: seq<Input>, i: nat)
    requires 0 < i < |xs|
    ensures EstimateAt(e, xs, i) == EstimateAt(NextEstimate(e, xs[0].window, xs[0].minRtt), xs[1..], i - 1)
  {
    assert xs[..i][1..] == xs[1..][..i - 1] && xs[..i][0] == xs[0];
  }

  lemma {:induction false} DecisionIs(e: Estimate, conc: nat, xs: seq<Input>, lim: Limits, i: nat)
    requires InOrder(lim) && i < |xs|
    ensures var ds := Decisions(e, conc, xs, lim);
      ds[i] == Knobs(EstimateAt(e, xs, i), Before(conc, ds, i), xs[i].window, xs[i].minRtt, lim)
    decreases i
  {
    hide Knobs, Observe, NextEstimate, EstimateAt;
    var d := Knobs(Observe(e, xs[0].window), conc, xs[0].window, xs[0].minRtt, lim);
    if i == 0 {
      EstimateFirst(e, xs);
    } else {
      EstimateLater(e, xs, i);
      DecisionIs(NextEstimate(e, xs[0].window, xs[0].minRtt), d.concurrency, xs[1..], lim, i - 1);
    }
  }

  lemma EstimateFirst(e: Estimate, xs: seq<Input>)
    requires xs != []
    ensures EstimateAt(e, xs, 0) == Observe(e, xs[0].window)
  {
    assert xs[..0] == [];
  }

  lemma KnobsStayInside(e: Estimate, conc: nat, w: Window, minRtt: Option<real>, lim: Limits)
    requires InOrder(lim)
    ensures Inside(Knobs(e, conc, w, minRtt, lim), lim)
    ensures Congested(e, w, minRtt) ==>
      Knobs(e, conc, w, minRtt, lim).concurrency == ClampNat(conc / 2, lim.concFloor, lim.concCeil)
    ensures !Congested(e, w, minRtt) && lim.concFloor <= conc <= lim.concCeil ==>
      conc <= Knobs(e, conc, w, minRtt, lim).concurrency <= 2 * conc + 4
  {
  }

  predicate Inside(d: Decision, lim: Limits) {
    && lim.concFloor <= d.concurrency <= lim.concCeil
    && lim.timeoutFloor <= d.timeoutMs <= lim.timeoutCeil
    && lim.retryFloor <= d.retries <= lim.retryCeil
  }

  /** Every knob of every decision of a run stays inside its limits; concurrency is halved where the window was
      congested by the estimate of the whole run so far, and falls nowhere else. */
  lemma EveryDecisionStaysInside(e: Estimate, conc: nat, xs: seq<Input>, lim: Limits, i: nat)
    requires InOrder(lim) && i < |xs|
    ensures var ds := Decisions(e, conc, xs, lim);
      && Inside(ds[i], lim)
      && (CongestedAt(e, xs, i) ==> ds[i].concurrency == ClampNat(Before(conc, ds, i) / 2, lim.concFloor, lim.concCeil))
      && (i > 0 && !CongestedAt(e, xs, i) ==>
            ds[i - 1].concurrency <= ds[i].concurrency <= 2 * ds[i - 1].concurrency + 4)
  {
    hide Knobs, Congested, EstimateAt, Decisions;
    var ds := Decisions(e, conc, xs, lim);
    DecisionIs(e, conc, xs, lim, i);
    KnobsStayInside(EstimateAt(e, xs, i), Before(conc, ds, i), xs[i].window, xs[i].minRtt, lim);
    if i > 0 {
      DecisionIs(e, conc, xs, lim, i - 1);
      KnobsStayInside(EstimateAt(e, xs, i - 1), Before(conc, ds, i - 1), xs[i - 1].window, xs[i - 1].minRtt, lim);
    }
  }

  /** The window means seen by the estimator all lie between `lo` and `hi`. */
  predicate MeansWithin(xs: seq<Input>, lo: real, hi: real) {
    forall i :: 0 <= i < |xs| && xs[i].window.delivered > 0 ==> lo <= Mean(xs[i].window) <= hi
  }

  /** Over any run the estimate stays between the least and the greatest of its seed and the delivered means, the
      variance stays non-negative, and within the width of that range once it is. */
  lemma {:induction false} EstimateStaysWithin(e: Estimate, xs: seq<Input>, lo: real, hi: real)
    requires lo <= e.srtt <= hi && MeansWithin(xs, lo, hi) && 0.0 <= e.rttvar
    ensures lo <= Run(e, xs).srtt <= hi && 0.0 <= Run(e, xs).rttvar
    ensures e.rttvar <= hi - lo ==> Run(e, xs).rttvar <= hi - lo
    decreases |xs|
  {
    if xs != [] {
      var next := NextEstimate(e, xs[0].window, xs[0].minRtt);
      if xs[0].window.delivered > 0 {
        assert lo <= Mean(xs[0].window) <= hi;
      }
      assert forall i :: 0 <= i < |xs[1..]| ==> xs[1..][i] == xs[i + 1];
      EstimateStaysWithin(next, xs[1..], lo, hi);
    }
  }

  /** All windows that delivered anything have mean `m`. */
  predicate AllMeans(xs: seq<Input>, m: real) {
    forall i :: 0 <= i < |xs| && xs[i].window.delivered > 0 ==> Mean(xs[i].window) == m
  }

  function CountDelivered(xs: seq<Input>): nat {
    if xs == [] then 0 else (if xs[0].window.delivered > 0 then 1 else 0) + CountDelivered(xs[1..])
  }

  /** What `k` delivered windows make of an error `err` and a variance `v`: the error shrinks by 7/8 each time; the
      variance forgets its start by 3/4 each time and takes up the errors on the way. */
  function ErrorAfter(err: real, k: nat): real {
    Pow(0.875, k) * err
  }

  function VarianceAfter(v: real, err: real, k: nat): real {
    Pow(0.75, k) * v + 2.0 * (Pow(0.875, k) - Pow(0.75, k)) * Abs(err)
  }

  lemma AfterOne(v: real, err: real, k: nat)
    ensures ErrorAfter(0.875 * err, k) == ErrorAfter(err, k + 1)
    ensures VarianceAfter(0.75 * v + 0.25 * Abs(err), 0.875 * err, k) == VarianceAfter(v, err, k + 1)
  {
    var p, q := Pow(0.875, k), Pow(0.75, k);
    assert Pow(0.875, k + 1) == 0.875 * p && Pow(0.75, k + 1) == 0.75 * q;
    assert Abs(0.875 * err) == 0.875 * Abs(err);
    Distribute(p, q, v, Abs(err));
    assert p * (0.875 * err) == 0.875 * p * err;
  }

  lemma Distribute(p: real, q: real, v: real, a: real)
    ensures q * (0.75 * v + 0.25 * a) + 2.0 * (p - q) * (0.875 * a) == 0.75 * q * v + 2.0 * (0.875 * p - 0.75 * q) * a
  {
    assert q * (0.75 * v + 0.25 * a) == 0.75 * (q * v) + 0.25 * (q * a);
    assert 2.0 * (p - q) * (0.875 * a) == 1.75 * (p * a) - 1.75 * (q * a);
    assert 2.0 * (0.875 * p - 0.75 * q) * a == 1.75 * (p * a) - 1.5 * (q * a);
    assert 0.75 * q * v == 0.75 * (q * v);
  }

  lemma NothingYet(v: real, err: real)
    ensures ErrorAfter(err, 0) == err && VarianceAfter(v, err, 0) == v
  {
  }

  /** Fed windows of one mean, the estimate's error is multiplied by exactly 7/8 per delivered window, and the variance
      follows in closed form; windows that deliver nothing change neither. */
  lemma {:induction false} EstimateConverges(e: Estimate, xs: seq<Input>, m: real)
    requires AllMeans(xs, m)
    ensures Run(e, xs).srtt - m == ErrorAfter(e.srtt - m, CountDelivered(xs))
    ensures Run(e, xs).rttvar == VarianceAfter(e.rttvar, e.srtt - m, CountDelivered(xs))
    decreases |xs|
  {
    hide ErrorAfter, VarianceAfter, Mean;
    if xs == [] {
      NothingYet(e.rttvar, e.srtt - m);
    } else {
      var next := NextEstimate(e, xs[0].window, xs[0].minRtt);
      assert forall i :: 0 <= i < |xs[1..]| ==> xs[1..][i] == xs[i + 1];
      EstimateConverges(next, xs[1..], m);
      if xs[0].window.delivered > 0 {
        assert Mean(xs[0].window) == m;
        assert next.srtt - m == 0.875 * (e.srtt - m);
        assert next.rttvar == 0.75 * e.rttvar + 0.25 * Abs(e.srtt - m) by {
          AbsFlips(m - e.srtt);
        }
        AfterOne(e.rttvar, e.srtt - m, CountDelivered(xs[1..]));
      }
    }
  }

  /** Bernoulli's inequality: powers of 7/8 fall at least as fast as 8 / (8 + k). */
  lemma {:induction false} PowersFall(k: nat)
    ensures Pow(0.875, k) * (8 + k) as real <= 8.0
    ensures Pow(0.75, k) <= Pow(0.875, k)
  {
    if k > 0 {
      PowersFall(k - 1);
      var p := Pow(0.875, k - 1);
      assert 0.875 * (8 + k) as real <= (8 + k - 1) as real;
      assert Pow(0.875, k) * (8 + k) as real == p * (0.875 * (8 + k) as real) <= p * (8 + k - 1) as real;
    }
  }

  lemma ScaledDown(p: real, c: real, n: real, bound: real)
    requires 0.0 <= p && 0.0 <= c && 0.0 < n && p * n <= 8.0 && 8.0 * c <= n * bound
    ensures p * c <= bound
  {
    assert p * c * n == p * n * c <= 8.0 * c;
    assert p * c * n <= bound * n;
  }

  lemma AbsOfProduct(p: real, x: real)
    requires 0.0 <= p
    ensures Abs(p * x) == p * Abs(x)
  {
  }

  lemma VarianceIsSmall(v: real, err: real, k: nat)
    requires 0.0 <= v
    ensures 0.0 <= VarianceAfter(v, err, k) <= Pow(0.875, k) * (v + 2.0 * Abs(err))
  {
    hide Pow;
    PowersFall(k);
    Mixture(Pow(0.875, k), Pow(0.75, k), v, Abs(err));
  }

  lemma Mixture(p: real, q: real, v: real, a: real)
    requires 0.0 <= q <= p && 0.0 <= v && 0.0 <= a
    ensures 0.0 <= q * v + 2.0 * (p - q) * a <= p * (v + 2.0 * a)
  {
    Product(q, v);
    Product(p - q, v);
    Product(p - q, a);
    Product(q, a);
    assert (p - q) * v == p * v - q * v && 2.0 * (p - q) * a == 2.0 * ((p - q) * a) == 2.0 * (p * a) - 2.0 * (q * a);
    assert p * (v + 2.0 * a) == p * v + 2.0 * (p * a);
  }

  lemma Product(x: real, y: real)
    requires 0.0 <= x && 0.0 <= y
    ensures 0.0 <= x * y
  {
  }

  /** How long that takes: error and variance are both within any `bound` once 8 / `bound` times the initial variance
      and twice the initial error windows have been delivered. */
  lemma EstimateSettles(e: Estimate, xs: seq<Input>, m: real, bound: real)
    requires AllMeans(xs, m) && 0.0 <= e.rttvar && 0.0 < bound
    requires 8.0 * (e.rttvar + 2.0 * Abs(e.srtt - m)) <= CountDelivered(xs) as real * bound
    ensures Abs(Run(e, xs).srtt - m) <= bound && 0.0 <= Run(e, xs).rttvar <= bound
  {
    hide Run, AllMeans, CountDelivered, ErrorAfter, VarianceAfter, Abs;
    var k, err := CountDelivered(xs), e.srtt - m;
    EstimateConverges(e, xs, m);
    AbsIsPositive(err);
    SmallAfter(e.rttvar, err, k, bound);
  }

  lemma SmallAfter(v: real, err: real, k: nat, bound: real)
    requires 0.0 <= v && 0.0 < bound && 0.0 <= Abs(err)
    requires 8.0 * (v + 2.0 * Abs(err)) <= k as real * bound
    ensures Abs(ErrorAfter(err, k)) <= bound && 0.0 <= VarianceAfter(v, err, k) <= bound
  {
    hide VarianceAfter, Abs, Pow;
    var p, n := Pow(0.875, k), (8 + k) as real;
    PowersFall(k);
    MoreRoom(k as real, n, bound);
    ScaledDown(p, v + 2.0 * Abs(err), n, bound);
    VarianceIsSmall(v, err, k);
    ScaledDown(p, Abs(err), n, bound);
    AbsOfProduct(p, err);
    assert ErrorAfter(err, k) == p * err;
  }

  lemma MoreRoom(k: real, n: real, bound: real)
    requires k <= n && 0.0 < bound
    ensures k * bound <= n * bound
  {
  }

  lemma AbsIsPositive(x: real)
    ensures 0.0 <= Abs(x)
  {
  }

  lemma AbsFlips(x: real)
    ensures Abs(x) == Abs(-x)
  {
  }

  /** No window along the run was congested by the estimate of the whole run up to it. */
  ghost predicate NeverCongested(e: Estimate, xs: seq<Input>) {
    forall i :: 0 <= i < |xs| ==> !CongestedAt(e, xs, i)
  }

  /** Warm-up, once over, never comes back; it is still on exactly when no window so far was congested. */
  lemma {:induction false} WarmupExactly(e: Estimate, xs: seq<Input>)
    ensures Run(e, xs).warmup <==> e.warmup && NeverCongested(e, xs)
    decreases |xs|
  {
    hide Congested, Observe, EstimateAt;
    if xs != [] {
      var next := NextEstimate(e, xs[0].window, xs[0].minRtt);
      WarmupExactly(next, xs[1..]);
      WarmupOnce(e, xs[0].window, xs[0].minRtt);
      EstimateFirst(e, xs);
      forall i | 0 < i < |xs|
        ensures CongestedAt(e, xs, i) == CongestedAt(next, xs[1..], i - 1)
      {
        EstimateLater(e, xs, i);
      }
      assert CongestedAt(e, xs, 0) == Congested(Observe(e, xs[0].window), xs[0].window, xs[0].minRtt);
      assert NeverCongested(e, xs) <==> !CongestedAt(e, xs, 0) && NeverCongested(next, xs[1..]) by {
        assert forall i :: 0 <= i < |xs[1..]| ==> CongestedAt(next, xs[1..], i) == CongestedAt(e, xs, i + 1);
      }
    }
  }

  lemma WarmupOnce(e: Estimate, w: Window, minRtt: Option<real>)
    ensures NextEstimate(e, w, minRtt).warmup <==> e.warmup && !Congested(Observe(e, w), w, minRtt)
  {
  }

  function HalvedNat(n: nat, k: nat): nat {
    if k == 0 then n else HalvedNat(n / 2, k - 1)
  }

  /** Lossy windows in a row halve the concurrency each time, rounding down, to the floor and no further. */
  lemma {:induction false} LossHalves(e: Estimate, conc: nat, xs: seq<Input>, lim: Limits, i: nat)
    requires InOrder(lim) && lim.concFloor <= conc <= lim.concCeil && i < |xs|
    requires forall j :: 0 <= j <= i ==> LossAbove(xs[j].window, 0.10)
    ensures Decisions(e, conc, xs, lim)[i].concurrency == MaxNat(lim.concFloor, HalvedNat(conc, i + 1))
    decreases i
  {
    hide Observe, NextEstimate;
    assert LossAbove(xs[0].window, 0.10);
    var next := MaxNat(lim.concFloor, conc / 2);
    assert Knobs(Observe(e, xs[0].window), conc, xs[0].window, xs[0].minRtt, lim).concurrency == next;
    if i > 0 {
      assert forall j :: 0 <= j < |xs[1..]| ==> xs[1..][j] == xs[j + 1];
      LossHalves(NextEstimate(e, xs[0].window, xs[0].minRtt), next, xs[1..], lim, i - 1);
      HalvedFromFloor(lim.concFloor, conc / 2, i);
    } else {
      assert HalvedNat(conc, 1) == HalvedNat(conc / 2, 0) == conc / 2;
    }
  }

  lemma {:induction false} HalvedFromFloor(floor: nat, n: nat, k: nat)
    ensures MaxNat(floor, HalvedNat(MaxNat(floor, n), k)) == MaxNat(floor, HalvedNat(n, k))
  {
    HalvedShrinks(floor, k);
    HalvedShrinks(n, k);
  }

  lemma {:induction false} HalvedShrinks(n: nat, k: nat)
    ensures HalvedNat(n, k) <= n
  {
    if k > 0 {
      HalvedShrinks(n / 2, k - 1);
    }
  }

  // ---------------------------------------------------------------------------------------------
  // What each knob follows, along any run.
  // ---------------------------------------------------------------------------------------------

  /** More than one probe in ten was lost; of a window that sent nothing, anything at all. */
  predicate Lossy(w: Window) {
    if w.sent == 0 then w.lost > 0 else 10 * w.lost > w.sent
  }

  /** Fewer than one probe in twenty was lost. */
  predicate Clean(w: Window) {
    20 * w.lost < w.sent
  }

  lemma RatioAbove(lost: nat, sent: nat)
    requires sent > 0
    ensures lost as real / sent as real > 0.10 <==> 10 * lost > sent
    ensures lost as real / sent as real < 0.05 <==> 20 * lost < sent
  {
    var l, n := lost as real, sent as real;
    Ratio(l, n, 0.10);
    Ratio(l, n, 0.05);
    assert 10.0 * l > n <==> 10 * lost > sent;
    assert 20.0 * l < n <==> 20 * lost < sent;
  }

  lemma Ratio(l: real, n: real, x: real)
    requires n > 0.0
    ensures (l / n > x <==> l > x * n) && (l / n < x <==> l < x * n)
  {
    var q := l / n;
    assert q * n == l;
    if q > x {
      assert (q - x) * n > 0.0;
    } else if q < x {
      assert (x - q) * n > 0.0;
    }
  }

  lemma LossIsLossy(w: Window)
    ensures LossAbove(w, 0.10) <==> Lossy(w)
    ensures LossBelow(w, 0.05) <==> Clean(w)
  {
    if w.sent > 0 {
      RatioAbove(w.lost, w.sent);
    }
  }

  /** Retries follow the loss of the window alone: the most above one in ten, the fewest below one in twenty. */
  lemma RetriesFollowLoss(e: Estimate, conc: nat, xs: seq<Input>, lim: Limits, i: nat)
    requires InOrder(lim) && i < |xs|
    ensures var r, w := Decisions(e, conc, xs, lim)[i].retries, xs[i].window;
      && (Lossy(w) ==> r == lim.retryCeil)
      && (Clean(w) ==> r == lim.retryFloor)
      && (!Lossy(w) && !Clean(w) ==>
            r == MinNat(lim.retryCeil, MaxNat(lim.retryFloor, MaxNat(1, (lim.retryFloor + lim.retryCeil) / 2))))
  {
    hide Observe, EstimateAt, Congested, Healthy, Decisions, LossAbove, LossBelow, Lossy, Clean;
    DecisionIs(e, conc, xs, lim, i);
    LossIsLossy(xs[i].window);
    NotBoth(xs[i].window);
  }

  lemma NotBoth(w: Window)
    ensures !(Lossy(w) && Clean(w))
  {
  }

  /** Of two windows of one run the one that lost the larger share never gets fewer retries. */
  lemma RetriesGrowWithLoss(e: Estimate, conc: nat, xs: seq<Input>, lim: Limits, i: nat, j: nat)
    requires InOrder(lim) && i < |xs| && j < |xs| && xs[i].window.sent > 0 && xs[j].window.sent > 0
    requires xs[i].window.lost * xs[j].window.sent <= xs[j].window.lost * xs[i].window.sent
    ensures Decisions(e, conc, xs, lim)[i].retries <= Decisions(e, conc, xs, lim)[j].retries
  {
    hide Decisions, Lossy, Clean;
    RetriesFollowLoss(e, conc, xs, lim, i);
    RetriesFollowLoss(e, conc, xs, lim, j);
    LossierIsLossy(xs[i].window, xs[j].window);
  }

  lemma LossierIsLossy(v: Window, w: Window)
    requires v.sent > 0 && w.sent > 0 && v.lost * w.sent <= w.lost * v.sent
    ensures (Lossy(v) ==> Lossy(w)) && (Clean(w) ==> Clean(v))
  {
    if Lossy(v) {
      assert v.sent * w.sent < 10 * v.lost * w.sent;
      assert v.sent * w.sent < 10 * w.lost * v.sent;
    }
    if Clean(w) {
      assert 20 * w.lost * v.sent < w.sent * v.sent;
      assert 20 * v.lost * w.sent < w.sent * v.sent;
    }
  }

  /** The timeout is the smoothed time plus twice its variance, in milliseconds, to the nearest one, wherever that is
      inside the limits, and the limit otherwise. */
  lemma TimeoutFollowsEstimate(e: Estimate, conc: nat, xs: seq<Input>, lim: Limits, i: nat)
    requires InOrder(lim) && i < |xs|
    ensures var t, at := Decisions(e, conc, xs, lim)[i].timeoutMs, EstimateAt(e, xs, i);
      var wanted := (at.srtt + 2.0 * at.rttvar) / 1000.0;
      && (lim.timeoutFloor < t < lim.timeoutCeil ==> -0.5 <= t as real - wanted <= 0.5)
      && (t == lim.timeoutFloor < lim.timeoutCeil ==> wanted <= t as real + 0.5)
      && (t == lim.timeoutCeil > lim.timeoutFloor ==> wanted >= t as real - 0.5)
  {
    hide Observe, EstimateAt, Congested, Healthy, Decisions, LossAbove, LossBelow;
    DecisionIs(e, conc, xs, lim, i);
    var at := EstimateAt(e, xs, i);
    RoundIsNear((at.srtt + 2.0 * at.rttvar) / 1000.0);
  }

  lemma RoundIsNear(x: real)
    ensures -0.5 <= Round(x) as real - x <= 0.5
  {
  }

  /** It never falls when the smoothed time or the variance rises. */
  lemma TimeoutGrows(e: Estimate, conc: nat, xs: seq<Input>, lim: Limits, i: nat, j: nat)
    requires InOrder(lim) && i < |xs| && j < |xs|
    requires EstimateAt(e, xs, i).srtt <= EstimateAt(e, xs, j).srtt
    requires EstimateAt(e, xs, i).rttvar <= EstimateAt(e, xs, j).rttvar
    ensures Decisions(e, conc, xs, lim)[i].timeoutMs <= Decisions(e, conc, xs, lim)[j].timeoutMs
  {
    hide Observe, EstimateAt, Congested, Healthy, Decisions, LossAbove, LossBelow, Round;
    DecisionIs(e, conc, xs, lim, i);
    DecisionIs(e, conc, xs, lim, j);
    var a, b := EstimateAt(e, xs, i), EstimateAt(e, xs, j);
    RoundGrows((a.srtt + 2.0 * a.rttvar) / 1000.0, (b.srtt + 2.0 * b.rttvar) / 1000.0);
  }

  /** The smoothed time is more than twice the least time seen, if there is one. */
  predicate Slow(at: Estimate, minRtt: Option<real>) {
    match minRtt
    case Some(m) => at.srtt > 2.0 * m
    case None => at.srtt < 0.0
  }

  /** It is at most one and a half times that. */
  predicate Quick(at: Estimate, minRtt: Option<real>) {
    match minRtt
    case Some(m) => at.srtt <= 1.5 * m
    case None => at.srtt >= 0.0
  }

  lemma CongestedIs(at: Estimate, x: Input)
    ensures Congested(at, x.window, x.minRtt) <==> Lossy(x.window) || Slow(at, x.minRtt)
    ensures Healthy(at, x.window, x.minRtt) <==> Clean(x.window) && Quick(at, x.minRtt)
  {
    LossIsLossy(x.window);
  }

  /** Loss or slowness halves concurrency; a window that is clean and quick doubles it, or adds four if that is more,
      as long as no window before was lossy or slow, and adds one from then on; any other keeps it. */
  lemma ConcurrencyFollows(e: Estimate, conc: nat, xs: seq<Input>, lim: Limits, i: nat)
    requires InOrder(lim) && i < |xs| && e.warmup
    ensures var ds, at, x := Decisions(e, conc, xs, lim), EstimateAt(e, xs, i), xs[i];
      var before, after := Before(conc, ds, i), ds[i].concurrency;
      var trouble := Lossy(x.window) || Slow(at, x.minRtt);
      var good := Clean(x.window) && Quick(at, x.minRtt);
      && (trouble ==> after == Within(before / 2, lim))
      && (!trouble && good && NeverCongested(e, xs[..i]) ==> after == Within(MaxNat(2 * before, before + 4), lim))
      && (!trouble && good && !NeverCongested(e, xs[..i]) ==> after == Within(before + 1, lim))
      && (!trouble && !good ==> after == Within(before, lim))
  {
    hide Decisions, Congested, Healthy, Lossy, Clean, Slow, Quick, NeverCongested, Run, Mean;
    DecisionIs(e, conc, xs, lim, i);
    WarmupExactly(e, xs[..i]);
    CongestedIs(EstimateAt(e, xs, i), xs[i]);
  }

  /** `n`, raised or lowered to the limits on concurrency. */
  function Within(n: nat, lim: Limits): nat {
    if n < lim.concFloor then lim.concFloor else if lim.concCeil < n then lim.concCeil else n
  }

  /** A window that was lossy or slow by the estimate of the run up to it is congested, and no other. */
  lemma CongestedAtExactly(e: Estimate, xs: seq<Input>, i: nat)
    requires i < |xs|
    ensures CongestedAt(e, xs, i) <==> Lossy(xs[i].window) || Slow(EstimateAt(e, xs, i), xs[i].minRtt)
  {
    CongestedIs(EstimateAt(e, xs, i), xs[i]);
  }
}
