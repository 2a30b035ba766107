/**
 The fixed scan worker pool. Its shared throttle is read and written back in two separate steps, so
 workers can overwrite each other's updates; this is what survives that, in every interleaving.
 */
module FixedPool {
  import opened Wrappers

  const STEP: nat := 120
  const CAP: nat := 3_000
  const MAX_RETRIES: nat := 5

  /** What a worker is about to do; `n` counts the retries of the item in hand. */
  datatype Worker =
    | Idle                          // pause flag and result stream, then the queue
    | Send(n: nat)                  // count the attempt and probe
    | RaiseLoad(n: nat)             // rate limited: load the throttle
    | RaiseStore(n: nat, cur: nat)  // store it raised
    | Backoff(n: nat)               // backed off: check the result stream
    | DecayLoad                     // any other outcome: load the throttle
    | DecayStore(cur: nat)          // store it lowered
    | Record
    | Exited

  /** `takes` and `raises` are history: items taken, and throttle raises stored. */
  datatype Pool = Pool(throttle: nat, tested: nat, workers: seq<Worker>, takes: nat, raises: nat)

  datatype Answer = Continue | Stop | Again | Took | Limited | OtherOutcome

  function Init(workers: nat): Pool {
    Pool(0, 0, seq(workers, i => Idle), 0, 0)
  }

  function Raised(cur: nat): nat {
    if cur + STEP < CAP then cur + STEP else CAP
  }

  function Lowered(cur: nat): nat {
    if cur < STEP then 0 else cur - STEP
  }

  /** The step of worker `w`, or `None` when `a` is no answer to what it is doing. */
  function Next(s: Pool, w: nat, a: Answer): Option<Pool> {
    if w >= |s.workers| then None
    else
      var k := s.workers[w];
      match k
      case Idle =>
        if a == Stop then Some(Goto(s, w, Exited))
        else if a == Again then Some(s)
        else if a == Took then Some(Goto(s, w, Send(0)).(takes := s.takes + 1))
        else None
      case Send(n) =>
        if a == Limited then Some(Goto(s, w, RaiseLoad(n)).(tested := s.tested + 1))
        else if a == OtherOutcome then Some(Goto(s, w, DecayLoad).(tested := s.tested + 1))
        else None
      case RaiseLoad(n) => if a == Continue then Some(Goto(s, w, RaiseStore(n, s.throttle))) else None
      case RaiseStore(n, cur) =>
        if a == Continue then
          var next := if n >= MAX_RETRIES then Record else Backoff(n + 1);
          Some(Goto(s, w, next).(throttle := Raised(cur), raises := s.raises + 1))
        else None
      case Backoff(n) =>
        if a == Stop then Some(Goto(s, w, Exited)) else if a == Continue then Some(Goto(s, w, Send(n))) else None
      case DecayLoad => if a == Continue then Some(Goto(s, w, DecayStore(s.throttle))) else None
      case DecayStore(cur) => if a == Continue then Some(Goto(s, w, Record).(throttle := Lowered(cur))) else None
      case Record => if a == Continue then Some(Goto(s, w, Idle)) else None
      case Exited => None
  }

  function Goto(s: Pool, w: nat, k: Worker): Pool
    requires w < |s.workers|
  {
    s.(workers := s.workers[w := k])
  }

  function Run(s: Pool, acts: seq<(nat, Answer)>): Option<Pool>
    decreases |acts|
  {
    if acts == [] then Some(s)
    else
      var s' := Next(s, acts[0].0, acts[0].1);
      if s'.None? then None else Run(s'.value, acts[1..])
  }

  /** A value the throttle can have after `raises` raises: a whole number of steps, at most the cap. */
  predicate Sane(v: nat, raises: nat) {
    v % STEP == 0 && v <= CAP && v <= STEP * raises
  }

  /** Attempts the item in hand may still get. */
  function Allowance(k: Worker): nat {
    match k
    case Send(n) => if n <= MAX_RETRIES then 6 - n else 0
    case Backoff(n) => if n <= MAX_RETRIES then 6 - n else 0
    case RaiseLoad(n) => if n <= MAX_RETRIES then 5 - n else 0
    case RaiseStore(n, _) => if n <= MAX_RETRIES then 5 - n else 0
    case _ => 0
  }

  function TotalAllowance(ks: seq<Worker>): nat {
    if ks == [] then 0 else Allowance(ks[0]) + TotalAllowance(ks[1..])
  }

  predicate WorkerInv(k: Worker, raises: nat) {
    match k
    case Send(n) => n <= MAX_RETRIES
    case Backoff(n) => n <= MAX_RETRIES
    case RaiseLoad(n) => n <= MAX_RETRIES
    case RaiseStore(n, cur) => n <= MAX_RETRIES && Sane(cur, raises)
    case DecayStore(cur) => Sane(cur, raises)
    case _ => true
  }

  predicate Inv(s: Pool) {
    && Sane(s.throttle, s.raises)
    && (forall w :: 0 <= w < |s.workers| ==> WorkerInv(s.workers[w], s.raises))
    && s.tested + TotalAllowance(s.workers) <= 6 * s.takes
  }

  lemma {:induction false} UpdateAllowance(ks: seq<Worker>, w: nat, k: Worker)
    requires w < |ks|
    ensures TotalAllowance(ks[w := k]) + Allowance(ks[w]) == TotalAllowance(ks) + Allowance(k)
  {
    if w == 0 {
      assert ks[0 := k][1..] == ks[1..];
    } else {
      assert ks[w := k][1..] == ks[1..][w - 1 := k];
      UpdateAllowance(ks[1..], w - 1, k);
    }
  }

  lemma {:induction false} IdleAllowance(n: nat)
    ensures TotalAllowance(seq(n, i => Idle)) == 0
  {
    if n > 0 {
      assert seq(n, i => Idle)[1..] == seq(n - 1, i => Idle);
      IdleAllowance(n - 1);
    }
  }

  lemma RaiseIsSane(cur: nat, raises: nat)
    requires Sane(cur, raises)
    ensures Sane(Raised(cur), raises + 1) && Sane(Lowered(cur), raises) && Sane(cur, raises + 1)
  {
    assert (cur + STEP) % STEP == 0 && CAP % STEP == 0;
    assert cur >= STEP ==> (cur - STEP) % STEP == 0;
  }

  /** What a step does to the worker that takes it. */
  lemma StepOfOne(s: Pool, w: nat, a: Answer)
    requires w < |s.workers| && WorkerInv(s.workers[w], s.raises) && Sane(s.throttle, s.raises) && Next(s, w, a).Some?
    ensures var s' := Next(s, w, a).value;
      && s'.workers == s.workers[w := s'.workers[w]] && s.raises <= s'.raises <= s.raises + 1
      && Sane(s'.throttle, s'.raises) && WorkerInv(s'.workers[w], s'.raises)
      && s'.tested + Allowance(s'.workers[w]) - s.tested <= Allowance(s.workers[w]) + 6 * (s'.takes - s.takes)
  {
    hide Sane, Raised, Lowered;
    var k := s.workers[w];
    if k.RaiseStore? || k.DecayStore? {
      RaiseIsSane(k.cur, s.raises);
    }
  }

  lemma InvLater(k: Worker, raises: nat)
    requires WorkerInv(k, raises)
    ensures WorkerInv(k, raises + 1)
  {
  }

  lemma NextInv(s: Pool, w: nat, a: Answer)
    requires Inv(s) && Next(s, w, a).Some?
    ensures Inv(Next(s, w, a).value)
  {
    assert w < |s.workers|;
    hide Next, WorkerInv, Sane, Allowance;
    StepOfOne(s, w, a);
    var s' := Next(s, w, a).value;
    UpdateAllowance(s.workers, w, s'.workers[w]);
    forall v | 0 <= v < |s.workers| && v != w
      ensures WorkerInv(s'.workers[v], s'.raises)
    {
      InvLater(s.workers[v], s.raises);
    }
  }

  lemma {:induction false} RunInv(s: Pool, acts: seq<(nat, Answer)>)
    requires Inv(s) && Run(s, acts).Some?
    ensures Inv(Run(s, acts).value)
    decreases |acts|
  {
    if acts != [] {
      NextInv(s, acts[0].0, acts[0].1);
      RunInv(Next(s, acts[0].0, acts[0].1).value, acts[1..]);
    }
  }

  /** Whatever updates are lost, the throttle is a whole number of steps, at most the cap, and zero until a raise is
      stored; and no item taken gets more than six attempts. */
  lemma EveryInterleaving(workers: nat, acts: seq<(nat, Answer)>)
    requires Run(Init(workers), acts).Some?
    ensures var s := Run(Init(workers), acts).value;
      && s.throttle % 120 == 0 && s.throttle <= 3_000 && s.throttle <= 120 * s.raises
      && s.tested <= 6 * s.takes
  {
    IdleAllowance(workers);
    RunInv(Init(workers), acts);
  }

  lemma {:induction false} RunSplits(s: Pool, acts: seq<(nat, Answer)>, more: seq<(nat, Answer)>)
    requires Run(s, acts).Some?
    ensures Run(s, acts + more) == Run(Run(s, acts).value, more)
    decreases |acts|
  {
    if acts == [] {
      assert acts + more == more;
    } else {
      assert (acts + more)[1..] == acts[1..] + more;
      RunSplits(Next(s, acts[0].0, acts[0].1).value, acts[1..], more);
    }
  }

  lemma ThenStep(s0: Pool, acts: seq<(nat, Answer)>, w: nat, a: Answer) returns (acts': seq<(nat, Answer)>)
    requires Run(s0, acts).Some? && Next(Run(s0, acts).value, w, a).Some?
    ensures acts' == acts + [(w, a)] && Run(s0, acts') == Next(Run(s0, acts).value, w, a)
  {
    acts' := acts + [(w, a)];
    RunSplits(s0, acts, [(w, a)]);
    var s' := Next(Run(s0, acts).value, w, a).value;
    assert Run(s', []) == Some(s');
  }

  // ---------------------------------------------------------------------------------------------
  // When updates are lost.
  // ---------------------------------------------------------------------------------------------

  /** What a worker is about to store was computed from the throttle as it is now. */
  predicate UpToDate(s: Pool, w: nat)
    requires w < |s.workers|
  {
    match s.workers[w]
    case RaiseStore(_, cur) => cur == s.throttle
    case DecayStore(cur) => cur == s.throttle
    case _ => true
  }

  predicate AllUpToDate(s: Pool) {
    forall w :: 0 <= w < |s.workers| ==> UpToDate(s, w)
  }

  /** In no run of `n` workers does a store overwrite what another worker stored since the load. */
  ghost predicate NeverLoses(n: nat) {
    forall acts :: Run(Init(n), acts).Some? ==> AllUpToDate(Run(Init(n), acts).value)
  }

  lemma {:induction false} AloneIsUpToDate(s: Pool, acts: seq<(nat, Answer)>)
    requires |s.workers| <= 1 && AllUpToDate(s) && Run(s, acts).Some?
    ensures AllUpToDate(Run(s, acts).value)
    decreases |acts|
  {
    if acts != [] {
      AloneIsUpToDate(Next(s, acts[0].0, acts[0].1).value, acts[1..]);
    }
  }

  /** With two workers or more updates really are lost: two workers are rate-limited once each, and one stores its raise
      while the other still holds what it loaded before; after both raises the throttle is one step up, not two. */
  lemma RaisesCanBeLost(n: nat) returns (between: seq<(nat, Answer)>, acts: seq<(nat, Answer)>)
    requires n >= 2
    ensures Run(Init(n), between).Some? && !AllUpToDate(Run(Init(n), between).value)
    ensures acts == between + [(1, Continue)] && Run(Init(n), acts).Some?
    ensures var s := Run(Init(n), acts).value; s.raises == 2 && s.tested == 2 && s.throttle == STEP
  {
    var s0 := Init(n);
    between := [];
    between := ThenStep(s0, between, 0, Took);
    between := ThenStep(s0, between, 1, Took);
    between := ThenStep(s0, between, 0, Limited);
    between := ThenStep(s0, between, 1, Limited);
    between := ThenStep(s0, between, 0, Continue);
    between := ThenStep(s0, between, 1, Continue);
    between := ThenStep(s0, between, 0, Continue);
    assert !UpToDate(Run(s0, between).value, 1);
    acts := ThenStep(s0, between, 1, Continue);
  }

  /** The exact condition: no update is ever lost if and only if there is at most one worker. */
  lemma LosesExactly(n: nat)
    ensures NeverLoses(n) <==> n <= 1
  {
    if n <= 1 {
      forall acts | Run(Init(n), acts).Some?
        ensures AllUpToDate(Run(Init(n), acts).value)
      {
        AloneIsUpToDate(Init(n), acts);
      }
    } else {
      var between, acts := RaisesCanBeLost(n);
    }
  }

  // ---------------------------------------------------------------------------------------------
  // What the throttle is for: one worker alone.
  // ---------------------------------------------------------------------------------------------

  /** The outcomes of a run, in order. */
  function Outcomes(acts: seq<(nat, Answer)>): seq<Answer> {
    if acts == [] then []
    else
      var last := acts[|acts| - 1].1;
      Outcomes(acts[..|acts| - 1]) + if last == Limited || last == OtherOutcome then [last] else []
  }

  /** The delay after these outcomes: 120 more for each rate limit, up to 3000, and 120 less for any other. */
  function DelayAfter(os: seq<Answer>): nat {
    if os == [] then 0
    else
      var before := DelayAfter(os[..|os| - 1]);
      if os[|os| - 1] == Limited then if before > 2880 then 3000 else before + 120
      else if before < 120 then 0 else before - 120
  }

  /** The throttle is the delay after all outcomes, or, before the last one is stored, after all others. */
  ghost predicate Follows(s: Pool, os: seq<Answer>) {
    |s.workers| == 1 ==>
      match s.workers[0]
      case RaiseLoad(_) => os != [] && os[|os| - 1] == Limited && s.throttle == DelayAfter(os[..|os| - 1])
      case RaiseStore(_, cur) =>
        os != [] && os[|os| - 1] == Limited && cur == s.throttle == DelayAfter(os[..|os| - 1])
      case DecayLoad => os != [] && os[|os| - 1] == OtherOutcome && s.throttle == DelayAfter(os[..|os| - 1])
      case DecayStore(cur) =>
        os != [] && os[|os| - 1] == OtherOutcome && cur == s.throttle == DelayAfter(os[..|os| - 1])
      case _ => s.throttle == DelayAfter(os)
  }

  lemma FollowsStep(s: Pool, w: nat, a: Answer, os: seq<Answer>)
    requires Follows(s, os) && Next(s, w, a).Some?
    ensures Follows(Next(s, w, a).value, os + if a == Limited || a == OtherOutcome then [a] else [])
  {
    if |s.workers| == 1 {
      var os' := os + if a == Limited || a == OtherOutcome then [a] else [];
      if a == Limited || a == OtherOutcome {
        assert os'[..|os'| - 1] == os && os'[|os'| - 1] == a;
      } else {
        assert os' == os;
      }
    }
  }

  /** A worker alone waits exactly as long as its outcomes ask for: the throttle rises with every rate limit and decays
      with every other outcome. */
  lemma {:induction false} ThrottleFollows(acts: seq<(nat, Answer)>)
    requires Run(Init(1), acts).Some?
    ensures Follows(Run(Init(1), acts).value, Outcomes(acts))
    decreases |acts|
  {
    hide Follows, Next;
    if acts == [] {
      StartFollows();
    } else {
      var front, last := acts[..|acts| - 1], acts[|acts| - 1];
      assert acts == front + [last];
      FrontRuns(Init(1), front, last);
      ThrottleFollows(front);
      FollowsStep(Run(Init(1), front).value, last.0, last.1, Outcomes(front));
    }
  }

  lemma StartFollows()
    ensures Follows(Init(1), [])
  {
  }

  lemma {:induction false} FrontRuns(s: Pool, front: seq<(nat, Answer)>, last: (nat, Answer))
    requires Run(s, front + [last]).Some?
    ensures Run(s, front).Some? && Run(s, front + [last]) == Next(Run(s, front).value, last.0, last.1)
    decreases |front|
  {
    hide Next;
    if front == [] {
      assert front + [last] == [last];
      assert [last][1..] == [];
    } else {
      assert (front + [last])[1..] == front[1..] + [last];
      FrontRuns(Next(s, front[0].0, front[0].1).value, front[1..], last);
    }
  }

  lemma DelayStep(os: seq<Answer>, a: Answer)
    ensures DelayAfter(os + [a])
            == if a == Limited then Least(3000, DelayAfter(os) + 120) else Excess(DelayAfter(os), 120)
  {
    assert (os + [a])[..|os|] == os;
    DelayIsCapped(os);
  }

  /** `k` rate limits in a row add up to the cap, and `k` other outcomes in a row undo them. */
  lemma {:induction false} DelayOfStreak(os: seq<Answer>, k: nat)
    ensures DelayAfter(os + Streak(Limited, k)) == Least(3000, DelayAfter(os) + 120 * k)
    ensures DelayAfter(os + Streak(OtherOutcome, k)) == Excess(DelayAfter(os), 120 * k)
  {
    hide DelayAfter, Streak;
    DelayIsCapped(os);
    StreakStep(os, Limited, k);
    StreakStep(os, OtherOutcome, k);
    if k > 0 {
      DelayOfStreak(os, k - 1);
      DelayStep(os + Streak(Limited, k - 1), Limited);
      DelayStep(os + Streak(OtherOutcome, k - 1), OtherOutcome);
    }
  }

  function Streak(a: Answer, k: nat): seq<Answer> {
    if k == 0 then [] else Streak(a, k - 1) + [a]
  }

  lemma StreakStep(os: seq<Answer>, a: Answer, k: nat)
    ensures k == 0 ==> os + Streak(a, k) == os
    ensures k > 0 ==> os + Streak(a, k) == os + Streak(a, k - 1) + [a]
  {
  }

  lemma {:induction false} DelayIsCapped(os: seq<Answer>)
    ensures DelayAfter(os) <= 3000
  {
    if os != [] {
      DelayIsCapped(os[..|os| - 1]);
    }
  }

  function Least(x: nat, y: nat): nat {
    if x <= y then x else y
  }

  function Excess(x: nat, y: nat): nat {
    if x <= y then 0 else x - y
  }

  // ---------------------------------------------------------------------------------------------
  // How often an item is tried.
  // ---------------------------------------------------------------------------------------------

  /** Only worker `w` moves, keeps its item, and is rate limited by every probe. */
  predicate AlwaysLimited(acts: seq<(nat, Answer)>, w: nat) {
    forall i :: 0 <= i < |acts| ==> acts[i].0 == w && (acts[i].1 == Limited || acts[i].1 == Continue)
  }

  /** Attempts still to come of an item that is always rate limited. */
  function TriesLeft(k: Worker): int {
    match k
    case Send(n) => 6 - n
    case RaiseLoad(n) => 5 - n
    case RaiseStore(n, _) => 5 - n
    case Backoff(n) => 6 - n
    case _ => 0
  }

  predicate IsTrying(k: Worker) {
    match k
    case Send(n) => n <= 5
    case RaiseLoad(n) => n <= 5
    case RaiseStore(n, _) => n <= 5
    case Backoff(n) => n <= 5
    case _ => false
  }

  lemma TryStep(s: Pool, w: nat, a: Answer)
    requires w < |s.workers| && IsTrying(s.workers[w]) && (a == Limited || a == Continue) && Next(s, w, a).Some?
    ensures var s' := Next(s, w, a).value;
      && |s'.workers| == |s.workers| && (IsTrying(s'.workers[w]) || s'.workers[w] == Record)
      && s'.tested + TriesLeft(s'.workers[w]) == s.tested + TriesLeft(s.workers[w])
  {
  }

  lemma RecordStep(s: Pool, w: nat, a: Answer)
    requires w < |s.workers| && (s.workers[w] == Record || s.workers[w] == Idle)
    requires (a == Limited || a == Continue) && Next(s, w, a).Some?
    ensures var s' := Next(s, w, a).value;
      |s'.workers| == |s.workers| && s'.workers[w] == Idle && s'.tested == s.tested
  {
  }

  lemma {:induction false} NothingAfterRecord(s: Pool, acts: seq<(nat, Answer)>, w: nat)
    requires w < |s.workers| && (s.workers[w] == Record || s.workers[w] == Idle)
    requires AlwaysLimited(acts, w) && Run(s, acts).Some?
    ensures var s' := Run(s, acts).value;
      && |s'.workers| == |s.workers| && (s'.workers[w] == Record || s'.workers[w] == Idle) && s'.tested == s.tested
    decreases |acts|
  {
    hide Next;
    if acts != [] {
      RecordStep(s, w, acts[0].1);
      assert forall i :: 0 <= i < |acts[1..]| ==> acts[1..][i] == acts[i + 1];
      NothingAfterRecord(Next(s, acts[0].0, acts[0].1).value, acts[1..], w);
    }
  }

  lemma {:induction false} TriedFrom(s: Pool, acts: seq<(nat, Answer)>, w: nat)
    requires w < |s.workers| && IsTrying(s.workers[w]) && AlwaysLimited(acts, w) && Run(s, acts).Some?
    ensures var s' := Run(s, acts).value;
      |s'.workers| == |s.workers| && s'.tested + TriesLeft(s'.workers[w]) == s.tested + TriesLeft(s.workers[w])
    decreases |acts|
  {
    hide Next;
    if acts != [] {
      var s1 := Next(s, acts[0].0, acts[0].1).value;
      TryStep(s, w, acts[0].1);
      assert forall i :: 0 <= i < |acts[1..]| ==> acts[1..][i] == acts[i + 1];
      if IsTrying(s1.workers[w]) {
        TriedFrom(s1, acts[1..], w);
      } else {
        NothingAfterRecord(s1, acts[1..], w);
      }
    }
  }

  /** An item that is always rate limited is tried exactly six times before its outcome is written. */
  lemma TriedSixTimes(s: Pool, acts: seq<(nat, Answer)>, w: nat)
    requires w < |s.workers| && s.workers[w] == Idle && acts != [] && acts[0] == (w, Took)
    requires AlwaysLimited(acts[1..], w) && Run(s, acts).Some?
    ensures var s' := Run(s, acts).value;
      && |s'.workers| == |s.workers|
      && (s'.workers[w] == Record || s'.workers[w] == Idle ==> s'.tested == s.tested + 6)
  {
    TriedFrom(Next(s, w, Took).value, acts[1..], w);
  }
}
