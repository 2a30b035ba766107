/**
 Progress of the adaptive pool: infinite runs in which every worker keeps getting turns, against a
 controller that may pin the concurrency target wherever it likes.
 */
module AdaptiveLiveness {
  import opened Wrappers
  import opened Resilience
  import opened AdaptivePool

  /** `run(i)` is the state before action `sched(i)`. */
  ghost predicate IsRun(c: Config, run: nat -> Pool, sched: nat -> Action) {
    && run(0) == Init(c)
    && forall i: nat :: Next(c, run(i), sched(i)) == Some(run(i + 1))
  }

  ghost predicate HasTurn(run: nat -> Pool, sched: nat -> Action, w: nat, i: nat) {
    w < |run(i).workers| && (run(i).workers[w].Exited? || (sched(i).Move? && sched(i).w == w))
  }

  ghost predicate HasTurnFrom(run: nat -> Pool, sched: nat -> Action, w: nat, i: nat) {
    exists j: nat :: i <= j && HasTurn(run, sched, w, j)
  }

  /** Every worker that has not ended gets another turn, always. */
  ghost predicate Fair(c: Config, run: nat -> Pool, sched: nat -> Action) {
    forall w: nat, i: nat :: w < c.workers ==> HasTurnFrom(run, sched, w, i)
  }

  lemma StepAt(c: Config, run: nat -> Pool, sched: nat -> Action, i: nat)
    requires IsRun(c, run, sched)
    ensures Next(c, run(i), sched(i)) == Some(run(i + 1))
  {
  }

  predicate Calm(a: Action) {
    a.Move? ==> !a.answer.PauseSet? && !a.answer.FetchError?
  }

  predicate Harmless(a: Action) {
    !a.Disconnect? && (a.Move? ==> !a.answer.Fails? && !a.answer.Crash?)
  }

  predicate Unharmed(s: Pool) {
    !s.closed && !s.crashed && !s.writeFailed
  }

  lemma {:induction false} RunStates(c: Config, run: nat -> Pool, sched: nat -> Action, i: nat)
    requires IsRun(c, run, sched)
    ensures Inv(c, run(i))
  {
    if i == 0 {
      InitInv(c);
    } else {
      RunStates(c, run, sched, i - 1);
      StepAt(c, run, sched, i - 1);
      NextInv(c, run(i - 1), sched(i - 1));
    }
  }

  lemma {:induction false} StaysUnharmed(c: Config, run: nat -> Pool, sched: nat -> Action, i: nat)
    requires IsRun(c, run, sched) && forall k: nat :: Harmless(sched(k))
    ensures Unharmed(run(i))
  {
    hide Next;
    if i > 0 {
      StaysUnharmed(c, run, sched, i - 1);
      RunStates(c, run, sched, i - 1);
      StepAt(c, run, sched, i - 1);
      StepStaysUnharmed(c, run(i - 1), sched(i - 1));
    }
  }

  lemma StepStaysUnharmed(c: Config, s: Pool, a: Action)
    requires Inv(c, s) && Unharmed(s) && Harmless(a) && Next(c, s, a).Some?
    ensures Unharmed(Next(c, s, a).value)
  {
    hide WorkerStep;
    if a.Move? {
      OnlyFailsWrites(c, s, a.w, a.answer);
    }
  }

  lemma OnlyFailsWrites(c: Config, s: Pool, w: nat, a: Answer)
    requires w < |s.workers| && WorkerStep(c, s, w, a).Some? && !a.Fails? && !s.workers[w].Reset?
    ensures WorkerStep(c, s, w, a).value.op != WriteFailed && !WorkerStep(c, s, w, a).value.op.Requeued?
  {
  }

  // ---------------------------------------------------------------------------------------------
  // The measure: entries still to be taken, then how far the worker is from its next turn at the queue.
  // ---------------------------------------------------------------------------------------------

  predicate Crashes(a: Action) {
    a.Move? && a.answer.Crash?
  }

  predicate FailsNow(a: Action) {
    a.Move? && (a.answer.Fails? || a.answer.Crash?)
  }

  /** Entries to be put back count as still to be taken. */
  function Resets(ks: seq<Worker>): nat {
    if ks == [] then 0 else (if ks[0].Reset? then 1 else 0) + Resets(ks[1..])
  }

  function Todo(s: Pool): nat {
    |s.queued| + Resets(s.workers)
  }

  lemma {:induction false} UpdateResets(ks: seq<Worker>, w: nat, k: Worker)
    requires w < |ks|
    ensures Resets(ks[w := k]) + (if ks[w].Reset? then 1 else 0) == Resets(ks) + if k.Reset? then 1 else 0
  {
    if w == 0 {
      assert ks[0 := k][1..] == ks[1..];
    } else {
      assert ks[w := k][1..] == ks[1..][w - 1 := k];
      UpdateResets(ks[1..], w - 1, k);
    }
  }

  function Stage(c: Config, closed: bool, k: Worker): nat
    requires AttemptsBounded(c, k)
  {
    match k
    case Exited => 0
    case Drain => 1
    case Parked => 2
    case Fetch => 2
    case CheckStream => 3
    case Pace => 4
    case Gate => 5
    case ParkedOpen => if closed then 1 else 6
    case Record(_) => 6
    case Reset(_) => 6
    case Judge(_, n, _, _) => 7 + 3 * (MaxRetries(c.ceiling) - n)
    case Claim(_) => 9 + 3 * MaxRetries(c.ceiling)
    case Probe(_, n) => 8 + 3 * (MaxRetries(c.ceiling) - n)
    case Backoff(_, n) => 9 + 3 * (MaxRetries(c.ceiling) - n)
  }

  function Big(c: Config): nat {
    10 + 3 * MaxRetries(c.ceiling)
  }

  function Measure(c: Config, s: Pool, w: nat): nat
    requires w < |s.workers| && AttemptsBounded(c, s.workers[w])
  {
    Todo(s) * Big(c) + Stage(c, s.closed, s.workers[w])
  }

  lemma TakeIsProgress(c: Config, before: nat, after: nat, stage: nat, stage': nat)
    requires after < before && stage' < Big(c)
    ensures after * Big(c) + stage' < before * Big(c) + stage
  {
    assert after * Big(c) + Big(c) == (after + 1) * Big(c) <= before * Big(c);
  }

  /** A worker that is not sent back by a pause or an error gets closer to its end, once nothing keeps it parked. */
  lemma StageDrops(c: Config, s: Pool, w: nat, a: Answer)
    requires w < |s.workers| && WorkerStep(c, s, w, a).Some? && AttemptsBounded(c, s.workers[w])
    requires Calm(Move(w, a)) && !FailsNow(Move(w, a))
    requires s.drained || s.closed || !s.workers[w].Parked?
    ensures var f := WorkerStep(c, s, w, a).value;
      && AttemptsBounded(c, f.next)
      && Stage(c, s.closed, f.next) < if f.op.Took? then Big(c) else Stage(c, s.closed, s.workers[w])
  {
    var k := s.workers[w];
    if k.Judge? && a.Score? {
      RetryExactly(c.ceiling, k.kind, k.attempt, a.score, k.retryAfter);
    }
  }

  /** Without failures what is still to be taken shrinks with every taking, and by nothing else. */
  lemma TodoShrinks(c: Config, s: Pool, w: nat, a: Answer)
    requires w < |s.workers| && WorkerStep(c, s, w, a).Some? && !FailsNow(Move(w, a))
    ensures var f := WorkerStep(c, s, w, a).value;
      Todo(Apply(s, w, f, a.Crash?)) == Todo(s) - if f.op.Took? then 1 else 0
  {
    var f := WorkerStep(c, s, w, a).value;
    UpdateResets(s.workers, w, f.next);
    StepHand(c, s, w, a);
    PutsBack(c, s, w, a);
  }

  lemma PutsBack(c: Config, s: Pool, w: nat, a: Answer)
    requires w < |s.workers| && WorkerStep(c, s, w, a).Some? && !FailsNow(Move(w, a))
    ensures var f := WorkerStep(c, s, w, a).value; !f.next.Reset? && (f.op.Requeued? <==> s.workers[w].Reset?)
  {
  }

  lemma ClosingHelps(c: Config, k: Worker)
    requires AttemptsBounded(c, k)
    ensures Stage(c, true, k) <= Stage(c, false, k)
  {
  }

  /** No action of anyone else sets a worker back. */
  lemma MeasureKept(c: Config, s: Pool, a: Action, w: nat)
    requires Inv(c, s) && !FailsNow(a) && Next(c, s, a).Some?
    requires w < |s.workers| && !(a.Move? && a.w == w)
    ensures var s' := Next(c, s, a).value;
      && |s'.workers| == |s.workers| && s'.workers[w] == s.workers[w]
      && Measure(c, s', w) <= Measure(c, s, w)
      && (s.drained ==> s'.drained) && (s.closed ==> s'.closed)
  {
    hide WorkerStep, Resets, Stage, Causes, Occurrences, TotalAllowance;
    ClosingHelps(c, s.workers[w]);
    if a.Move? {
      var f := WorkerStep(c, s, a.w, a.answer).value;
      TodoShrinks(c, s, a.w, a.answer);
      if f.op.Took? {
        TakeIsProgress(c, Todo(s), Todo(s) - 1, 0, 0);
      }
    }
  }

  lemma MeasureDrops(c: Config, s: Pool, w: nat, a: Answer)
    requires Inv(c, s) && Calm(Move(w, a)) && !FailsNow(Move(w, a))
    requires w < |s.workers| && WorkerStep(c, s, w, a).Some? && (w == 0 || s.drained || s.closed)
    ensures var s' := Next(c, s, Move(w, a)).value;
      && AttemptsBounded(c, s'.workers[w]) && Measure(c, s', w) < Measure(c, s, w)
      && (s.drained ==> s'.drained) && (s.closed ==> s'.closed)
  {
    hide WorkerStep, Resets, Stage, Causes, Occurrences, TotalAllowance;
    StageDrops(c, s, w, a);
    TodoShrinks(c, s, w, a);
    var f := WorkerStep(c, s, w, a).value;
    if f.op.Took? {
      TakeIsProgress(c, Todo(s), Todo(s) - 1, Stage(c, s.closed, s.workers[w]), Stage(c, s.closed, f.next));
    }
  }

  /** From `calm` on there are no pauses, no errors and no failures. */
  ghost predicate CalmFrom(sched: nat -> Action, calm: nat) {
    forall k: nat :: calm <= k ==> Calm(sched(k)) && !FailsNow(sched(k))
  }

  lemma WaitOnce(c: Config, run: nat -> Pool, sched: nat -> Action, w: nat, k: nat)
    requires IsRun(c, run, sched) && !FailsNow(sched(k)) && w < c.workers && !HasTurn(run, sched, w, k)
    ensures Inv(c, run(k)) && Inv(c, run(k + 1)) && Measure(c, run(k + 1), w) <= Measure(c, run(k), w)
    ensures (run(k).drained ==> run(k + 1).drained) && (run(k).closed ==> run(k + 1).closed)
  {
    hide Measure;
    RunStates(c, run, sched, k);
    RunStates(c, run, sched, k + 1);
    StepAt(c, run, sched, k);
    MeasureKept(c, run(k), sched(k), w);
  }

  /** Until its next turn a worker waits where it is. */
  lemma {:induction false} Waits(c: Config, run: nat -> Pool, sched: nat -> Action, w: nat, i: nat, j: nat)
    requires IsRun(c, run, sched) && w < c.workers && i <= j
    requires forall k: nat :: i <= k < j ==> !FailsNow(sched(k)) && !HasTurn(run, sched, w, k)
    ensures Inv(c, run(i)) && Inv(c, run(j)) && Measure(c, run(j), w) <= Measure(c, run(i), w)
    ensures (run(i).drained ==> run(j).drained) && (run(i).closed ==> run(j).closed)
    decreases j - i
  {
    hide Measure;
    if i == j {
      RunStates(c, run, sched, i);
    } else {
      assert !HasTurn(run, sched, w, i);
      WaitOnce(c, run, sched, w, i);
      Waits(c, run, sched, w, i + 1, j);
    }
  }

  /** The first turn of `w` from `i` on. */
  lemma {:induction false} FirstTurn(c: Config, run: nat -> Pool, sched: nat -> Action, w: nat, i: nat, j: nat)
    returns (k: nat)
    requires i <= j && HasTurn(run, sched, w, j)
    ensures i <= k <= j && HasTurn(run, sched, w, k) && forall m: nat :: i <= m < k ==> !HasTurn(run, sched, w, m)
    decreases j
  {
    if exists m: nat :: i <= m < j && HasTurn(run, sched, w, m) {
      var m: nat :| i <= m < j && HasTurn(run, sched, w, m);
      k := FirstTurn(c, run, sched, w, i, m);
    } else {
      k := j;
    }
  }

  ghost predicate ExitedAt(run: nat -> Pool, w: nat, i: nat) {
    w < |run(i).workers| && run(i).workers[w].Exited?
  }

  lemma {:induction false} Ends(c: Config, run: nat -> Pool, sched: nat -> Action, calm: nat, w: nat, i: nat)
    returns (j: nat)
    requires IsRun(c, run, sched) && Fair(c, run, sched) && CalmFrom(sched, calm)
    requires w < c.workers && calm <= i && (w == 0 || run(i).drained || run(i).closed) && Inv(c, run(i))
    ensures i <= j && ExitedAt(run, w, j)
    decreases Measure(c, run(i), w)
  {
    hide Measure;
    assert HasTurnFrom(run, sched, w, i);
    var turn: nat :| i <= turn && HasTurn(run, sched, w, turn);
    var k := FirstTurn(c, run, sched, w, i, turn);
    Waits(c, run, sched, w, i, k);
    if run(k).workers[w].Exited? {
      j := k;
    } else {
      StepAt(c, run, sched, k);
      MeasureDrops(c, run(k), w, sched(k).answer);
      RunStates(c, run, sched, k + 1);
      j := Ends(c, run, sched, calm, w, k + 1);
    }
  }

  lemma {:induction false} StaysEnded(c: Config, run: nat -> Pool, sched: nat -> Action, w: nat, i: nat, j: nat)
    requires IsRun(c, run, sched) && ExitedAt(run, w, i) && i <= j
    ensures ExitedAt(run, w, j)
    decreases j
  {
    hide Next;
    if i < j {
      StaysEnded(c, run, sched, w, i, j - 1);
      StepAt(c, run, sched, j - 1);
      EndedStep(c, run(j - 1), w, sched(j - 1));
    }
  }

  lemma EndedStep(c: Config, s: Pool, w: nat, a: Action)
    requires w < |s.workers| && s.workers[w].Exited? && Next(c, s, a).Some?
    ensures var s' := Next(c, s, a).value; |s'.workers| == |s.workers| && s'.workers[w].Exited?
  {
  }

  lemma {:induction false} StaysUp(c: Config, run: nat -> Pool, sched: nat -> Action, i: nat)
    requires IsRun(c, run, sched) && forall k: nat :: !Crashes(sched(k))
    ensures !run(i).crashed
  {
    hide Next;
    if i > 0 {
      StaysUp(c, run, sched, i - 1);
      StepAt(c, run, sched, i - 1);
      StepStaysUp(c, run(i - 1), sched(i - 1));
    }
  }

  lemma StepStaysUp(c: Config, s: Pool, a: Action)
    requires !s.crashed && !Crashes(a) && Next(c, s, a).Some?
    ensures !Next(c, s, a).value.crashed
  {
    hide WorkerStep;
  }

  lemma {:induction false} FirstEnd(
      c: Config, run: nat -> Pool, sched: nat -> Action, calm: nat, n: nat, i: nat) returns (j: nat)
    requires IsRun(c, run, sched) && Fair(c, run, sched) && CalmFrom(sched, calm)
    requires forall k: nat :: !Crashes(sched(k))
    requires 0 < n <= c.workers && calm <= i && ExitedAt(run, 0, i)
    ensures i <= j && forall w: nat :: w < n ==> ExitedAt(run, w, j)
    decreases n
  {
    if n == 1 {
      j := i;
    } else {
      var m := FirstEnd(c, run, sched, calm, n - 1, i);
      RunStates(c, run, sched, m);
      StaysUp(c, run, sched, m);
      assert ExitedAt(run, 0, m) && (run(m).drained || run(m).closed);
      j := Ends(c, run, sched, calm, n - 1, m);
      forall w: nat | w < n - 1
        ensures ExitedAt(run, w, j)
      {
        StaysEnded(c, run, sched, w, m, j);
      }
    }
  }

  /** In every fair run without crashes in which pauses, fetch errors and failed writes eventually cease, every worker
      ends, wherever the controller puts the concurrency target meanwhile and whether or not the consumer leaves. */
  lemma EveryFairRunEnds(c: Config, run: nat -> Pool, sched: nat -> Action, calm: nat)
    requires c.workers > 0 && IsRun(c, run, sched) && Fair(c, run, sched) && CalmFrom(sched, calm)
    requires forall k: nat :: !Crashes(sched(k))
    ensures exists j: nat :: AllExited(run(j))
  {
    RunStates(c, run, sched, calm);
    var i := Ends(c, run, sched, calm, 0, calm);
    var j := FirstEnd(c, run, sched, calm, c.workers, i);
    RunStates(c, run, sched, j);
    forall w | 0 <= w < |run(j).workers|
      ensures run(j).workers[w].Exited?
    {
      assert ExitedAt(run, w, j);
    }
  }

  predicate LookupFailsNow(a: Action) {
    a.Move? && a.answer.LookupFails?
  }

  ghost predicate FailedBefore(sched: nat -> Action, i: nat) {
    exists k: nat :: k < i && LookupFailsNow(sched(k))
  }

  /** A failed lookup is remembered, and nothing else is taken for one. */
  lemma {:induction false} LookupsRemembered(c: Config, run: nat -> Pool, sched: nat -> Action, i: nat)
    requires IsRun(c, run, sched)
    ensures run(i).lookupFailed <==> FailedBefore(sched, i)
  {
    hide Next;
    if i > 0 {
      LookupsRemembered(c, run, sched, i - 1);
      StepAt(c, run, sched, i - 1);
      LookupStep(c, run(i - 1), sched(i - 1));
      if FailedBefore(sched, i) {
        var k: nat :| k < i && LookupFailsNow(sched(k));
        assert k < i - 1 || k == i - 1;
      }
    }
  }

  lemma LookupStep(c: Config, s: Pool, a: Action)
    requires Next(c, s, a).Some?
    ensures Next(c, s, a).value.lookupFailed <==> s.lookupFailed || LookupFailsNow(a)
  {
  }

  /** Once all workers have ended no lookup happens. */
  lemma {:induction false} NothingMore(c: Config, run: nat -> Pool, sched: nat -> Action, j: nat, k: nat)
    requires IsRun(c, run, sched) && AllExited(run(j)) && j <= k
    ensures AllExited(run(k)) && !LookupFailsNow(sched(k))
    decreases k
  {
    if j < k {
      NothingMore(c, run, sched, j, k - 1);
      StepAt(c, run, sched, k - 1);
    }
    StepAt(c, run, sched, k);
  }

  /** If moreover no write ever fails and the consumer stays, then every entry is recorded, each exactly once, if and
      only if no lookup ever fails behind a claim. */
  lemma EveryFairRunFinishes(c: Config, run: nat -> Pool, sched: nat -> Action, calm: nat)
    requires c.workers > 0 && IsRun(c, run, sched) && Fair(c, run, sched)
    requires forall k: nat :: Harmless(sched(k))
    requires forall k: nat :: calm <= k ==> Calm(sched(k))
    ensures exists j: nat :: AllExited(run(j))
                             && (run(j).records == multiset(c.entries) <==> forall k: nat :: !LookupFailsNow(sched(k)))
  {
    forall k: nat
      ensures !FailsNow(sched(k)) && !Crashes(sched(k))
    {
      assert Harmless(sched(k));
    }
    EveryFairRunEnds(c, run, sched, calm);
    var j: nat :| AllExited(run(j));
    RunStates(c, run, sched, j);
    StaysUnharmed(c, run, sched, j);
    RestIsExact(c, run(j));
    LookupsRemembered(c, run, sched, j);
    forall k: nat | j <= k
      ensures !LookupFailsNow(sched(k))
    {
      NothingMore(c, run, sched, j, k);
    }
  }

  // ---------------------------------------------------------------------------------------------
  // Parked workers are always let go, whatever else happens.
  // ---------------------------------------------------------------------------------------------

  predicate InGate(k: Worker) {
    k.Gate? || k.Parked? || k.ParkedOpen?
  }

  function GateStage(s: Pool, k: Worker): nat {
    (if s.closed then 0 else 4)
    + match k
      case Gate => if s.closed then 3 else 2
      case Parked => if s.closed then 2 else 1
      case ParkedOpen => if s.closed then 1 else 3
      case _ => 0
  }

  ghost predicate LetGoAt(run: nat -> Pool, w: nat, i: nat) {
    w < |run(i).workers| && !InGate(run(i).workers[w])
  }

  lemma OthersKeep(c: Config, s: Pool, a: Action, w: nat)
    requires w < |s.workers| && Next(c, s, a).Some? && !(a.Move? && a.w == w)
    ensures var s' := Next(c, s, a).value;
      && |s'.workers| == |s.workers| && s'.workers[w] == s.workers[w]
      && (s.drained ==> s'.drained) && (s.closed ==> s'.closed)
  {
  }

  lemma {:induction false} WaitsInGate(c: Config, run: nat -> Pool, sched: nat -> Action, w: nat, i: nat, j: nat)
    requires IsRun(c, run, sched) && w < |run(i).workers| && i <= j
    requires forall k: nat :: i <= k < j ==> !HasTurn(run, sched, w, k)
    ensures |run(i).workers| == |run(j).workers|
    ensures run(j).workers[w] == run(i).workers[w]
    ensures (run(i).drained ==> run(j).drained) && (run(i).closed ==> run(j).closed)
    decreases j - i
  {
    if i < j {
      StepAt(c, run, sched, i);
      assert !HasTurn(run, sched, w, i);
      OthersKeep(c, run(i), sched(i), w);
      WaitsInGate(c, run, sched, w, i + 1, j);
    }
  }

  /** Once the queue was found empty or the consumer left, a worker in the gate passes it or ends. */
  lemma {:induction false} LetGo(c: Config, run: nat -> Pool, sched: nat -> Action, w: nat, i: nat) returns (j: nat)
    requires IsRun(c, run, sched) && Fair(c, run, sched) && w < c.workers && |run(i).workers| == c.workers
    requires run(i).drained || run(i).closed
    ensures i <= j && LetGoAt(run, w, j)
    decreases GateStage(run(i), run(i).workers[w])
  {
    if !InGate(run(i).workers[w]) {
      return i;
    }
    assert HasTurnFrom(run, sched, w, i);
    var turn: nat :| i <= turn && HasTurn(run, sched, w, turn);
    var k := FirstTurn(c, run, sched, w, i, turn);
    WaitsInGate(c, run, sched, w, i, k);
    StepAt(c, run, sched, k);
    GateStep(c, run(k), w, sched(k).answer);
    if InGate(run(k + 1).workers[w]) {
      j := LetGo(c, run, sched, w, k + 1);
    } else {
      j := k + 1;
    }
  }

  lemma GateStep(c: Config, s: Pool, w: nat, a: Answer)
    requires w < |s.workers| && WorkerStep(c, s, w, a).Some? && (s.drained || s.closed) && InGate(s.workers[w])
    ensures var s' := Next(c, s, Move(w, a)).value;
      |s'.workers| == |s.workers| && s'.closed == s.closed && (s.drained ==> s'.drained)
      && (InGate(s'.workers[w]) ==> GateStage(s', s'.workers[w]) < GateStage(s, s.workers[w]))
  {
  }

  ghost predicate CrashedBefore(sched: nat -> Action, w: nat, i: nat) {
    exists k: nat :: k < i && sched(k) == Move(w, Crash)
  }

  /** Worker 0 ends only if the queue was found empty, the consumer left, or it crashed itself. */
  lemma {:induction false} WhyWorker0Ended(c: Config, run: nat -> Pool, sched: nat -> Action, i: nat)
    requires IsRun(c, run, sched) && c.workers > 0
    ensures ExitedAt(run, 0, i) ==> run(i).drained || run(i).closed || CrashedBefore(sched, 0, i)
  {
    hide Next;
    RunStates(c, run, sched, i);
    if i > 0 {
      WhyWorker0Ended(c, run, sched, i - 1);
      RunStates(c, run, sched, i - 1);
      StepAt(c, run, sched, i - 1);
      EndStep(c, run(i - 1), sched(i - 1));
      if CrashedBefore(sched, 0, i - 1) {
        var k: nat :| k < i - 1 && sched(k) == Move(0, Crash);
        assert k < i;
      }
    }
  }

  lemma EndStep(c: Config, s: Pool, a: Action)
    requires Next(c, s, a).Some? && |s.workers| > 0 && !s.workers[0].Parked?
    ensures var s' := Next(c, s, a).value;
      && (s'.workers[0].Exited? && !s.workers[0].Exited? ==> s'.drained || s'.closed || a == Move(0, Crash))
      && (s.drained ==> s'.drained) && (s.closed ==> s'.closed)
      && (!(a.Move? && a.w == 0) ==> s'.workers[0] == s.workers[0])
  {
    hide WorkerStep;
    if a.Move? {
      StepCause(c, s, a.w, a.answer);
    }
  }

  /** Worker 0 is never parked, and once it has ended without crashing itself no worker stays parked: in a fair run each
      leaves the gate, whatever the target, the pauses, the errors, the failures and the crashes of others. */
  lemma NoWorkerStaysParked(c: Config, run: nat -> Pool, sched: nat -> Action, w: nat, i: nat)
    requires IsRun(c, run, sched) && Fair(c, run, sched) && w < c.workers
    ensures |run(i).workers| == c.workers && !run(i).workers[0].Parked? && !run(i).workers[0].ParkedOpen?
    ensures ExitedAt(run, 0, i) && !CrashedBefore(sched, 0, i) ==> LeavesGateFrom(run, w, i)
  {
    RunStates(c, run, sched, i);
    WhyWorker0Ended(c, run, sched, i);
    if ExitedAt(run, 0, i) && !CrashedBefore(sched, 0, i) {
      var j := LetGo(c, run, sched, w, i);
    }
  }

  // ---------------------------------------------------------------------------------------------
  // Exactly when a crash can park a worker for good.
  // ---------------------------------------------------------------------------------------------

  /** No pause, no fetch error, no failed write and no disconnection; crashes are allowed. */
  predicate Untroubled(a: Action) {
    Calm(a) && !a.Disconnect? && (a.Move? ==> !a.answer.Fails?)
  }

  ghost predicate LeavesGateFrom(run: nat -> Pool, w: nat, i: nat) {
    exists j: nat :: i <= j && LetGoAt(run, w, j)
  }

  ghost predicate AllLeaveGate(c: Config, run: nat -> Pool) {
    forall w: nat, i: nat :: w < c.workers ==> LeavesGateFrom(run, w, i)
  }

  /** In every fair run without other trouble every worker keeps leaving the gate. */
  ghost predicate ParksNobody(c: Config) {
    forall run: nat -> Pool, sched: nat -> Action ::
      IsRun(c, run, sched) && Fair(c, run, sched) && (forall k: nat :: Untroubled(sched(k))) ==> AllLeaveGate(c, run)
  }

  /** Without a gate, or with worker 0 alone, nobody is ever parked. */
  lemma {:induction false} NeverParked(c: Config, run: nat -> Pool, sched: nat -> Action, w: nat, i: nat)
    requires IsRun(c, run, sched) && w < c.workers && (!c.rateOn || c.workers == 1)
    ensures |run(i).workers| == c.workers && !run(i).workers[w].Parked? && !run(i).workers[w].ParkedOpen?
  {
    hide Next;
    RunStates(c, run, sched, i);
    if i > 0 {
      NeverParked(c, run, sched, w, i - 1);
      StepAt(c, run, sched, i - 1);
      ParkingStep(c, run(i - 1), sched(i - 1), w);
    }
  }

  lemma ParkingStep(c: Config, s: Pool, a: Action, w: nat)
    requires Next(c, s, a).Some? && w < |s.workers| && !AboveTarget(c, s, w)
    requires !s.workers[w].Parked? && !s.workers[w].ParkedOpen?
    ensures var s' := Next(c, s, a).value;
      |s'.workers| == |s.workers| && !s'.workers[w].Parked? && !s'.workers[w].ParkedOpen?
  {
    hide WorkerStep, AboveTarget;
    if a.Move? && a.w == w {
      StaysOut(c, s, w, a.answer);
    }
  }

  lemma StaysOut(c: Config, s: Pool, w: nat, a: Answer)
    requires w < |s.workers| && WorkerStep(c, s, w, a).Some? && !AboveTarget(c, s, w)
    requires !s.workers[w].Parked? && !s.workers[w].ParkedOpen?
    ensures var k := WorkerStep(c, s, w, a).value.next; !k.Parked? && !k.ParkedOpen?
  {
  }

  lemma PassesGate(c: Config, run: nat -> Pool, sched: nat -> Action, w: nat, i: nat) returns (j: nat)
    requires IsRun(c, run, sched) && Fair(c, run, sched) && w < c.workers && (!c.rateOn || c.workers == 1)
    ensures i <= j && LetGoAt(run, w, j)
  {
    NeverParked(c, run, sched, w, i);
    if !InGate(run(i).workers[w]) {
      return i;
    }
    assert HasTurnFrom(run, sched, w, i);
    var turn: nat :| i <= turn && HasTurn(run, sched, w, turn);
    var k := FirstTurn(c, run, sched, w, i, turn);
    WaitsInGate(c, run, sched, w, i, k);
    StepAt(c, run, sched, k);
    PassStep(c, run(k), w, sched(k).answer);
    j := k + 1;
  }

  lemma PassStep(c: Config, s: Pool, w: nat, a: Answer)
    requires w < |s.workers| && WorkerStep(c, s, w, a).Some? && s.workers[w] == Gate && !AboveTarget(c, s, w)
    ensures var s' := Next(c, s, Move(w, a)).value; w < |s'.workers| && !InGate(s'.workers[w])
  {
  }

  /** Where the gate loop of worker 1 is, `i` actions into it. */
  function Cycle(i: nat): Worker {
    if i % 3 == 0 then Gate else if i % 3 == 1 then Parked else ParkedOpen
  }

  /** The worker that crashes in action `i`: all but worker 1, one after the other. */
  function Victim(i: nat): nat {
    if i == 0 then 0 else i + 1
  }

  /** Before action `i` the first `i` victims have crashed, and once all have worker 1 goes round the gate loop. */
  function WorkerBefore(c: Config, i: nat, w: nat): Worker {
    if w == 1 then if i < c.workers - 1 then Gate else Cycle(i - (c.workers - 1))
    else if i > 0 && w <= i then Exited
    else Gate
  }

  function CrashState(c: Config, i: nat): Pool {
    Init(c).(workers := seq(c.workers, w requires 0 <= w => WorkerBefore(c, i, w)), crashed := i > 0)
  }

  function CrashAction(c: Config, i: nat): Action {
    if i < c.workers - 1 then Move(Victim(i), Crash) else Move(1, Ok)
  }

  lemma NothingMoves(s: Pool, w: nat, k: Worker, crash: bool)
    requires w < |s.workers|
    ensures Apply(s, w, Effect(k, Nothing), crash)
            == s.(workers := s.workers[w := k], crashed := s.crashed || crash)
  {
  }

  lemma CrashStep(c: Config, i: nat)
    requires c.rateOn && c.workers >= 2
    ensures Next(c, CrashState(c, i), CrashAction(c, i)) == Some(CrashState(c, i + 1))
  {
    hide Apply;
    var s, w := CrashState(c, i), CrashAction(c, i).w;
    if i < c.workers - 1 {
      NothingMoves(s, w, Exited, true);
      assert s.workers[w := Exited] == CrashState(c, i + 1).workers;
    } else {
      NothingMoves(s, 1, Cycle(i + 1 - (c.workers - 1)), false);
      assert s.workers[1 := Cycle(i + 1 - (c.workers - 1))] == CrashState(c, i + 1).workers;
    }
  }

  /** With a gate and a second worker: all workers but worker 1 crash in their first step, so that the target stays at
      one and the queue is never found empty; in a fair run without any other trouble worker 1 never leaves the gate,
      and nothing is ever taken from the queue. */
  lemma CrashCanPark(c: Config) returns (run: nat -> Pool, sched: nat -> Action)
    requires c.rateOn && c.workers >= 2
    ensures IsRun(c, run, sched) && Fair(c, run, sched) && forall i: nat :: Untroubled(sched(i))
    ensures forall i: nat :: |run(i).workers| == c.workers && InGate(run(i).workers[1])
                             && run(i).queued == multiset(c.entries)
  {
    hide Next;
    run, sched := (i: nat) => CrashState(c, i), (i: nat) => CrashAction(c, i);
    FirstState(c);
    forall i: nat
      ensures Next(c, run(i), sched(i)) == Some(run(i + 1))
    {
      CrashStep(c, i);
    }
    forall w: nat, i: nat | w < c.workers
      ensures HasTurnFrom(run, sched, w, i)
    {
      assert HasTurn(run, sched, w, i + c.workers);
    }
  }

  lemma FirstState(c: Config)
    requires c.workers >= 2
    ensures CrashState(c, 0) == Init(c)
  {
    assert CrashState(c, 0).workers == Init(c).workers;
  }

  /** The exact condition: crashes can park nobody for good if and only if there is no gate or no second worker. */
  lemma ParksExactly(c: Config)
    ensures ParksNobody(c) <==> !c.rateOn || c.workers <= 1
  {
    if !c.rateOn || c.workers <= 1 {
      forall run: nat -> Pool, sched: nat -> Action | IsRun(c, run, sched) && Fair(c, run, sched)
        ensures AllLeaveGate(c, run)
      {
        forall w: nat, i: nat | w < c.workers
          ensures LeavesGateFrom(run, w, i)
        {
          var j := PassesGate(c, run, sched, w, i);
        }
      }
    } else {
      var run, sched := CrashCanPark(c);
      assert forall j: nat :: !LetGoAt(run, 1, j);
      assert !LeavesGateFrom(run, 1, 0);
      assert !AllLeaveGate(c, run);
    }
  }
}
