/**
 What the concurrency target is for: how many workers it lets scan at a time, and that it holds back no others.
 */
module AdaptiveGate {
  import opened Wrappers
  import opened AdaptivePool
  import opened AdaptiveLiveness

  /** The worker scans nothing: it is at the gate, parked behind it, or has ended. */
  predicate Outside(k: Worker) {
    k == Gate || k == Parked || k == ParkedOpen || k == Exited
  }

  /** The controller never asks for more than `k` workers. */
  predicate NeverMore(acts: seq<Action>, k: nat) {
    forall i :: 0 <= i < |acts| && acts[i].Retarget? ==> acts[i].target <= k
  }

  lemma OutsideWorker(c: Config, s: Pool, k: nat, w: nat, a: Answer)
    requires c.rateOn && 1 <= k <= w < |s.workers| && s.target <= k && Outside(s.workers[w])
    requires WorkerStep(c, s, w, a).Some?
    ensures Outside(WorkerStep(c, s, w, a).value.next)
  {
  }

  lemma StaysOutside(c: Config, s: Pool, a: Action, k: nat, w: nat)
    requires c.rateOn && 1 <= k <= w < |s.workers| && s.target <= k && Outside(s.workers[w])
    requires Next(c, s, a).Some? && (a.Retarget? ==> a.target <= k)
    ensures var s' := Next(c, s, a).value;
      s'.target <= k && |s'.workers| == |s.workers| && Outside(s'.workers[w])
  {
    hide WorkerStep, Outside;
    if a.Move? && a.w == w {
      OutsideWorker(c, s, k, w, a.answer);
    } else {
      OthersKeep(c, s, a, w);
    }
  }

  /** A worker behind the gate stays there as long as the target does not rise above its number. */
  lemma {:induction false} HeldBack(c: Config, s: Pool, acts: seq<Action>, k: nat, w: nat)
    requires c.rateOn && 1 <= k <= w < |s.workers| && s.target <= k && Outside(s.workers[w])
    requires Run(c, s, acts).Some? && NeverMore(acts, k)
    ensures var s' := Run(c, s, acts).value; |s'.workers| == |s.workers| && Outside(s'.workers[w])
    decreases |acts|
  {
    hide Next;
    if acts != [] {
      StaysOutside(c, s, acts[0], k, w);
      assert forall i :: 0 <= i < |acts[1..]| ==> acts[1..][i] == acts[i + 1];
      HeldBack(c, Next(c, s, acts[0]).value, acts[1..], k, w);
    }
  }

  /** The workers that scan. */
  function Inside(s: Pool): set<nat> {
    set w: nat | w < |s.workers| && !Outside(s.workers[w])
  }

  function Below(k: nat): (ws: set<nat>)
    ensures |ws| == k && forall w: nat :: w in ws <==> w < k
  {
    if k == 0 then {}
    else
      var rest := Below(k - 1);
      assert k - 1 !in rest;
      rest + {k - 1}
  }

  lemma CardOfSubset(a: set<nat>, b: set<nat>)
    requires a <= b
    ensures |a| <= |b|
  {
    assert b == a + (b - a);
  }

  /** With rate control on, if the controller never asks for more than `k` workers, then in every interleaving none but
      the first `k` ever scan: at most `k` at a time, and only they hold entries. */
  lemma TargetHolds(c: Config, acts: seq<Action>, s: Pool, k: nat)
    requires c.rateOn && k >= 1 && Run(c, Init(c), acts) == Some(s) && NeverMore(acts, k)
    ensures forall w :: k <= w < |s.workers| ==> Outside(s.workers[w])
    ensures |Inside(s)| <= k
    ensures forall w :: 0 <= w < |s.workers| && Holds(s.workers[w]) ==> w in Inside(s)
  {
    assert |s.workers| == c.workers by {
      ReachableInv(c, s);
    }
    forall w | k <= w < |s.workers|
      ensures Outside(s.workers[w])
    {
      HeldBack(c, Init(c), acts, k, w);
    }
    CardOfSubset(Inside(s), Below(k));
  }

  /** How many turns a worker needs to get past the gate once the target is above its number. */
  function TurnsLeft(k: Worker): nat {
    match k
    case Gate => 1
    case ParkedOpen => 2
    case Parked => 3
    case _ => 0
  }

  ghost function TurnsAt(run: nat -> Pool, w: nat, i: nat): nat {
    if w < |run(i).workers| then TurnsLeft(run(i).workers[w]) else 0
  }

  lemma OpenStep(c: Config, s: Pool, w: nat, a: Answer)
    requires w < |s.workers| && WorkerStep(c, s, w, a).Some? && s.target > w && InGate(s.workers[w])
    ensures var s' := Next(c, s, Move(w, a)).value;
      |s'.workers| == |s.workers| && TurnsLeft(s'.workers[w]) < TurnsLeft(s.workers[w])
  {
  }

  /** In a fair run in which the target stays above its number from some point on, a worker gets past the gate, whoever
      else crashes and whatever else fails. */
  lemma {:induction false} TargetLetsIn(c: Config, run: nat -> Pool, sched: nat -> Action, w: nat, i: nat)
    returns (j: nat)
    requires IsRun(c, run, sched) && Fair(c, run, sched) && w < c.workers
    requires forall k: nat :: i <= k ==> run(k).target > w
    ensures i <= j && LetGoAt(run, w, j)
    decreases TurnsAt(run, w, i)
  {
    hide Next;
    RunStates(c, run, sched, i);
    if !InGate(run(i).workers[w]) {
      return i;
    }
    assert HasTurnFrom(run, sched, w, i);
    var turn: nat :| i <= turn && HasTurn(run, sched, w, turn);
    var k := FirstTurn(c, run, sched, w, i, turn);
    WaitsInGate(c, run, sched, w, i, k);
    StepAt(c, run, sched, k);
    TurnIsStep(c, run, sched, w, k);
    OpenStep(c, run(k), w, sched(k).answer);
    j := TargetLetsIn(c, run, sched, w, k + 1);
  }

  lemma TurnIsStep(c: Config, run: nat -> Pool, sched: nat -> Action, w: nat, k: nat)
    requires IsRun(c, run, sched) && HasTurn(run, sched, w, k) && !run(k).workers[w].Exited?
    ensures sched(k) == Move(w, sched(k).answer) && WorkerStep(c, run(k), w, sched(k).answer).Some?
  {
    StepAt(c, run, sched, k);
  }

  // ---------------------------------------------------------------------------------------------
  // Pausing, and the consumer leaving.
  // ---------------------------------------------------------------------------------------------

  /** The worker has not passed the pause flag. */
  predicate BeforePause(k: Worker) {
    Outside(k) || k == Pace
  }

  /** Whoever looks at the pause flag finds it set. */
  ghost predicate StaysPaused(c: Config, s: Pool, acts: seq<Action>) {
    forall i :: 0 <= i < |acts| && acts[i].Move? && Run(c, s, acts[..i]).Some? ==>
      var t := Run(c, s, acts[..i]).value;
      acts[i].w < |t.workers| && t.workers[acts[i].w] == Pace ==> acts[i].answer != Ok
  }

  lemma PausedWorker(c: Config, s: Pool, w: nat, a: Answer)
    requires w < |s.workers| && BeforePause(s.workers[w]) && WorkerStep(c, s, w, a).Some?
    requires s.workers[w] == Pace ==> a != Ok
    ensures BeforePause(WorkerStep(c, s, w, a).value.next)
  {
  }

  lemma PausedStep(c: Config, s: Pool, a: Action, w: nat)
    requires w < |s.workers| && BeforePause(s.workers[w]) && Next(c, s, a).Some?
    requires a.Move? && a.w == w && s.workers[w] == Pace ==> a.answer != Ok
    ensures var s' := Next(c, s, a).value; |s'.workers| == |s.workers| && BeforePause(s'.workers[w])
  {
    hide WorkerStep, BeforePause;
    if a.Move? && a.w == w {
      PausedWorker(c, s, w, a.answer);
    } else {
      OthersKeep(c, s, a, w);
    }
  }

  /** While the pool is paused no worker that has not passed the pause flag gets to take anything, whatever the target
      and the others do. */
  lemma {:induction false} PauseHolds(c: Config, s: Pool, acts: seq<Action>, w: nat)
    requires w < |s.workers| && BeforePause(s.workers[w]) && Run(c, s, acts).Some? && StaysPaused(c, s, acts)
    ensures var s' := Run(c, s, acts).value; |s'.workers| == |s.workers| && BeforePause(s'.workers[w])
    decreases |acts|
  {
    hide Next;
    if acts != [] {
      var s1, rest := Next(c, s, acts[0]).value, acts[1..];
      assert Run(c, s, acts[..0]) == Some(s);
      PausedStep(c, s, acts[0], w);
      forall i | 0 <= i < |rest| && rest[i].Move? && Run(c, s1, rest[..i]).Some?
        ensures var t := Run(c, s1, rest[..i]).value;
          rest[i].w < |t.workers| && t.workers[rest[i].w] == Pace ==> rest[i].answer != Ok
      {
        assert acts[..i + 1][1..] == rest[..i] && acts[..i + 1][0] == acts[0];
        assert Run(c, s, acts[..i + 1]) == Run(c, s1, rest[..i]);
        assert acts[i + 1] == rest[i];
      }
      PauseHolds(c, s1, rest, w);
    }
  }

  /** Whether a worker can still send a probe once the consumer has left: it is past its check of the result stream. */
  function MayProbe(k: Worker): nat {
    if k == Fetch || k.Claim? || k.Probe? then 1 else 0
  }

  function AllMayProbe(ks: seq<Worker>): nat {
    if ks == [] then 0 else MayProbe(ks[0]) + AllMayProbe(ks[1..])
  }

  lemma {:induction false} UpdateMayProbe(ks: seq<Worker>, w: nat, k: Worker)
    requires w < |ks|
    ensures AllMayProbe(ks[w := k]) + MayProbe(ks[w]) == AllMayProbe(ks) + MayProbe(k)
  {
    if w == 0 {
      assert ks[0 := k][1..] == ks[1..];
    } else {
      assert ks[w := k][1..] == ks[1..][w - 1 := k];
      UpdateMayProbe(ks[1..], w - 1, k);
    }
  }

  lemma ClosedStep(c: Config, s: Pool, w: nat, a: Answer)
    requires s.closed && w < |s.workers| && WorkerStep(c, s, w, a).Some?
    ensures var f := WorkerStep(c, s, w, a).value;
      (if f.op == Sent then 1 else 0) + MayProbe(f.next) <= MayProbe(s.workers[w])
  {
  }

  /** Once the consumer has left, every worker sends at most one more probe, and none that was still to check the result
      stream: the pool winds down whatever the answers. */
  lemma {:induction false} ClosedWindsDown(c: Config, s: Pool, acts: seq<Action>)
    requires s.closed && Run(c, s, acts).Some?
    ensures var s' := Run(c, s, acts).value;
      s'.tested + AllMayProbe(s'.workers) <= s.tested + AllMayProbe(s.workers)
    decreases |acts|
  {
    hide WorkerStep;
    if acts != [] {
      if acts[0].Move? {
        var w, f := acts[0].w, WorkerStep(c, s, acts[0].w, acts[0].answer).value;
        ClosedStep(c, s, w, acts[0].answer);
        UpdateMayProbe(s.workers, w, f.next);
      }
      ClosedWindsDown(c, Next(c, s, acts[0]).value, acts[1..]);
    }
  }
}
