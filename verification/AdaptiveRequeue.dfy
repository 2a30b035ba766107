/**
 What failures of the database cost. After a failed write, of an outcome or of a claim, the entry goes back to the
 queue, but workers that were told the queue is drained may already be leaving; after a lookup that fails behind a claim
 nothing puts the entry back. Exactly when can an entry be lost for good?
 */
module AdaptiveRequeue {
  import opened Wrappers
  import opened Resilience
  import opened AdaptivePool

  /** Every way the pool can come to rest, writes failing or not, with the consumer connected, no task crashed and
      every failed write undone, leaves nothing in the queue. */
  ghost predicate DrainsDespiteFailures(c: Config) {
    forall s :: Reachable(c, s) && AllExited(s) && !s.closed && !s.crashed && s.abandoned == multiset{}
                ==> s.queued == multiset{}
  }

  // ---------------------------------------------------------------------------------------------
  // Without a gate to park in, or with worker 0 alone, the last worker to look finds the queue empty.
  // ---------------------------------------------------------------------------------------------

  predicate NeverParks(c: Config) {
    !c.rateOn || c.workers == 1
  }

  predicate Looking(k: Worker) {
    k != Drain && k != Exited
  }

  ghost predicate SomeoneLooks(c: Config, s: Pool) {
    && |s.workers| == c.workers
    && (forall w :: 0 <= w < |s.workers| ==> s.workers[w] != Parked && s.workers[w] != ParkedOpen)
    && (!s.closed && !s.crashed && s.queued != multiset{}
        ==> exists w :: 0 <= w < |s.workers| && Looking(s.workers[w]))
  }

  lemma StepStaysLooking(c: Config, s: Pool, w: nat, a: Answer)
    requires NeverParks(c) && w < |s.workers| == c.workers && WorkerStep(c, s, w, a).Some?
    requires s.workers[w] != Parked && s.workers[w] != ParkedOpen
    ensures var f := WorkerStep(c, s, w, a).value;
      && f.next != Parked && f.next != ParkedOpen
      && (Looking(s.workers[w]) && !s.closed && !a.Crash? && s.queued != multiset{} ==> Looking(f.next))
      && (f.op.Requeued? ==> f.next == Gate)
  {
  }

  lemma NextStaysLooking(c: Config, s: Pool, a: Action)
    requires NeverParks(c) && SomeoneLooks(c, s) && Next(c, s, a).Some?
    ensures SomeoneLooks(c, Next(c, s, a).value)
  {
    if a.Move? {
      StepStaysLooking(c, s, a.w, a.answer);
      var s' := Next(c, s, a).value;
      var f := WorkerStep(c, s, a.w, a.answer).value;
      if !s'.closed && !s'.crashed && s'.queued != multiset{} {
        if s.queued == multiset{} {
          assert f.op.Requeued?;
          assert Looking(s'.workers[a.w]);
        } else {
          var v :| 0 <= v < |s.workers| && Looking(s.workers[v]);
          assert Looking(s'.workers[v]);
        }
      }
    }
  }

  lemma {:induction false} RunStaysLooking(c: Config, s: Pool, acts: seq<Action>)
    requires NeverParks(c) && SomeoneLooks(c, s) && Run(c, s, acts).Some?
    ensures SomeoneLooks(c, Run(c, s, acts).value)
    decreases |acts|
  {
    if acts != [] {
      NextStaysLooking(c, s, acts[0]);
      RunStaysLooking(c, Next(c, s, acts[0]).value, acts[1..]);
    }
  }

  lemma NeverParkingDrains(c: Config)
    requires c.workers > 0 && NeverParks(c)
    ensures DrainsDespiteFailures(c)
  {
    forall s | Reachable(c, s) && AllExited(s) && !s.closed && !s.crashed && s.abandoned == multiset{}
      ensures s.queued == multiset{}
    {
      var acts :| Run(c, Init(c), acts) == Some(s);
      assert Looking(Init(c).workers[0]);
      RunStaysLooking(c, Init(c), acts);
    }
  }

  lemma NothingToDrain(c: Config)
    requires c.entries == {}
    ensures DrainsDespiteFailures(c)
  {
    forall s | Reachable(c, s)
      ensures s.queued == multiset{}
    {
      ReachableInv(c, s);
      forall e
        ensures s.queued[e] == 0
      {
        assert Occurrences(s, e) == 0;
      }
    }
  }

  // ---------------------------------------------------------------------------------------------
  // With a gate, a second worker and something to do, one failed write can strand an entry.
  // ---------------------------------------------------------------------------------------------

  ghost predicate Leads(c: Config, s: Pool, s': Pool) {
    exists acts :: Run(c, s, acts) == Some(s')
  }

  lemma {:induction false} RunSplits(c: Config, s: Pool, acts: seq<Action>, more: seq<Action>)
    requires Run(c, s, acts).Some?
    ensures Run(c, s, acts + more) == Run(c, Run(c, s, acts).value, more)
    decreases |acts|
  {
    if acts == [] {
      assert acts + more == more;
    } else {
      assert (acts + more)[1..] == acts[1..] + more;
      RunSplits(c, Next(c, s, acts[0]).value, acts[1..], more);
    }
  }

  lemma Chain(c: Config, s: Pool, s': Pool, s'': Pool)
    requires Leads(c, s, s') && Leads(c, s', s'')
    ensures Leads(c, s, s'')
  {
    var acts :| Run(c, s, acts) == Some(s');
    var more :| Run(c, s', more) == Some(s'');
    RunSplits(c, s, acts, more);
  }

  lemma OneStep(c: Config, s: Pool, a: Action)
    requires Next(c, s, a).Some?
    ensures Leads(c, s, Next(c, s, a).value)
  {
    var s' := Next(c, s, a).value;
    assert [a][1..] == [];
    assert Run(c, s', []) == Some(s');
    assert Run(c, s, [a]) == Some(s');
  }

  /** What the steps below leave alone. */
  predicate SameElse(s: Pool, s': Pool) {
    && s'.target == s.target && s'.closed == s.closed && s'.crashed == s.crashed && s'.abandoned == s.abandoned
    && s'.writeFailed == s.writeFailed && |s'.workers| == |s.workers|
  }

  /** One step of worker `w` that loses nothing. */
  lemma ThenMove(c: Config, s0: Pool, s: Pool, w: nat, a: Answer, f: Effect) returns (s': Pool)
    requires Leads(c, s0, s) && w < |s.workers| && WorkerStep(c, s, w, a) == Some(f) && !a.Crash?
    requires !f.op.Left? && !f.op.Dropped? && f.op != WriteFailed && (f.op.Requeued? ==> s.writeFailed)
    ensures Leads(c, s0, s') && SameElse(s, s') && s'.workers == s.workers[w := f.next]
    ensures s'.queued == s.queued - Bag(f.op.Took?, f.op) + Bag(f.op.Requeued?, f.op)
    ensures s'.drained == (s.drained || f.op == FoundEmpty)
  {
    s' := Next(c, s, Move(w, a)).value;
    OneStep(c, s, Move(w, a));
    Chain(c, s0, s, s');
    assert Bag(false, f.op) == multiset{};
  }

  /** The write of worker `w` fails. */
  lemma ThenFail(c: Config, s0: Pool, s: Pool, w: nat, e: Entry) returns (s': Pool)
    requires Leads(c, s0, s) && w < |s.workers| && s.workers[w] == Record(e)
    ensures Leads(c, s0, s') && SameElse(s, s'.(writeFailed := s.writeFailed)) && s'.drained == s.drained
    ensures s'.workers == s.workers[w := Reset(e)] && s'.queued == s.queued && s'.writeFailed
  {
    hide WorkerStep;
    WriteSteps(c, s, w, e);
    s' := Next(c, s, Move(w, Fails)).value;
    OneStep(c, s, Move(w, Fails));
    Chain(c, s0, s, s');
    assert Bag(false, WriteFailed) == multiset{};
  }

  lemma ThenRetarget(c: Config, s0: Pool, s: Pool, n: nat) returns (s': Pool)
    requires Leads(c, s0, s) && c.rateOn
    ensures Leads(c, s0, s') && s' == s.(target := n)
  {
    s' := s.(target := n);
    OneStep(c, s, Retarget(n));
    Chain(c, s0, s, s');
  }

  /** Worker `w` goes from the gate to the queue. */
  lemma GoToQueue(c: Config, s0: Pool, s: Pool, w: nat) returns (s': Pool)
    requires Leads(c, s0, s) && w < |s.workers| && s.workers[w] == Gate && !AboveTarget(c, s, w) && !s.closed
    ensures Leads(c, s0, s') && SameElse(s, s') && s'.drained == s.drained
    ensures s'.workers == s.workers[w := Fetch] && s'.queued == s.queued
  {
    s' := ThenMove(c, s0, s, w, Ok, Effect(Pace, Nothing));
    s' := ThenMove(c, s0, s', w, Ok, Effect(CheckStream, Nothing));
    s' := ThenMove(c, s0, s', w, Ok, Effect(Fetch, Nothing));
  }

  /** Worker `w` locks `e` and claims it. */
  lemma ClaimIt(c: Config, s0: Pool, s: Pool, w: nat, e: Entry) returns (s': Pool)
    requires Leads(c, s0, s) && w < |s.workers| && s.workers[w] == Fetch && e in s.queued
    ensures Leads(c, s0, s') && SameElse(s, s') && s'.drained == s.drained
    ensures s'.workers == s.workers[w := Probe(e, 0)] && s'.queued == s.queued - multiset{e}
  {
    hide Leads, Run;
    s' := ThenMove(c, s0, s, w, Take(e), Effect(Claim(e), Took(e)));
    s' := ThenMove(c, s0, s', w, Ok, Effect(Probe(e, 0), Nothing));
  }

  /** Worker `w` gets an answer to its probe at once. */
  lemma ProbeIt(c: Config, s0: Pool, s: Pool, w: nat, e: Entry) returns (s': Pool)
    requires Leads(c, s0, s) && w < |s.workers| && s.workers[w] == Probe(e, 0)
    ensures Leads(c, s0, s') && SameElse(s, s') && s'.drained == s.drained
    ensures s'.workers == s.workers[w := Record(e)] && s'.queued == s.queued
  {
    hide Leads, Run;
    s' := ThenMove(c, s0, s, w, Outcome(Success, None), Effect(Judge(e, 0, Success, None), Sent));
    s' := ThenMove(c, s0, s', w, Score(1.0), Effect(Record(e), Nothing));
  }

  /** Worker `w` goes from the gate to holding `e`, ready to write its outcome. */
  lemma TakeUp(c: Config, s0: Pool, s: Pool, w: nat, e: Entry) returns (s': Pool)
    requires Leads(c, s0, s) && w < |s.workers| && s.workers[w] == Gate && !AboveTarget(c, s, w)
    requires !s.closed && e in s.queued
    ensures Leads(c, s0, s') && SameElse(s, s') && s'.drained == s.drained
    ensures s'.workers == s.workers[w := Record(e)] && s'.queued == s.queued - multiset{e}
  {
    hide Leads, Run, AboveTarget;
    s' := GoToQueue(c, s0, s, w);
    s' := ClaimIt(c, s0, s', w, e);
    s' := ProbeIt(c, s0, s', w, e);
  }

  lemma RecordOne(c: Config, s0: Pool, s: Pool, e: Entry) returns (s': Pool)
    requires Leads(c, s0, s) && |s.workers| > 0 && s.workers[0] == Gate && !s.closed && e in s.queued
    ensures Leads(c, s0, s') && SameElse(s, s') && s'.drained == s.drained
    ensures s'.workers == s.workers && |s'.queued| == |s.queued| - 1
  {
    hide Leads, Run, WorkerStep, AboveTarget, Bag;
    assert !AboveTarget(c, s, 0) by {
      NeverAbove(c, s);
    }
    var t := TakeUp(c, s0, s, 0, e);
    WriteSteps(c, t, 0, e);
    s' := ThenMove(c, s0, t, 0, Ok, Effect(Gate, Recorded(e)));
    OneLess(s.queued, e);
    BackAtGate(s.workers, e);
  }

  lemma NeverAbove(c: Config, s: Pool)
    ensures !AboveTarget(c, s, 0)
  {
  }

  lemma OneLess(queued: multiset<Entry>, e: Entry)
    requires e in queued
    ensures queued - multiset{e} - Bag(false, Recorded(e)) + Bag(false, Recorded(e)) == queued - multiset{e}
    ensures |queued - multiset{e}| == |queued| - 1
  {
  }

  lemma BackAtGate(ks: seq<Worker>, e: Entry)
    requires |ks| > 0 && ks[0] == Gate
    ensures ks[0 := Record(e)][0 := Gate] == ks
  {
  }

  lemma WriteSteps(c: Config, s: Pool, w: nat, e: Entry)
    requires w < |s.workers| && s.workers[w] == Record(e)
    ensures WorkerStep(c, s, w, Ok) == Some(Effect(Gate, Recorded(e)))
    ensures WorkerStep(c, s, w, Fails) == Some(Effect(Reset(e), WriteFailed))
  {
  }

  /** Worker `w` finds the queue empty, says so, and ends. */
  lemma FindEmpty(c: Config, s0: Pool, s: Pool, w: nat) returns (s': Pool)
    requires Leads(c, s0, s) && w < |s.workers| && s.workers[w] == Gate && !AboveTarget(c, s, w)
    requires !s.closed && s.queued == multiset{}
    ensures Leads(c, s0, s') && SameElse(s, s') && s'.drained
    ensures s'.workers == s.workers[w := Exited] && s'.queued == multiset{}
  {
    hide Leads, Run;
    s' := GoToQueue(c, s0, s, w);
    s' := ThenMove(c, s0, s', w, Ok, Effect(Drain, Nothing));
    s' := ThenMove(c, s0, s', w, Ok, Effect(Exited, FoundEmpty));
  }

  /** Worker 0 records whatever is queued. */
  lemma {:induction false} WorkOff(c: Config, s0: Pool, s: Pool) returns (s': Pool)
    requires Leads(c, s0, s) && |s.workers| > 0 && s.workers[0] == Gate && !s.closed
    ensures Leads(c, s0, s') && SameElse(s, s') && s'.drained == s.drained
    ensures s'.workers == s.workers && s'.queued == multiset{}
    decreases |s.queued|
  {
    if s.queued == multiset{} {
      return s;
    }
    var e :| e in s.queued;
    s' := RecordOne(c, s0, s, e);
    s' := WorkOff(c, s0, s');
  }

  /** Worker `w`, above the target, leaves through the gate because the queue is marked drained. */
  lemma LeaveByGate(c: Config, s0: Pool, s: Pool, w: nat) returns (s': Pool)
    requires Leads(c, s0, s) && w < |s.workers| && s.workers[w] == Gate && AboveTarget(c, s, w) && s.drained
    ensures Leads(c, s0, s') && SameElse(s, s') && s'.drained
    ensures s'.workers == s.workers[w := Exited] && s'.queued == s.queued
  {
    s' := ThenMove(c, s0, s, w, Ok, Effect(Parked, Nothing));
    s' := ThenMove(c, s0, s', w, Ok, Effect(Exited, Nothing));
  }

  /** All workers from `w` on leave through the gate. */
  lemma {:induction false} AllLeaveByGate(c: Config, s0: Pool, s: Pool, w: nat) returns (s': Pool)
    requires Leads(c, s0, s) && 0 < w <= |s.workers| && c.rateOn && s.target == 1 && s.drained
    requires forall v :: w <= v < |s.workers| ==> s.workers[v] == Gate
    ensures Leads(c, s0, s') && SameElse(s, s') && s'.drained && s'.queued == s.queued
    ensures forall v :: 0 <= v < |s.workers| ==> s'.workers[v] == if v < w then s.workers[v] else Exited
    decreases |s.workers| - w
  {
    if w == |s.workers| {
      return s;
    }
    s' := LeaveByGate(c, s0, s, w);
    s' := AllLeaveByGate(c, s0, s', w + 1);
  }

  /** Worker 1 fails to write `e` and is about to put it back; worker 0 records the rest and marks the queue drained. */
  lemma DrainMeanwhile(c: Config, e: Entry) returns (s: Pool)
    requires c.rateOn && c.workers >= 2 && e in c.entries
    ensures Leads(c, Init(c), s) && SameElse(Init(c), s.(target := 1, writeFailed := false))
    ensures s.drained && s.queued == multiset{} && s.writeFailed
    ensures s.workers == Init(c).workers[1 := Reset(e)][0 := Exited]
  {
    var s0 := Init(c);
    assert Run(c, s0, []) == Some(s0);
    s := ThenRetarget(c, s0, s0, 2);
    s := TakeUp(c, s0, s, 1, e);
    s := ThenFail(c, s0, s, 1, e);
    s := WorkOff(c, s0, s);
    s := FindEmpty(c, s0, s, 0);
  }

  lemma StrandOne(c: Config, e: Entry) returns (s: Pool)
    requires c.rateOn && c.workers >= 2 && e in c.entries
    ensures Reachable(c, s) && AllExited(s) && !s.closed && !s.crashed && s.abandoned == multiset{}
    ensures e in s.queued
  {
    var s0 := Init(c);
    s := DrainMeanwhile(c, e);
    s := ThenRetarget(c, s0, s, 1);
    s := AllLeaveByGate(c, s0, s, 2);
    s := ThenMove(c, s0, s, 1, Ok, Effect(Gate, Requeued(e)));
    s := LeaveByGate(c, s0, s, 1);
  }

  /** The exact condition: a failed write can strand an entry unless there is nothing to record, no second worker,
      or no concurrency gate. */
  lemma RequeueExactly(c: Config)
    requires c.workers > 0
    ensures DrainsDespiteFailures(c) <==> !c.rateOn || c.workers == 1 || c.entries == {}
  {
    if !c.rateOn || c.workers == 1 {
      NeverParkingDrains(c);
    } else if c.entries == {} {
      NothingToDrain(c);
    } else {
      var e :| e in c.entries;
      var s := StrandOne(c, e);
    }
  }

  // ---------------------------------------------------------------------------------------------
  // A lookup that fails behind a claim.
  // ---------------------------------------------------------------------------------------------

  /** Every way the pool can come to rest, lookups failing or not, without a failed write, a crash or a disconnection,
      leaves everything recorded. */
  ghost predicate SurvivesFailedLookups(c: Config) {
    forall s :: Reachable(c, s) && AllExited(s) && !s.writeFailed && !s.crashed && !s.closed
                ==> s.records == multiset(c.entries)
  }

  /** Worker 0 claims `e` and fails to look it up. */
  lemma DropOne(c: Config, s0: Pool, s: Pool, e: Entry) returns (s': Pool)
    requires Leads(c, s0, s) && |s.workers| > 0 && s.workers[0] == Gate && !AboveTarget(c, s, 0)
    requires !s.closed && e in s.queued && s.abandoned == multiset{}
    ensures Leads(c, s0, s') && SameElse(s, s'.(abandoned := multiset{})) && s'.abandoned == multiset{e}
    ensures s'.workers == s.workers
  {
    hide Leads, Run;
    var t := GoToQueue(c, s0, s, 0);
    t := ThenMove(c, s0, t, 0, Take(e), Effect(Claim(e), Took(e)));
    s' := Next(c, t, Move(0, LookupFails)).value;
    OneStep(c, t, Move(0, LookupFails));
    Chain(c, s0, t, s');
    assert Bag(true, Dropped(e)) == multiset{e} && Bag(false, Dropped(e)) == multiset{};
  }

  /** With nothing left to do all workers from `w` on end, parked or not. */
  lemma {:induction false} AllEnd(c: Config, s0: Pool, s: Pool, w: nat) returns (s': Pool)
    requires Leads(c, s0, s) && w <= |s.workers| && !s.closed && s.queued == multiset{} && (w > 0 ==> s.drained)
    requires forall v :: 0 <= v < |s.workers| ==> s.workers[v] == if v < w then Exited else Gate
    ensures Leads(c, s0, s') && SameElse(s, s') && AllExited(s')
    decreases |s.workers| - w
  {
    hide Leads, Run;
    if w == |s.workers| {
      return s;
    }
    if AboveTarget(c, s, w) {
      s' := LeaveByGate(c, s0, s, w);
    } else {
      s' := FindEmpty(c, s0, s, w);
    }
    s' := AllEnd(c, s0, s', w + 1);
  }

  lemma LoseOne(c: Config, e: Entry) returns (s: Pool)
    requires c.workers > 0 && e in c.entries
    ensures Reachable(c, s) && AllExited(s) && !s.writeFailed && !s.crashed && !s.closed && e in s.abandoned
  {
    var s0 := Init(c);
    assert Run(c, s0, []) == Some(s0);
    s := DropOne(c, s0, s0, e);
    s := WorkOff(c, s0, s);
    s := AllEnd(c, s0, s, 0);
  }

  /** The exact condition: a failed lookup can lose an entry unless there is none. */
  lemma LookupExactly(c: Config)
    requires c.workers > 0
    ensures SurvivesFailedLookups(c) <==> c.entries == {}
  {
    if c.entries == {} {
      forall s | Reachable(c, s)
        ensures s.records == multiset(c.entries)
      {
        ReachableInv(c, s);
        forall e
          ensures s.records[e] == 0
        {
          assert Occurrences(s, e) == 0;
        }
      }
    } else {
      var e :| e in c.entries;
      var s := LoseOne(c, e);
      ReachableInv(c, s);
      assert Occurrences(s, e) == 1;
    }
  }
}
