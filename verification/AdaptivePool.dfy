/**
 The adaptive scan worker pool as a transition system: one step for every access a worker makes to the
 queue, to the shared concurrency target, to the `drained` flag or to the result stream, interleaved in
 any order with the controller and with the consumer's disconnection. The count of attempts is taken together
 with the outcome of the attempt.
 */
module AdaptivePool {
  import opened Wrappers
  import opened Resilience

  type Entry = nat

  /** `rateOn` switches the concurrency gate on; `ceiling` is the hard cap on retries. */
  datatype Config = Config(entries: set<Entry>, workers: nat, rateOn: bool, ceiling: nat)

  /** What a worker is about to do. A locked row is skipped by the claims of others, to whom the queue can so look
      empty; a claim that fails gives the row free again. */
  datatype Worker =
    | Gate                                                 // load the concurrency target
    | Parked                                               // above the target: load `drained`
    | ParkedOpen                                           // not drained: check the result stream
    | Pace                                                 // look at the pause flag
    | CheckStream                                          // check the result stream before fetching
    | Fetch                                                // look for a queued row and lock it
    | Claim(entry: Entry)                                  // row locked: mark it, then read its URL and word
    | Drain                                                // queue found empty: store `drained`
    | Probe(entry: Entry, attempt: nat)                    // send the request
    | Judge(entry: Entry, attempt: nat, kind: ProbeClass, retryAfter: Option<nat>) // decide on a retry
    | Backoff(entry: Entry, attempt: nat)                  // backed off: check the result stream
    | Record(entry: Entry)                                 // write the outcome
    | Reset(entry: Entry)                                  // the write failed: put the entry back
    | Exited

  /** `abandoned` are the entries marked as being scanned that no worker holds: nothing brings them back. It is
      history, as are the fields behind it: entries taken, and failures seen. */
  datatype Pool = Pool(
    queued: multiset<Entry>,
    records: multiset<Entry>,
    workers: seq<Worker>,
    target: nat,
    drained: bool,
    closed: bool,
    tested: nat,
    abandoned: multiset<Entry>,
    takes: nat,
    writeFailed: bool,
    crashed: bool,
    lookupFailed: bool)

  /** What the surroundings answer to a worker's step. `Fails` is a write that fails, that of a claim included, and
      `LookupFails` a query that fails once the claim is made. */
  datatype Answer =
    | Ok
    | PauseSet
    | FetchError
    | Take(entry: Entry)
    | LookupFails
    | Outcome(kind: ProbeClass, retryAfter: Option<nat>)
    | Score(score: real)
    | Fails
    | Crash

  datatype Action = Move(w: nat, answer: Answer) | Retarget(target: nat) | Disconnect | Idle

  function Init(c: Config): Pool {
    Pool(multiset(c.entries), multiset{}, seq(c.workers, i => Gate), if c.rateOn then 1 else c.workers,
         false, false, 0, multiset{}, 0, false, false, false)
  }

  predicate Holds(k: Worker) {
    k.Claim? || k.Probe? || k.Judge? || k.Backoff? || k.Record? || k.Reset?
  }

  /** What a step does to the shared state, besides moving its worker on. */
  datatype Op =
    | Nothing
    | Took(entry: Entry)
    | FoundEmpty
    | Sent
    | Recorded(entry: Entry)
    | WriteFailed
    | Requeued(entry: Entry)
    | Left(entry: Entry)
    | Dropped(entry: Entry)

  datatype Effect = Effect(next: Worker, op: Op)

  /** A worker that ends while holding an entry leaves it behind. */
  function Leave(k: Worker): Effect {
    Effect(Exited, if Holds(k) then Left(k.entry) else Nothing)
  }

  predicate AboveTarget(c: Config, s: Pool, w: nat) {
    c.rateOn && w >= (if s.target < 1 then 1 else s.target)
  }

  /** The step of worker `w`, or `None` when `a` is no answer to what it is doing. */
  function WorkerStep(c: Config, s: Pool, w: nat, a: Answer): Option<Effect>
    requires w < |s.workers|
  {
    var k := s.workers[w];
    if k.Exited? then None
    else if a.Crash? then Some(Leave(k))
    else
      match k
      case Gate => if a != Ok then None else Some(Effect(if AboveTarget(c, s, w) then Parked else Pace, Nothing))
      case Parked => if a != Ok then None else if s.drained then Some(Leave(k)) else Some(Effect(ParkedOpen, Nothing))
      case ParkedOpen => if a != Ok then None else if s.closed then Some(Leave(k)) else Some(Effect(Gate, Nothing))
      case Pace =>
        if a.PauseSet? then Some(Effect(Gate, Nothing))
        else if a == Ok then Some(Effect(CheckStream, Nothing))
        else None
      case CheckStream => if a != Ok then None else if s.closed then Some(Leave(k)) else Some(Effect(Fetch, Nothing))
      case Fetch =>
        if a.FetchError? then Some(Effect(Gate, Nothing))
        else if a.Take? && a.entry in s.queued then Some(Effect(Claim(a.entry), Took(a.entry)))
        else if a == Ok && s.queued == multiset{} then Some(Effect(Drain, Nothing))
        else None
      case Drain => if a != Ok then None else Some(Effect(Exited, FoundEmpty))
      case Claim(e) =>
        if a.LookupFails? then Some(Effect(Gate, Dropped(e)))
        else if a.Fails? then Some(Effect(Gate, Requeued(e)))
        else if a == Ok then Some(Effect(Probe(e, 0), Nothing))
        else None
      case Probe(e, n) => if a.Outcome? then Some(Effect(Judge(e, n, a.kind, a.retryAfter), Sent)) else None
      case Judge(e, n, kind, retryAfter) =>
        if !a.Score? then None
        else if Decide(c.ceiling, kind, n, a.score, retryAfter).retry then Some(Effect(Backoff(e, n + 1), Nothing))
        else Some(Effect(Record(e), Nothing))
      case Backoff(e, n) =>
        if a != Ok then None else if s.closed then Some(Leave(k)) else Some(Effect(Probe(e, n), Nothing))
      case Record(e) =>
        if a.Fails? then Some(Effect(Reset(e), WriteFailed))
        else if a == Ok then Some(Effect(Gate, Recorded(e)))
        else None
      case Reset(e) =>
        if a.Fails? then Some(Effect(Gate, Left(e))) else if a == Ok then Some(Effect(Gate, Requeued(e))) else None
      case Exited => None
  }

  function Bag(b: bool, op: Op): multiset<Entry> {
    if b && (op.Took? || op.Recorded? || op.Requeued? || op.Left? || op.Dropped?) then multiset{op.entry}
      else multiset{}
  }

  function Apply(s: Pool, w: nat, e: Effect, crash: bool): Pool
    requires w < |s.workers|
  {
    Pool(
      s.queued - Bag(e.op.Took?, e.op) + Bag(e.op.Requeued?, e.op),
      s.records + Bag(e.op.Recorded?, e.op),
      s.workers[w := e.next],
      s.target,
      s.drained || e.op == FoundEmpty,
      s.closed,
      s.tested + if e.op == Sent then 1 else 0,
      s.abandoned + Bag(e.op.Left? || e.op.Dropped?, e.op),
      s.takes + if e.op.Took? then 1 else 0,
      s.writeFailed || e.op == WriteFailed || e.op.Requeued?,
      s.crashed || crash,
      s.lookupFailed || e.op.Dropped?)
  }

  function Next(c: Config, s: Pool, a: Action): Option<Pool> {
    match a
    case Move(w, answer) =>
      if w < |s.workers| && WorkerStep(c, s, w, answer).Some?
      then Some(Apply(s, w, WorkerStep(c, s, w, answer).value, answer.Crash?))
      else None
    case Retarget(n) => if c.rateOn then Some(s.(target := n)) else None
    case Disconnect => Some(s.(closed := true))
    case Idle => Some(s)
  }

  /** The state after the actions `acts`, if each is possible in its turn. */
  function Run(c: Config, s: Pool, acts: seq<Action>): Option<Pool>
    decreases |acts|
  {
    if acts == [] then Some(s)
    else
      var s' := Next(c, s, acts[0]);
      if s'.None? then None else Run(c, s'.value, acts[1..])
  }

  ghost predicate Reachable(c: Config, s: Pool) {
    exists acts :: Run(c, Init(c), acts) == Some(s)
  }

  // ---------------------------------------------------------------------------------------------
  // The invariant of every interleaving.
  // ---------------------------------------------------------------------------------------------

  function Has(k: Worker, e: Entry): nat {
    if Holds(k) && k.entry == e then 1 else 0
  }

  /** How many workers hold `e`. */
  function Holders(ks: seq<Worker>, e: Entry): nat {
    if ks == [] then 0 else Has(ks[0], e) + Holders(ks[1..], e)
  }

  /** How often `e` occurs anywhere: in the queue, in a worker's hands, recorded, or left behind. */
  function Occurrences(s: Pool, e: Entry): nat {
    s.queued[e] + Holders(s.workers, e) + s.records[e] + s.abandoned[e]
  }

  /** Attempts a worker may still spend on the entry it holds. */
  function Allowance(c: Config, k: Worker): nat {
    match k
    case Claim(_) => MaxRetries(c.ceiling) + 1
    case Probe(_, n) => if n <= MaxRetries(c.ceiling) then MaxRetries(c.ceiling) - n + 1 else 0
    case Judge(_, n, _, _) => if n <= MaxRetries(c.ceiling) then MaxRetries(c.ceiling) - n else 0
    case Backoff(_, n) => if n <= MaxRetries(c.ceiling) then MaxRetries(c.ceiling) - n + 1 else 0
    case _ => 0
  }

  function TotalAllowance(c: Config, ks: seq<Worker>): nat {
    if ks == [] then 0 else Allowance(c, ks[0]) + TotalAllowance(c, ks[1..])
  }

  predicate AttemptsBounded(c: Config, k: Worker) {
    match k
    case Probe(_, n) => n <= MaxRetries(c.ceiling)
    case Judge(_, n, _, _) => n <= MaxRetries(c.ceiling)
    case Backoff(_, n) => n <= MaxRetries(c.ceiling)
    case _ => true
  }

  /** Why things ended the way they did. */
  ghost predicate Causes(s: Pool) {
    && (s.abandoned != multiset{} ==> s.closed || s.crashed || s.writeFailed || s.lookupFailed)
    && (s.lookupFailed ==> s.abandoned != multiset{})
    && (!s.writeFailed ==> (s.drained ==> s.queued == multiset{})
                           && forall w :: 0 <= w < |s.workers| ==> (s.workers[w] == Drain ==> s.queued == multiset{})
                                                                   && !s.workers[w].Reset?)
    && (forall w :: 0 <= w < |s.workers| && s.workers[w].Exited? ==> s.drained || s.closed || s.crashed)
  }

  /** Every entry is accounted for, attempts are within their budget, and worker 0 is never parked. */
  ghost predicate Inv(c: Config, s: Pool) {
    && |s.workers| == c.workers
    && (forall e :: Occurrences(s, e) == multiset(c.entries)[e])
    && Causes(s)
    && (forall w :: 0 <= w < |s.workers| ==> AttemptsBounded(c, s.workers[w]))
    && s.tested + TotalAllowance(c, s.workers) <= (1 + MaxRetries(c.ceiling)) * s.takes
    && (|s.workers| > 0 ==> !s.workers[0].Parked? && !s.workers[0].ParkedOpen?)
  }

  lemma {:induction false} UpdateAllowance(c: Config, ks: seq<Worker>, w: nat, k: Worker)
    requires w < |ks|
    ensures TotalAllowance(c, ks[w := k]) + Allowance(c, ks[w]) == TotalAllowance(c, ks) + Allowance(c, k)
  {
    if w == 0 {
      assert ks[0 := k][1..] == ks[1..];
    } else {
      assert ks[w := k][1..] == ks[1..][w - 1 := k];
      UpdateAllowance(c, ks[1..], w - 1, k);
    }
  }

  lemma {:induction false} UpdateHolders(ks: seq<Worker>, w: nat, k: Worker, e: Entry)
    requires w < |ks|
    ensures Holders(ks[w := k], e) + Has(ks[w], e) == Holders(ks, e) + Has(k, e)
  {
    if w == 0 {
      assert ks[0 := k][1..] == ks[1..];
    } else {
      assert ks[w := k][1..] == ks[1..][w - 1 := k];
      UpdateHolders(ks[1..], w - 1, k, e);
    }
  }

  lemma {:induction false} InitWorkers(c: Config, n: nat, e: Entry)
    ensures TotalAllowance(c, seq(n, i => Gate)) == 0
    ensures Holders(seq(n, i => Gate), e) == 0
  {
    if n > 0 {
      assert seq(n, i => Gate)[1..] == seq(n - 1, i => Gate);
      InitWorkers(c, n - 1, e);
    }
  }

  lemma InitInv(c: Config)
    ensures Inv(c, Init(c))
  {
    forall e
      ensures Occurrences(Init(c), e) == multiset(c.entries)[e]
    {
      InitWorkers(c, c.workers, e);
    }
    InitWorkers(c, c.workers, 0);
  }

  /** The operation `op`, being of the kind asked for, concerns `e`. */
  function Carries(b: bool, op: Op, e: Entry): nat {
    if b && (op.Took? || op.Recorded? || op.Requeued? || op.Left? || op.Dropped?) && op.entry == e then 1 else 0
  }

  /** What a step moves between the worker's hand and the shared state. */
  ghost predicate LawfulHand(s: Pool, k: Worker, f: Effect) {
    && (f.op.Took? ==> f.op.entry in s.queued)
    && (forall e :: Has(k, e) + Carries(f.op.Took?, f.op, e)
                    == Has(f.next, e) + Carries(f.op.Requeued?, f.op, e) + Carries(f.op.Recorded?, f.op, e)
                       + Carries(f.op.Left? || f.op.Dropped?, f.op, e))
  }

  /** How a step spends attempts. */
  ghost predicate LawfulBudget(c: Config, k: Worker, f: Effect) {
    AttemptsBounded(c, k) ==>
      && AttemptsBounded(c, f.next)
      && (if f.op == Sent then 1 else 0) + Allowance(c, f.next)
         <= Allowance(c, k) + if f.op.Took? then 1 + MaxRetries(c.ceiling) else 0
  }

  /** Which steps can lose an entry, end a worker, or find the queue empty. */
  ghost predicate LawfulCause(s: Pool, w: nat, k: Worker, f: Effect, crash: bool) {
    && (f.op.Left? ==> s.closed || crash || k.Reset?)
    && (f.op.Requeued? ==> (k.Reset? || k.Claim?) && f.next == Gate)
    && (f.op == FoundEmpty ==> k == Drain)
    && (f.next == Drain ==> s.queued == multiset{} && f.op == Nothing)
    && (f.next.Reset? ==> f.op == WriteFailed)
    && (f.next.Exited? ==> f.op == FoundEmpty || s.closed || crash || (s.drained && k == Parked))
    && (w == 0 && !k.Parked? ==> !f.next.Parked? && !f.next.ParkedOpen?)
  }

  ghost predicate Lawful(c: Config, s: Pool, w: nat, f: Effect, crash: bool)
    requires w < |s.workers|
  {
    LawfulHand(s, s.workers[w], f) && LawfulBudget(c, s.workers[w], f) && LawfulCause(s, w, s.workers[w], f, crash)
  }

  lemma StepHand(c: Config, s: Pool, w: nat, a: Answer)
    requires w < |s.workers| && WorkerStep(c, s, w, a).Some?
    ensures LawfulHand(s, s.workers[w], WorkerStep(c, s, w, a).value)
  {
  }

  lemma StepBudget(c: Config, s: Pool, w: nat, a: Answer)
    requires w < |s.workers| && WorkerStep(c, s, w, a).Some?
    ensures LawfulBudget(c, s.workers[w], WorkerStep(c, s, w, a).value)
  {
    var k := s.workers[w];
    if k.Judge? && a.Score? {
      RetryExactly(c.ceiling, k.kind, k.attempt, a.score, k.retryAfter);
    }
  }

  lemma StepCause(c: Config, s: Pool, w: nat, a: Answer)
    requires w < |s.workers| && WorkerStep(c, s, w, a).Some?
    ensures LawfulCause(s, w, s.workers[w], WorkerStep(c, s, w, a).value, a.Crash?)
  {
  }

  lemma StepIsLawful(c: Config, s: Pool, w: nat, a: Answer)
    requires w < |s.workers| && WorkerStep(c, s, w, a).Some?
    ensures Lawful(c, s, w, WorkerStep(c, s, w, a).value, a.Crash?)
  {
    StepHand(c, s, w, a);
    StepBudget(c, s, w, a);
    StepCause(c, s, w, a);
  }

  lemma BagCount(b: bool, op: Op, e: Entry)
    ensures Bag(b, op)[e] == Carries(b, op, e)
  {
  }

  lemma ApplyConserves(c: Config, s: Pool, w: nat, f: Effect, crash: bool, e: Entry)
    requires w < |s.workers| && Lawful(c, s, w, f, crash)
    ensures Occurrences(Apply(s, w, f, crash), e) == Occurrences(s, e)
  {
    UpdateHolders(s.workers, w, f.next, e);
    BagCount(f.op.Took?, f.op, e);
    BagCount(f.op.Requeued?, f.op, e);
    BagCount(f.op.Recorded?, f.op, e);
    BagCount(f.op.Left? || f.op.Dropped?, f.op, e);
  }

  lemma ApplyCauses(c: Config, s: Pool, w: nat, f: Effect, crash: bool)
    requires w < |s.workers| && Causes(s) && Lawful(c, s, w, f, crash)
    ensures Causes(Apply(s, w, f, crash))
  {
  }

  lemma ApplyInv(c: Config, s: Pool, w: nat, f: Effect, crash: bool)
    requires w < |s.workers| && Inv(c, s) && Lawful(c, s, w, f, crash)
    ensures Inv(c, Apply(s, w, f, crash))
  {
    forall e
      ensures Occurrences(Apply(s, w, f, crash), e) == multiset(c.entries)[e]
    {
      ApplyConserves(c, s, w, f, crash, e);
    }
    ApplyCauses(c, s, w, f, crash);
    UpdateAllowance(c, s.workers, w, f.next);
    BudgetArithmetic(MaxRetries(c.ceiling), s.takes, if f.op.Took? then 1 else 0);
  }

  lemma BudgetArithmetic(m: nat, takes: nat, more: nat)
    ensures (1 + m) * (takes + more) == (1 + m) * takes + (1 + m) * more
  {
  }

  lemma {:induction false} RunInv(c: Config, s: Pool, acts: seq<Action>)
    requires Inv(c, s) && Run(c, s, acts).Some?
    ensures Inv(c, Run(c, s, acts).value)
    decreases |acts|
  {
    if acts != [] {
      NextInv(c, s, acts[0]);
      RunInv(c, Next(c, s, acts[0]).value, acts[1..]);
    }
  }

  lemma NextInv(c: Config, s: Pool, a: Action)
    requires Inv(c, s) && Next(c, s, a).Some?
    ensures Inv(c, Next(c, s, a).value)
  {
    if a.Move? {
      StepIsLawful(c, s, a.w, a.answer);
      ApplyInv(c, s, a.w, WorkerStep(c, s, a.w, a.answer).value, a.answer.Crash?);
    }
  }

  predicate HeldBy(s: Pool, e: Entry, w: int) {
    0 <= w < |s.workers| && Holds(s.workers[w]) && s.workers[w].entry == e
  }

  lemma {:induction false} HoldersOf(ks: seq<Worker>, e: Entry)
    ensures forall w :: 0 <= w < |ks| ==> Has(ks[w], e) <= Holders(ks, e)
    ensures forall w, v :: 0 <= w < v < |ks| ==> Has(ks[w], e) + Has(ks[v], e) <= Holders(ks, e)
    ensures Holders(ks, e) > 0 ==> exists w :: 0 <= w < |ks| && Has(ks[w], e) == 1
  {
    if ks != [] {
      HoldersOf(ks[1..], e);
      assert forall w :: 0 < w < |ks| ==> ks[w] == ks[1..][w - 1];
      if Has(ks[0], e) == 0 && Holders(ks, e) > 0 {
        var w :| 0 <= w < |ks[1..]| && Has(ks[1..][w], e) == 1;
        assert Has(ks[w + 1], e) == 1;
      }
    }
  }

  /** In every interleaving each entry is in exactly one place: the queue, the hands of exactly one worker,
      the records (once), or left behind by a worker that ended while holding it. */
  lemma ExactlyOnePlace(c: Config, s: Pool, e: Entry)
    requires Reachable(c, s) && e in c.entries
    ensures s.queued[e] + s.records[e] + s.abandoned[e] <= 1
    ensures s.queued[e] + s.records[e] + s.abandoned[e] == 1 <==> forall w :: !HeldBy(s, e, w)
    ensures forall w, v :: HeldBy(s, e, w) && HeldBy(s, e, v) ==> w == v
  {
    ReachableInv(c, s);
    assert Occurrences(s, e) == 1;
    HoldersOf(s.workers, e);
    assert forall w :: HeldBy(s, e, w) ==> Has(s.workers[w], e) == 1;
    if Holders(s.workers, e) > 0 {
      var w :| 0 <= w < |s.workers| && Has(s.workers[w], e) == 1;
      assert HeldBy(s, e, w);
    }
  }

  /** Nothing but the given entries is ever recorded, and an entry taken once is probed at most
      1 + min(3, ceiling) times. */
  lemma ReachableInv(c: Config, s: Pool)
    requires Reachable(c, s)
    ensures Inv(c, s)
    ensures s.tested <= (1 + MaxRetries(c.ceiling)) * s.takes
  {
    var acts :| Run(c, Init(c), acts) == Some(s);
    InitInv(c);
    RunInv(c, Init(c), acts);
  }

  predicate AllExited(s: Pool) {
    forall w :: 0 <= w < |s.workers| ==> s.workers[w].Exited?
  }

  lemma AllRecordedAtEnd(c: Config, s: Pool)
    requires Inv(c, s) && AllExited(s) && s.queued == multiset{} && s.abandoned == multiset{}
    ensures s.records == multiset(c.entries)
  {
    forall e
      ensures s.records[e] == multiset(c.entries)[e]
    {
      HoldersOf(s.workers, e);
      assert Occurrences(s, e) == s.records[e];
    }
  }

  lemma RestIsExact(c: Config, s: Pool)
    requires Inv(c, s) && c.workers > 0 && AllExited(s) && !s.writeFailed && !s.crashed && !s.closed
    ensures s.queued == multiset{}
    ensures s.records == multiset(c.entries) <==> !s.lookupFailed
  {
    assert s.workers[0].Exited?;
    if s.lookupFailed {
      var e :| e in s.abandoned;
      assert Occurrences(s, e) == multiset(c.entries)[e];
      assert s.records[e] < multiset(c.entries)[e];
    } else {
      AllRecordedAtEnd(c, s);
    }
  }

  /** When every worker has ended without a failed write, a crash or a disconnection, the queue is empty, and every
      entry was recorded, each exactly once, if and only if no lookup failed behind a claim. */
  lemma NothingLost(c: Config, s: Pool)
    requires Reachable(c, s) && c.workers > 0 && AllExited(s)
    requires !s.writeFailed && !s.crashed && !s.closed
    ensures s.queued == multiset{}
    ensures s.records == multiset(c.entries) <==> !s.lookupFailed
  {
    ReachableInv(c, s);
    RestIsExact(c, s);
  }
}
