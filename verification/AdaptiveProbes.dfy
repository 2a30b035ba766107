/** How often an entry is probed: what the retry policy comes to in the pool, over runs. */
module AdaptiveProbes {
  import opened Wrappers
  import opened Resilience
  import opened AdaptivePool

  /** A failure that is worth trying again: the target was busy, failing, silent or out of reach. */
  predicate IsTransient(kind: ProbeClass) {
    kind == RateLimited || kind == ServerError || kind == Timeout || kind == ConnError
  }

  /** Only worker `w` moves, without crashing or taking another entry, and all probes end alike. */
  predicate ProbesOnly(acts: seq<Action>, w: nat, transient: bool) {
    forall i :: 0 <= i < |acts| ==>
      && acts[i].Move? && acts[i].w == w && !acts[i].answer.Crash? && !acts[i].answer.Take?
      && (acts[i].answer.Outcome? ==> IsTransient(acts[i].answer.kind) == transient)
  }

  predicate IsProbing(k: Worker, e: Entry) {
    (k.Probe? || k.Judge? || k.Backoff?) && k.entry == e
  }

  /** Probes still to come before the outcome is written. */
  function ProbesLeft(k: Worker, retries: nat, transient: bool): int {
    match k
    case Probe(_, n) => if transient && n <= retries then 1 + retries - n else 1
    case Judge(_, n, kind, _) => if transient && n <= retries then retries - n else 0
    case Backoff(_, n) => if transient && n <= retries then 1 + retries - n else 1
    case _ => 0
  }

  function LeastOf(x: nat, y: nat): nat {
    if x <= y then x else y
  }

  predicate KindFits(k: Worker, retries: nat, transient: bool) {
    match k
    case Probe(_, n) => n <= retries
    case Judge(_, n, kind, _) => n <= retries && IsTransient(kind) == transient
    case Backoff(_, n) => n <= retries
    case _ => true
  }

  lemma ProbeStep(c: Config, s: Pool, w: nat, a: Answer, e: Entry, transient: bool)
    requires w < |s.workers| && IsProbing(s.workers[w], e) && !a.Crash? && !s.closed
    requires KindFits(s.workers[w], LeastOf(3, c.ceiling), transient)
    requires a.Outcome? ==> IsTransient(a.kind) == transient
    requires Next(c, s, Move(w, a)).Some?
    ensures var s', m := Next(c, s, Move(w, a)).value, LeastOf(3, c.ceiling);
      && |s'.workers| == |s.workers| && !s'.closed
      && (IsProbing(s'.workers[w], e) || s'.workers[w] == Record(e))
      && KindFits(s'.workers[w], m, transient)
      && s'.tested + ProbesLeft(s'.workers[w], m, transient) == s.tested + ProbesLeft(s.workers[w], m, transient)
  {
    var k := s.workers[w];
    if k.Judge? && a.Score? {
      RetryExactly(c.ceiling, k.kind, k.attempt, a.score, k.retryAfter);
    }
  }

  lemma {:induction false} ProbedExactly(
      c: Config, s: Pool, acts: seq<Action>, w: nat, e: Entry, transient: bool)
    requires w < |s.workers| && IsProbing(s.workers[w], e) && !s.closed
    requires KindFits(s.workers[w], LeastOf(3, c.ceiling), transient)
    requires ProbesOnly(acts, w, transient) && Run(c, s, acts).Some?
    requires forall n :: 0 <= n < |acts| ==> StillProbing(c, s, acts, n, w, e)
    ensures var s' := Run(c, s, acts).value;
      && |s'.workers| == |s.workers|
      && (s'.workers[w] == Record(e) ==>
            s'.tested == s.tested + ProbesLeft(s.workers[w], LeastOf(3, c.ceiling), transient))
    decreases |acts|
  {
    hide Next, ProbesLeft, KindFits;
    if acts != [] {
      var rest, s1 := acts[1..], Next(c, s, acts[0]).value;
      ProbeStep(c, s, w, acts[0].answer, e, transient);
      assert acts[0] == Move(w, acts[0].answer);
      if rest == [] {
        assert Run(c, s1, rest) == Some(s1);
        NoneLeft(e, LeastOf(3, c.ceiling), transient);
      } else {
        assert StillProbing(c, s, acts, 1, w, e);
        assert acts[..1] == [acts[0]] && acts[..1][1..] == [];
        assert Run(c, s1, []) == Some(s1) && Run(c, s, acts[..1]) == Some(s1);
        forall n | 0 <= n < |rest|
          ensures StillProbing(c, s1, rest, n, w, e)
        {
          assert StillProbing(c, s, acts, n + 1, w, e);
          assert acts[..n + 1][1..] == rest[..n] && acts[..n + 1][0] == acts[0];
        }
        assert forall i :: 0 <= i < |rest| ==> rest[i] == acts[i + 1];
        ProbedExactly(c, s1, rest, w, e, transient);
      }
    }
  }

  lemma NoneLeft(e: Entry, retries: nat, transient: bool)
    ensures ProbesLeft(Record(e), retries, transient) == 0
  {
  }

  /** After the first `n` actions the worker is still probing `e`. */
  ghost predicate StillProbing(c: Config, s: Pool, acts: seq<Action>, n: nat, w: nat, e: Entry)
    requires n <= |acts|
  {
    var s' := Run(c, s, acts[..n]);
    s'.Some? && w < |s'.value.workers| && IsProbing(s'.value.workers[w], e)
  }

  lemma ClaimedStep(c: Config, s: Pool, w: nat, e: Entry)
    requires w < |s.workers| && s.workers[w] == Claim(e)
    ensures var s' := Next(c, s, Move(w, Ok)); s'.Some? && s'.value == s.(workers := s.workers[w := Probe(e, 0)])
  {
    assert Bag(false, Nothing) == multiset{};
  }

  /** While the consumer stays, an entry once claimed whose probes all fail in a transient way is probed exactly
      1 + min(3, ceiling) times before its outcome is written, whatever the score and Retry-After; one whose first probe
      does not is probed once. */
  lemma RetriesAreUsed(c: Config, s: Pool, acts: seq<Action>, w: nat, e: Entry, transient: bool)
    requires w < |s.workers| && s.workers[w] == Claim(e) && !s.closed && acts != [] && acts[0] == Move(w, Ok)
    requires ProbesOnly(acts, w, transient) && Run(c, s, acts).Some?
    requires forall n :: 1 <= n < |acts| ==> StillProbing(c, s, acts, n, w, e)
    ensures var s' := Run(c, s, acts).value;
      && |s'.workers| == |s.workers|
      && (s'.workers[w] == Record(e) ==>
            s'.tested == s.tested + if transient then 1 + LeastOf(3, c.ceiling) else 1)
  {
    hide Next;
    ClaimedStep(c, s, w, e);
    var s1, rest := Next(c, s, acts[0]).value, acts[1..];
    forall n | 0 <= n < |rest|
      ensures StillProbing(c, s1, rest, n, w, e)
    {
      assert StillProbing(c, s, acts, n + 1, w, e);
      assert acts[..n + 1][1..] == rest[..n] && acts[..n + 1][0] == acts[0];
    }
    assert forall i :: 0 <= i < |rest| ==> rest[i] == acts[i + 1];
    ProbedExactly(c, s1, rest, w, e, transient);
  }
}
