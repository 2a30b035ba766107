/** The retry policy for failed probes. */
module Resilience {
  import opened Wrappers

  datatype ProbeClass = Success | NotFound | RateLimited | ServerError | Timeout | ConnError {
    /** The target gave a usable answer. */
    predicate Answered() {
      Success? || NotFound?
    }
  }

  datatype Decision = Decision(retry: bool, backoffMs: nat)

  const POSTURE_MAX_RETRIES: nat := 3
  const MAX_BACKOFF_MS: nat := 30_000
  const BASE_BACKOFF_MS: nat := 200

  predicate Retryable(kind: ProbeClass) {
    !kind.Answered()
  }

  /** Retries allowed under `ceiling`; an explicit Retry-After asks for at least one. */
  function Allowed(ceiling: nat, retryAfter: Option<nat>): nat {
    var effective := if POSTURE_MAX_RETRIES < ceiling then POSTURE_MAX_RETRIES else ceiling;
    var floor := if retryAfter.Some? then 1 else 0;
    var raised := if effective < floor then floor else effective;
    if raised < ceiling then raised else ceiling
  }

  function Pow2(n: nat): nat {
    if n == 0 then 1 else 2 * Pow2(n - 1)
  }

  function ExpBackoff(attempt: nat, score: real): nat {
    BASE_BACKOFF_MS * Pow2(if attempt < 5 then attempt else 5) * (if score < 0.5 then 2 else 1)
  }

  function Decide(ceiling: nat, kind: ProbeClass, attempt: nat, score: real, retryAfter: Option<nat>): Decision {
    if !Retryable(kind) || attempt >= Allowed(ceiling, retryAfter) then Decision(false, 0)
    else
      var wanted := if retryAfter.Some? then retryAfter.value else ExpBackoff(attempt, score);
      Decision(true, if wanted < MAX_BACKOFF_MS then wanted else MAX_BACKOFF_MS)
  }

  /** The most retries one probe can get, whatever the target answers. */
  function MaxRetries(ceiling: nat): nat {
    if POSTURE_MAX_RETRIES < ceiling then POSTURE_MAX_RETRIES else ceiling
  }

  /** A probe is retried exactly when its failure is transient and it has had fewer than min(3, ceiling) retries:
      neither the health score nor a Retry-After header changes that. */
  lemma RetryExactly(ceiling: nat, kind: ProbeClass, attempt: nat, score: real, retryAfter: Option<nat>)
    ensures Decide(ceiling, kind, attempt, score, retryAfter).retry <==>
            kind in {RateLimited, ServerError, Timeout, ConnError} && attempt < MaxRetries(ceiling)
    ensures Decide(ceiling, kind, attempt, score, retryAfter).backoffMs <= 30_000
  {
  }

  /** How long a retried probe waits: as long as a Retry-After header asks for, up to thirty seconds; else 200 ms before
      the first retry, twice as much before each next one, and twice that while the score is below one half. */
  lemma WaitsExactly(ceiling: nat, kind: ProbeClass, attempt: nat, score: real, retryAfter: Option<nat>)
    requires Decide(ceiling, kind, attempt, score, retryAfter).retry
    ensures var wait := Decide(ceiling, kind, attempt, score, retryAfter).backoffMs;
      && attempt <= 2
      && (retryAfter.Some? && retryAfter.value <= 30_000 ==> wait == retryAfter.value)
      && (retryAfter.Some? && retryAfter.value > 30_000 ==> wait == 30_000)
      && (retryAfter.None? && score >= 0.5 ==> wait == [200, 400, 800][attempt])
      && (retryAfter.None? && score < 0.5 ==> wait == [400, 800, 1600][attempt])
  {
    assert Pow2(0) == 1 && Pow2(1) == 2 && Pow2(2) == 4;
  }

  /** Without a Retry-After header, waiting longer is never followed by waiting less, up to the cap,
      and a stressed target is waited for at least as long as a healthy one. */
  lemma {:induction false} BackoffGrows(
      ceiling: nat, kind: ProbeClass, attempt: nat, later: nat, score: real, score': real)
    requires attempt <= later && score' <= score
    requires Decide(ceiling, kind, later, score', None).retry
    ensures Decide(ceiling, kind, attempt, score, None).backoffMs
            <= Decide(ceiling, kind, later, score', None).backoffMs
  {
    Pow2Grows(attempt, later);
    assert later < 3;
    assert BASE_BACKOFF_MS * Pow2(attempt) <= BASE_BACKOFF_MS * Pow2(later);
  }

  lemma {:induction false} Pow2Grows(a: nat, b: nat)
    requires a <= b
    ensures Pow2(a) <= Pow2(b)
  {
    if a > 0 {
      Pow2Grows(a - 1, b - 1);
    } else if b > 0 {
      Pow2Grows(0, b - 1);
    }
  }
}
