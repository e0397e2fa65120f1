/** Retrying with fixed or jittered exponential back-off. */
module Retry {

  datatype Backoff = Fixed | Exponential

  /** `delay` and `maxDelay` are in milliseconds. */
  datatype RetryOptions = RetryOptions(maxAttempts: int, backoff: Backoff, delay: real, maxDelay: real)

  /** How one attempt ends; `retryable` is false for an open circuit and where `retryOn` says no. */
  datatype Outcome<T, E> = Success(value: T) | Failure(error: E, retryable: bool)

  datatype Result<T, E> = Returned(value: T) | Threw(error: E)

  function Min(a: real, b: real): real {
    if a <= b then a else b
  }

  function Pow2(n: nat): (p: real)
    ensures p >= 1.0
  {
    if n == 0 then 1.0 else 2.0 * Pow2(n - 1)
  }

  /** The exponential back-off before jitter and cap. */
  function Grown(base: real, attempt: nat): real {
    base * Pow2(attempt)
  }

  /** The wait after failed attempt number `attempt`, for a given jitter draw. */
  function ComputeDelay(attempt: nat, opts: RetryOptions, jitter: real): real {
    if opts.backoff == Fixed then Min(opts.delay, opts.maxDelay)
    else Min(Grown(opts.delay, attempt) + jitter, opts.maxDelay)
  }

  /** Attempt `i` ends the loop: it succeeds, must not be retried, or is the last. */
  predicate Ends<T, E>(outcomes: nat -> Outcome<T, E>, maxAttempts: int, i: nat) {
    outcomes(i).Success? || !outcomes(i).retryable || i == maxAttempts - 1
  }

  /** The loop makes this many attempts: the last one ends it, and none before does. */
  ghost predicate StopsAfter<T, E>(outcomes: nat -> Outcome<T, E>, maxAttempts: int, sends: nat) {
    if maxAttempts < 1 then sends == 0
    else
      && 1 <= sends <= maxAttempts
      && (forall i :: 0 <= i < sends - 1 ==> !Ends(outcomes, maxAttempts, i))
      && Ends(outcomes, maxAttempts, sends - 1)
  }

  /** There is only one such number. */
  lemma StopsOnce<T, E>(outcomes: nat -> Outcome<T, E>, maxAttempts: int, m: nat, n: nat)
    requires StopsAfter(outcomes, maxAttempts, m) && StopsAfter(outcomes, maxAttempts, n)
    ensures m == n
  {
  }

  function Waits(opts: RetryOptions, jitters: nat -> real, n: nat): seq<real> {
    seq(n, i requires 0 <= i < n => ComputeDelay(i, opts, jitters(i)))
  }

  /**
   * The retry loop. `outcomes(i)` is what attempt `i` would do, `jitters(i)` the draw after it.
   * `noAttempt` is the error thrown when no attempt is allowed.
   */
  method CallWithRetry<T, E>(outcomes: nat -> Outcome<T, E>, opts: RetryOptions, jitters: nat -> real, noAttempt: E)
    returns (result: Result<T, E>, sends: nat, waits: seq<real>)
    ensures StopsAfter(outcomes, opts.maxAttempts, sends)
    ensures opts.maxAttempts < 1 ==> waits == [] && result == Threw(noAttempt)
    ensures opts.maxAttempts >= 1 ==>
              && waits == Waits(opts, jitters, sends - 1)
              && result == match outcomes(sends - 1)
                           case Success(v) => Returned(v)
                           case Failure(e, _) => Threw(e)
  {
    var lastError := noAttempt;
    sends, waits := 0, [];
    var attempt := 0;
    while attempt < opts.maxAttempts
      invariant 0 <= attempt && (attempt == 0 || attempt <= opts.maxAttempts)
      invariant sends == attempt
      invariant attempt == 0 ==> lastError == noAttempt
      invariant forall i :: 0 <= i < attempt && i < opts.maxAttempts - 1 ==> !Ends(outcomes, opts.maxAttempts, i)
      invariant attempt >= 1 ==> outcomes(attempt - 1).Failure? && lastError == outcomes(attempt - 1).error
      invariant waits ==
                Waits(opts, jitters, if attempt == opts.maxAttempts && attempt >= 1 then attempt - 1 else attempt)
    {
      sends := sends + 1;
      var outcome := outcomes(attempt);
      if outcome.Success? {
        return Returned(outcome.value), sends, waits;
      }
      lastError := outcome.error;
      if !outcome.retryable {
        return Threw(lastError), sends, waits;
      }
      if attempt < opts.maxAttempts - 1 {
        waits := waits + [ComputeDelay(attempt, opts, jitters(attempt))];
      }
      attempt := attempt + 1;
    }
    result := Threw(lastError);
  }

  // ----- The delays -----

  /** A jitter draw is at least zero and below half the base delay (or zero, when the base is zero). */
  ghost predicate IsDraw(opts: RetryOptions, jitter: real) {
    0.0 <= jitter <= opts.delay / 2.0
  }

  lemma MinIsMonotone(x: real, y: real, cap: real)
    requires x <= y
    ensures Min(x, cap) <= Min(y, cap) <= cap
  {
  }

  lemma MinWithJitter(x: real, jitter: real, cap: real)
    requires jitter >= 0.0
    ensures Min(x, cap) <= Min(x + jitter, cap) <= cap
  {
  }

  /** Each delay lies between the capped exponential and the cap. */
  lemma DelayBounds(attempt: nat, opts: RetryOptions, jitter: real)
    requires opts.backoff == Exponential && IsDraw(opts, jitter)
    ensures Min(Grown(opts.delay, attempt), opts.maxDelay) <= ComputeDelay(attempt, opts, jitter) <= opts.maxDelay
  {
    hide Pow2, Grown, Min;
    MinWithJitter(Grown(opts.delay, attempt), jitter, opts.maxDelay);
  }

  /** A fixed delay is the base delay up to the cap, whichever the attempt and the draw. */
  lemma FixedDelays(attempt: nat, opts: RetryOptions, jitter: real)
    requires opts.backoff == Fixed
    ensures ComputeDelay(attempt, opts, jitter) <= opts.delay && ComputeDelay(attempt, opts, jitter) <= opts.maxDelay
    ensures ComputeDelay(attempt, opts, jitter) in {opts.delay, opts.maxDelay}
  {
    hide Pow2, Grown;
  }

  /** An exponential delay below the cap is the base doubled with each attempt, and the draw. */
  lemma UncappedDelay(attempt: nat, opts: RetryOptions, jitter: real)
    requires opts.backoff == Exponential && ComputeDelay(attempt, opts, jitter) < opts.maxDelay
    requires ComputeDelay(attempt + 1, opts, jitter) < opts.maxDelay
    ensures ComputeDelay(attempt + 1, opts, jitter) - jitter == 2.0 * (ComputeDelay(attempt, opts, jitter) - jitter)
    ensures attempt == 0 ==> ComputeDelay(attempt, opts, jitter) == opts.delay + jitter
  {
    hide Pow2, Grown;
    GrownDoubling(opts.delay, attempt);
    GrownFirst(opts.delay);
  }

  lemma GrownDoubling(base: real, attempt: nat)
    ensures Grown(base, attempt + 1) == Grown(base, attempt) + Grown(base, attempt)
  {
    TimesDouble(base, Pow2(attempt));
  }

  lemma GrownFirst(base: real)
    ensures Grown(base, 0) == base
  {
  }

  lemma Doubled(base: real, x: real, y: real, j: real, j': real)
    requires y == x + x && x >= base && 0.0 <= j <= base / 2.0 && 0.0 <= j'
    ensures x + j <= y + j'
  {
  }

  /** Successive delays never shrink, whatever the two draws. */
  lemma DelaysNeverShrink(attempt: nat, opts: RetryOptions, j: real, j': real)
    requires IsDraw(opts, j) && IsDraw(opts, j')
    ensures ComputeDelay(attempt, opts, j) <= ComputeDelay(attempt + 1, opts, j')
  {
    hide Pow2, Grown, Min;
    var x, y := Grown(opts.delay, attempt), Grown(opts.delay, attempt + 1);
    GrownDoubles(opts.delay, attempt);
    Doubled(opts.delay, x, y, j, j');
    MinIsMonotone(x + j, y + j', opts.maxDelay);
  }

  lemma GrownDoubles(base: real, attempt: nat)
    requires base >= 0.0
    ensures Grown(base, attempt) >= base
    ensures Grown(base, attempt + 1) == Grown(base, attempt) + Grown(base, attempt)
  {
    TimesAtLeastOne(base, Pow2(attempt));
    GrownDoubling(base, attempt);
  }

  lemma TimesAtLeastOne(base: real, p: real)
    requires base >= 0.0 && p >= 1.0
    ensures base * p >= base
  {
    assert base * (p - 1.0) >= 0.0;
  }

  lemma TimesDouble(base: real, p: real)
    ensures base * (2.0 * p) == base * p + base * p
  {
  }

  ghost function Total(waits: seq<real>): real {
    if waits == [] then 0.0 else Total(waits[..|waits| - 1]) + waits[|waits| - 1]
  }

  /** The bound that comes from the cap: `n` times `maxDelay`. */
  ghost function CapBound(opts: RetryOptions, n: nat): real {
    n as real * opts.maxDelay
  }

  /** The bound that comes from the base delay: a geometric sum and the largest jitter each time. */
  ghost function GeometricBound(opts: RetryOptions, n: nat): real {
    Grown(opts.delay, n) - opts.delay + n as real * (opts.delay / 2.0)
  }

  /** The total wait over `n` delays stays below both bounds. */
  lemma {:induction false} TotalWait(opts: RetryOptions, jitters: nat -> real, n: nat)
    requires opts.backoff == Exponential
    requires forall i: nat :: IsDraw(opts, jitters(i))
    ensures Total(Waits(opts, jitters, n)) <= CapBound(opts, n)
    ensures Total(Waits(opts, jitters, n)) <= GeometricBound(opts, n)
  {
    hide Pow2, Grown, ComputeDelay, Total, Waits, IsDraw, CapBound, GeometricBound;
    if n == 0 {
      NoWait(opts, jitters);
    } else {
      TotalWait(opts, jitters, n - 1);
      OneMoreWait(opts, jitters, n - 1);
      NextCap(opts, n - 1, jitters(n - 1));
      NextTerm(opts, n - 1, jitters(n - 1));
    }
  }

  lemma NoWait(opts: RetryOptions, jitters: nat -> real)
    ensures Total(Waits(opts, jitters, 0)) == 0.0 == CapBound(opts, 0) == GeometricBound(opts, 0)
  {
  }

  lemma OneMoreWait(opts: RetryOptions, jitters: nat -> real, k: nat)
    ensures Total(Waits(opts, jitters, k + 1)) == Total(Waits(opts, jitters, k)) + ComputeDelay(k, opts, jitters(k))
  {
    hide ComputeDelay;
    assert Waits(opts, jitters, k + 1)[..k] == Waits(opts, jitters, k);
  }

  lemma NextCap(opts: RetryOptions, k: nat, jitter: real)
    requires opts.backoff == Exponential && IsDraw(opts, jitter)
    ensures CapBound(opts, k) + ComputeDelay(k, opts, jitter) <= CapBound(opts, k + 1)
  {
    hide Pow2, Grown, Min;
    DelayBounds(k, opts, jitter);
    Distribute(k, opts.maxDelay);
  }

  lemma NextTerm(opts: RetryOptions, k: nat, jitter: real)
    requires opts.backoff == Exponential && IsDraw(opts, jitter)
    ensures GeometricBound(opts, k) + ComputeDelay(k, opts, jitter) <= GeometricBound(opts, k + 1)
  {
    hide Pow2, Grown;
    GrownDoubles(opts.delay, k);
    Distribute(k, opts.delay / 2.0);
  }

  lemma Distribute(n: nat, x: real)
    ensures (n + 1) as real * x == n as real * x + x
  {
  }
}
