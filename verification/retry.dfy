/** The retry runner: a unit of work is called, and called again after a
    fixed sleep when it rejects, until it resolves or the attempt count
    reaches the configured maximum. Attempt `i` (counting from 0) resolves
    as `fn(i)`. */
module Retrying {
  import opened Wrappers

  /** Maximum number of attempts when none is configured. */
  const DefaultMaxRetries: int := 3

  /** What a run of the retry loop did: the outcome it settled with, how many
      times it called the unit of work and how many times it slept. */
  datatype RetryRun<T> = RetryRun(outcome: Outcome<T>, attempts: nat, sleeps: nat)

  /** The most attempts a run can make: the check `++attempts >= maxRetries`
      runs only after a failure, so a bound below 1 still allows one. */
  function AttemptBound(maxRetries: int): (n: nat)
    ensures n >= 1 && n >= maxRetries
    ensures n == 1 || n == maxRetries
  {
    if maxRetries < 1 then 1 else maxRetries
  }

  /** What a run must look like: at least one and at most `AttemptBound`
      attempts, every attempt but the last failed, the run settles with the
      last attempt's outcome, it gives up only at the bound, and it slept once
      between each two attempts. */
  ghost predicate IsRetryRun<T>(fn: nat -> Outcome<T>, maxRetries: int, r: RetryRun<T>) {
    && 1 <= r.attempts <= AttemptBound(maxRetries)
    && r.sleeps == r.attempts - 1
    && r.outcome == fn(r.attempts - 1)
    && (forall i :: 0 <= i < r.attempts - 1 ==> fn(i).Err?)
    && (r.outcome.Err? ==> r.attempts == AttemptBound(maxRetries))
  }

  /** The loop from the state where `made` attempts have already failed. */
  function RetryFrom<T>(fn: nat -> Outcome<T>, maxRetries: int, made: nat): (r: RetryRun<T>)
    requires made < AttemptBound(maxRetries)
    requires forall i :: 0 <= i < made ==> fn(i).Err?
    ensures made < r.attempts
    ensures IsRetryRun(fn, maxRetries, r)
    decreases AttemptBound(maxRetries) - made
  {
    var o := fn(made);
    if o.Ok? || made + 1 >= maxRetries then RetryRun(o, made + 1, made)
    else RetryFrom(fn, maxRetries, made + 1)
  }

  /** `retry(fn)`. */
  function Retry<T>(fn: nat -> Outcome<T>, maxRetries: int): (r: RetryRun<T>)
    ensures IsRetryRun(fn, maxRetries, r)
  {
    RetryFrom(fn, maxRetries, 0)
  }

  /** A run is determined by the attempts' outcomes and the bound. */
  lemma RetryRunUnique<T>(fn: nat -> Outcome<T>, maxRetries: int, a: RetryRun<T>, b: RetryRun<T>)
    requires IsRetryRun(fn, maxRetries, a) && IsRetryRun(fn, maxRetries, b)
    ensures a == b
  {
  }

  /** The first attempt that resolves within the bound ends the run at once,
      with its value. */
  lemma FirstSuccessReturned<T>(fn: nat -> Outcome<T>, maxRetries: int, k: nat)
    requires k < AttemptBound(maxRetries)
    requires fn(k).Ok?
    requires forall i :: 0 <= i < k ==> fn(i).Err?
    ensures Retry(fn, maxRetries) == RetryRun(fn(k), k + 1, k)
  {
    RetryRunUnique(fn, maxRetries, Retry(fn, maxRetries), RetryRun(fn(k), k + 1, k));
  }

  /** When every allowed attempt rejects, the run makes all of them and
      rejects with the last one's error. */
  lemma AllFailuresExhaust<T>(fn: nat -> Outcome<T>, maxRetries: int)
    requires forall i :: 0 <= i < AttemptBound(maxRetries) ==> fn(i).Err?
    ensures var n := AttemptBound(maxRetries);
      Retry(fn, maxRetries) == RetryRun(Err(fn(n - 1).error), n, n - 1)
  {
    var n := AttemptBound(maxRetries);
    RetryRunUnique(fn, maxRetries, Retry(fn, maxRetries), RetryRun(fn(n - 1), n, n - 1));
  }

  /** With the default bound, a unit of work that fails twice and then
      succeeds is called three times with two sleeps in between. */
  lemma FailTwiceThenSucceed<T>(fn: nat -> Outcome<T>)
    requires fn(0).Err? && fn(1).Err? && fn(2).Ok?
    ensures Retry(fn, DefaultMaxRetries) == RetryRun(fn(2), 3, 2)
  {
    FirstSuccessReturned(fn, DefaultMaxRetries, 2);
  }

  /** The `while (true)` loop of `retry`, as written. */
  method RunRetry<T>(fn: nat -> Outcome<T>, maxRetries: int) returns (r: RetryRun<T>)
    ensures r == Retry(fn, maxRetries)
  {
    var attempts: nat := 0;
    var sleeps: nat := 0;
    while true
      invariant attempts < AttemptBound(maxRetries)
      invariant sleeps == attempts
      invariant forall i :: 0 <= i < attempts ==> fn(i).Err?
      invariant Retry(fn, maxRetries) == RetryFrom(fn, maxRetries, attempts)
      decreases AttemptBound(maxRetries) - attempts
    {
      var o := fn(attempts);
      if o.Ok? {
        return RetryRun(o, attempts + 1, sleeps);
      }
      attempts := attempts + 1;
      if attempts >= maxRetries {
        return RetryRun(o, attempts, sleeps);
      }
      sleeps := sleeps + 1;
    }
  }
}
