/** The two generic retry helpers, with their sleeps. */
module Retry {
  import opened Text
  import opened Errors

  datatype Call<T> = Returns(value: T) | Throws(error: Thrown)

  datatype Ending<T> = Value(value: T) | Raised(error: Thrown) | NeverCalled

  function Pow2(n: nat): nat {
    if n == 0 then 1 else 2 * Pow2(n - 1)
  }

  function Exponential(attempt: nat, base: nat, max: nat): nat {
    Min(max, base * Pow2(attempt))
  }

  /** Uncapped, the delay starts at the base and doubles; the cap cuts it off. */
  lemma DelayDoubles(attempt: nat, base: nat, max: nat)
    ensures base * Pow2(0) == base && base * Pow2(attempt + 1) == 2 * (base * Pow2(attempt))
    ensures Exponential(attempt, base, max) == if base * Pow2(attempt) <= max then base * Pow2(attempt) else max
  {
    var p := Pow2(attempt);
    assert Pow2(attempt + 1) == 2 * p;
    assert base * (2 * p) == 2 * (base * p);
  }

  /** Jitter is the floor of a fraction below 1 of `Min(250, base)`. */
  predicate IsJitter(jitter: nat, base: nat) {
    jitter < Min(250, base) || jitter == 0
  }

  function Sum(delays: seq<nat>): nat {
    if delays == [] then 0 else Sum(delays[..|delays| - 1]) + delays[|delays| - 1]
  }

  /** The delays by attempt, without jitter. */
  function DelayOf(base: nat, max: nat): nat -> nat {
    attempt => Exponential(attempt, base, max)
  }

  /** Total of the first k of them. */
  function Total(delay: nat -> nat, k: nat): nat {
    if k == 0 then 0 else Total(delay, k - 1) + delay(k - 1)
  }

  /** The first k sleeps. */
  function Sleeps(delay: nat -> nat, jitter: nat -> nat, k: nat): seq<nat> {
    if k == 0 then [] else Sleeps(delay, jitter, k - 1) + [delay(k - 1) + jitter(k - 1)]
  }

  lemma {:induction false} SleepsAre(delay: nat -> nat, jitter: nat -> nat, k: nat)
    ensures |Sleeps(delay, jitter, k)| == k
    ensures forall i :: 0 <= i < k ==> Sleeps(delay, jitter, k)[i] == delay(i) + jitter(i)
  {
    if k > 0 {
      SleepsAre(delay, jitter, k - 1);
    }
  }

  /** What k sleeps may come to: their delays, and the full jitter bound for each. */
  function Budget(delay: nat -> nat, bound: nat, k: nat): nat {
    if k == 0 then 0 else Budget(delay, bound, k - 1) + delay(k - 1) + bound
  }

  lemma {:induction false} BudgetIsSum(delay: nat -> nat, bound: nat, k: nat)
    ensures Budget(delay, bound, k) == Total(delay, k) + k * bound
  {
    if k > 0 {
      BudgetIsSum(delay, bound, k - 1);
      assert k * bound == (k - 1) * bound + bound;
    }
  }

  lemma SumAppend(sleeps: seq<nat>, last: nat)
    ensures Sum(sleeps + [last]) == Sum(sleeps) + last
  {
    assert (sleeps + [last])[..|sleeps|] == sleeps;
  }

  /** With every jitter below its bound, the sleeps stay within the budget, and strictly so. */
  lemma {:induction false} SleepsStayWithin(delay: nat -> nat, jitter: nat -> nat, k: nat, bound: nat)
    requires forall i :: jitter(i) < bound || jitter(i) == 0
    ensures Sum(Sleeps(delay, jitter, k)) <= Budget(delay, bound, k)
    ensures k > 0 && bound > 0 ==> Sum(Sleeps(delay, jitter, k)) < Budget(delay, bound, k)
  {
    if k > 0 {
      SleepsStayWithin(delay, jitter, k - 1, bound);
      SumAppend(Sleeps(delay, jitter, k - 1), delay(k - 1) + jitter(k - 1));
    }
  }

  /** These were the sleeps so far: for each attempt its delay and its jitter. */
  ghost predicate Slept(delays: seq<nat>, jitter: nat -> nat, base: nat, max: nat) {
    delays == Sleeps(DelayOf(base, max), jitter, |delays|)
  }

  lemma SleptOnce(delays: seq<nat>, jitter: nat -> nat, base: nat, max: nat, ms: nat)
    requires Slept(delays, jitter, base, max) && ms == DelayOf(base, max)(|delays|) + jitter(|delays|)
    ensures Slept(delays + [ms], jitter, base, max)
  {
  }

  /** The sleeps one by one, and their total: strictly below the delays and one jitter bound
      each. */
  lemma SleptWithin(delays: seq<nat>, jitter: nat -> nat, base: nat, max: nat)
    requires Slept(delays, jitter, base, max) && forall i :: IsJitter(jitter(i), base)
    ensures forall i :: 0 <= i < |delays| ==> delays[i] == DelayOf(base, max)(i) + jitter(i)
    ensures Sum(delays) <= Budget(DelayOf(base, max), Min(250, base), |delays|)
    ensures delays != [] && base > 0 ==> Sum(delays) < Budget(DelayOf(base, max), Min(250, base), |delays|)
  {
    SleepsAre(DelayOf(base, max), jitter, |delays|);
    forall i
      ensures jitter(i) < Min(250, base) || jitter(i) == 0
    {
      assert IsJitter(jitter(i), base);
    }
    SleepsStayWithin(DelayOf(base, max), jitter, |delays|, Min(250, base));
  }

  /** The calls of a retry loop: `calls` of them happened, all but the last threw something
      retryable, and the result is that of the last. */
  ghost predicate Retried<T>(fn: nat -> Call<T>, retryable: Thrown -> bool, max: int, calls: nat, result: Ending<T>) {
    && (forall i :: 0 <= i < calls - 1 ==> fn(i).Throws? && retryable(fn(i).error))
    && (calls > 0 ==> result == match fn(calls - 1) { case Returns(v) => Value(v) case Throws(e) => Raised(e) })
    && (calls > 0 && fn(calls - 1).Throws? ==> calls == max || !retryable(fn(calls - 1).error))
  }

  /** The result of a retry loop is determined by what the calls answer. */
  lemma RetriedIsUnique<T>(
    fn: nat -> Call<T>, retryable: Thrown -> bool, max: int, calls: nat, result: Ending<T>, calls': nat,
        result': Ending<T>)
    requires 1 <= calls <= max && 1 <= calls' <= max
    requires Retried(fn, retryable, max, calls, result) && Retried(fn, retryable, max, calls', result')
    ensures calls == calls' && result == result'
  {
  }

  /** `backoffDelay`: what it sleeps after a failed attempt. */
  method BackoffDelay(attempt: nat, base: nat, max: nat, jitter: nat -> nat) returns (ms: nat)
    ensures ms == DelayOf(base, max)(attempt) + jitter(attempt)
  {
    ms := Exponential(attempt, base, max) + jitter(attempt);
  }

  /** `withRecoverableRetry`, for any classifier; its own is `IsRecoverable`.  Errors are
      retried as long as they are recoverable and calls remain; after each failed call but the
      last it sleeps the delay of that attempt and its jitter; the throw after the loop is
      reached only when no call is allowed at all. */
  method WithRecoverableRetry<T>(
    fn: nat -> Call<T>, recoverable: Thrown -> bool, jitter: nat -> nat, maxAttempts: int, base: nat, maxDelay: nat)
    returns (result: Ending<T>, calls: nat, delays: seq<nat>)
    ensures calls <= (if maxAttempts > 0 then maxAttempts else 0)
    ensures maxAttempts > 0 <==> calls > 0
    ensures result.NeverCalled? <==> calls == 0
    ensures Retried(fn, recoverable, maxAttempts, calls, result)
    ensures |delays| == if calls == 0 then 0 else calls - 1
    ensures Slept(delays, jitter, base, maxDelay)
  {
    calls, delays := 0, [];
    while calls < maxAttempts
      invariant calls == |delays| && Slept(delays, jitter, base, maxDelay)
      invariant calls == 0 || calls < maxAttempts
      invariant forall i :: 0 <= i < calls ==> fn(i).Throws? && recoverable(fn(i).error)
    {
      var attempt := calls;
      calls := calls + 1;
      match fn(attempt)
      case Returns(v) => return Value(v), calls, delays;
      case Throws(e) =>
        if !recoverable(e) || attempt >= maxAttempts - 1 {
          return Raised(e), calls, delays;
        }
        var ms := BackoffDelay(attempt, base, maxDelay, jitter);
        SleptOnce(delays, jitter, base, maxDelay, ms);
        delays := delays + [ms];
    }
    result := NeverCalled;
  }

  const READ_RETRY_DELAYS := [250, 500, 1000]
  const READ_MAX_ATTEMPTS := 3

  /** `withTransientEthReadRetry`, for any classifier; its own is `IsTransientRead`.  Its third
      delay is never slept, and the throw after its loop is never reached. */
  method WithTransientReadRetry<T>(fn: nat -> Call<T>, transient: Thrown -> bool)
    returns (result: Ending<T>, calls: nat, delays: seq<nat>)
    ensures 1 <= calls <= 3
    ensures !result.NeverCalled?
    ensures Retried(fn, transient, 3, calls, result)
    ensures delays == [250, 500, 1000][..calls - 1] && 1000 !in delays
  {
    calls, delays := 0, [];
    while calls < READ_MAX_ATTEMPTS
      invariant calls < READ_MAX_ATTEMPTS
      invariant delays == READ_RETRY_DELAYS[..calls]
      invariant forall i :: 0 <= i < calls ==> fn(i).Throws? && transient(fn(i).error)
      decreases READ_MAX_ATTEMPTS - calls
    {
      var attempt := calls;
      calls := calls + 1;
      match fn(attempt)
      case Returns(v) => return Value(v), calls, delays;
      case Throws(e) =>
        var isLastAttempt := attempt == READ_MAX_ATTEMPTS - 1;
        if !transient(e) || isLastAttempt {
          return Raised(e), calls, delays;
        }
        delays := delays + [READ_RETRY_DELAYS[attempt]];
    }
    assert false;
  }
}
