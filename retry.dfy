/**
 * The attempt loop of the `async_retry` decorator in utils/retry.py: call
 * the wrapped function up to `max_attempts` times, return its first result,
 * re-raise an exception outside the configured tuple at once, and sleep
 * `base_delay * exponential_base ** attempt` seconds after each caught
 * failure that is not the last.
 */
module Retry {

  /** What one invocation of the wrapped function does. */
  datatype Attempt<T, E> = Returned(value: T) | Threw(error: E)

  /** What the wrapper does: return a value, fall off the loop (returning None), or raise. */
  datatype RetryResult<T, E> = ReturnedValue(value: T) | ReturnedNone | Reraised(error: E)

  /** `x ** n` for a natural exponent. */
  function Power(x: real, n: nat): (r: real)
    ensures x > 0.0 ==> r > 0.0
  {
    if n == 0 then 1.0 else x * Power(x, n - 1)
  }

  /** The delay slept after the failure of 0-based attempt `k`. */
  function Delay(baseDelay: real, expBase: real, k: nat): real {
    baseDelay * Power(expBase, k)
  }

  /** What the wrapper passes on from the attempt it stops at. */
  function Passed<T, E>(a: Attempt<T, E>): (r: RetryResult<T, E>)
    ensures a.Returned? ==> r == ReturnedValue(a.value)
    ensures a.Threw? ==> r == Reraised(a.error)
  {
    match a
    case Returned(v) => ReturnedValue(v)
    case Threw(e) => Reraised(e)
  }

  /** An attempt after which the loop does not go on: a result, or an exception outside the tuple. */
  predicate Stops<T, E>(a: Attempt<T, E>, caught: E -> bool) {
    a.Returned? || !caught(a.error)
  }

  /**
   * The wrapper, with `call(k)` the outcome of the `k`-th invocation and
   * `caught` membership in the `exceptions` tuple. Returns what the wrapper
   * returns or raises, the number of invocations and the delays slept.
   */
  method RetryCall<T, E>(maxAttempts: int, baseDelay: real, expBase: real,
                         caught: E -> bool, call: nat -> Attempt<T, E>)
    returns (result: RetryResult<T, E>, calls: nat, sleeps: seq<real>)
    ensures calls <= if maxAttempts < 0 then 0 else maxAttempts
    ensures maxAttempts <= 0 ==> calls == 0 && result == ReturnedNone && sleeps == []
    ensures maxAttempts > 0 ==> calls > 0 && result == Passed(call(calls - 1))
    ensures forall k :: 0 <= k < calls - 1 ==> call(k).Threw? && caught(call(k).error)
    ensures 0 < calls < maxAttempts ==> Stops(call(calls - 1), caught)
    ensures |sleeps| == if calls == 0 then 0 else calls - 1
    ensures forall k :: 0 <= k < |sleeps| ==> sleeps[k] == Delay(baseDelay, expBase, k)
    ensures maxAttempts > 0 && (forall k :: 0 <= k < maxAttempts ==> call(k).Threw? && caught(call(k).error)) ==>
      calls == maxAttempts && |sleeps| == maxAttempts - 1 && result == Reraised(call(maxAttempts - 1).error)
  {
    calls, sleeps := 0, [];
    var attempt := 0;
    while attempt < maxAttempts
      invariant 0 <= attempt && (attempt <= maxAttempts || attempt == 0)
      invariant maxAttempts > 0 ==> attempt < maxAttempts
      invariant calls == attempt && |sleeps| == attempt
      invariant forall k :: 0 <= k < attempt ==> call(k).Threw? && caught(call(k).error)
      invariant forall k :: 0 <= k < attempt ==> sleeps[k] == Delay(baseDelay, expBase, k)
    {
      calls := calls + 1;
      match call(attempt) {
        case Returned(v) =>
          return ReturnedValue(v), calls, sleeps;
        case Threw(e) =>
          if !caught(e) || attempt == maxAttempts - 1 {
            return Reraised(e), calls, sleeps;
          }
          var delay := baseDelay * Power(expBase, attempt);
          sleeps := sleeps + [delay];
      }
      attempt := attempt + 1;
    }
    result := ReturnedNone;
  }

  /**
   * The backoff schedule of the defaults (base 1.0, exponent base 2.0):
   * 1, 2, 4, ... seconds, each delay twice the one before.
   */
  lemma DefaultBackoffDoubles(k: nat)
    ensures Delay(1.0, 2.0, k + 1) == 2.0 * Delay(1.0, 2.0, k)
    ensures Delay(1.0, 2.0, 0) == 1.0 && Delay(1.0, 2.0, 2) == 4.0
  {
  }

  /** With a positive base delay and exponent base, every delay is positive. */
  lemma DelayPositive(baseDelay: real, expBase: real, k: nat)
    requires baseDelay > 0.0 && expBase > 0.0
    ensures Delay(baseDelay, expBase, k) > 0.0
  {
  }
}
