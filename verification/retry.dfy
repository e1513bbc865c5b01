/**
 * The renderer's retry policy for requests to a dispenser
 * (`COMMUNICATION_CONFIG`, `retryWithBackoff`, `isRetryableError`,
 * renderer.js:3746-3820). The operation is an oracle: attempt number `k`
 * (counting from 1) either yields a value or fails with an error.
 */
module Retry {
  import opened Wrappers
  import opened Text
  import opened Devices

  const MaxAttempts: int := 3
  const DelayBetweenRetries: real := 1000.0
  const BackoffMultiplier: real := 1.5

  /** Error codes, and message fragments, that make a failed attempt worth repeating. */
  const RetryableErrors: seq<string> := ["ECONNABORTED", "ECONNREFUSED", "ENETUNREACH", "ETIMEDOUT", "timeout"]

  /** `retryableErrors.some(...)` over the list `names`. */
  function MatchesAny(e: NetError, names: seq<string>): (r: bool)
    ensures r <==> exists i :: 0 <= i < |names| && (e.code == names[i] || Contains(e.message, names[i]))
  {
    if |names| == 0 then false
    else
      var rest := MatchesAny(e, names[1..]);
      assert forall i :: 1 <= i < |names| ==> names[i] == names[1..][i - 1];
      e.code == names[0] || Contains(e.message, names[0]) || rest
  }

  /** `isRetryableError`: the code is one of the listed names, or the message mentions one. */
  predicate IsRetryableError(e: NetError)
  {
    MatchesAny(e, RetryableErrors)
  }

  /** What the health check treats as a timeout (renderer.js:2471). */
  predicate IsTimeout(e: NetError)
  {
    e.code == "ECONNABORTED" || Contains(e.message, "timeout")
  }

  /** A timeout is always retryable, so the two policies agree on timeouts. */
  lemma {:induction false} TimeoutIsRetryable(e: NetError)
    requires IsTimeout(e)
    ensures IsRetryableError(e)
  {
    assert RetryableErrors[0] == "ECONNABORTED" && RetryableErrors[4] == "timeout";
  }

  /** An error with an unlisted code and an empty message is not retried. */
  lemma {:induction false} UnlistedCodeNotRetryable(code: string)
    requires code !in RetryableErrors
    ensures !IsRetryableError(NetError(code, ""))
  {
    forall i | 0 <= i < |RetryableErrors|
      ensures !Contains("", RetryableErrors[i])
    {
      assert |RetryableErrors[i]| > 0;
    }
  }

  function Pow(b: real, n: nat): real
  {
    if n == 0 then 1.0 else b * Pow(b, n - 1)
  }

  /** The wait after failed attempt `k`, in milliseconds. */
  function Delay(k: nat): real
    requires k >= 1
  {
    DelayBetweenRetries * Pow(BackoffMultiplier, k - 1)
  }

  /** With the default three attempts the waits are 1000 ms and then 1500 ms. */
  lemma {:induction false} DefaultDelays()
    ensures Delay(1) == 1000.0 && Delay(2) == 1500.0
  {
  }

  datatype Attempt<T> = Ok(value: T) | Err(error: NetError)

  /** The promise `retryWithBackoff` settles: fulfilled, or rejected with the last error (`undefined` when nothing ran). */
  datatype Outcome<T> = Succeeded(value: T) | Failed(lastError: Option<NetError>)

  /** The outcome, the number of attempts made and the waits taken between them. */
  datatype Run<T> = Run(outcome: Outcome<T>, attempts: nat, delays: seq<real>)

  /** Attempts `attempt`, `attempt + 1`, ..., given the last error so far. */
  function RunFrom<T>(op: nat -> Attempt<T>, attempt: nat, maxAttempts: int, last: Option<NetError>): (r: Run<T>)
    requires attempt >= 1
    decreases if attempt <= maxAttempts then maxAttempts - attempt + 1 else 0
    ensures attempt > maxAttempts ==> r == Run(Failed(last), attempt - 1, [])
    ensures attempt <= maxAttempts ==> attempt <= r.attempts <= maxAttempts
    ensures forall k :: attempt <= k < r.attempts ==> op(k).Err? && IsRetryableError(op(k).error)
    ensures attempt <= maxAttempts ==>
      (r.outcome.Succeeded? <==> op(r.attempts).Ok?)
      && (r.outcome.Succeeded? ==> r.outcome.value == op(r.attempts).value)
      && (r.outcome.Failed? ==>
            r.outcome.lastError == Some(op(r.attempts).error)
            && (r.attempts == maxAttempts || !IsRetryableError(op(r.attempts).error)))
    ensures |r.delays| == if attempt <= maxAttempts then r.attempts - attempt else 0
    ensures forall i :: 0 <= i < |r.delays| ==> r.delays[i] == Delay(attempt + i)
  {
    if attempt > maxAttempts then Run(Failed(last), attempt - 1, [])
    else
      match op(attempt)
      case Ok(v) => Run(Succeeded(v), attempt, [])
      case Err(e) =>
        if attempt < maxAttempts && IsRetryableError(e) then
          var rest := RunFrom(op, attempt + 1, maxAttempts, Some(e));
          Run(rest.outcome, rest.attempts, [Delay(attempt)] + rest.delays)
        else Run(Failed(Some(e)), attempt, [])
  }

  /**
   * `retryWithBackoff(operation, maxAttempts)`: at most `maxAttempts` attempts,
   * the first success wins, a non-retryable error stops at once, and attempt
   * `k` that fails with a retryable error is followed by a wait of `Delay(k)`.
   */
  function Retry<T>(op: nat -> Attempt<T>, maxAttempts: int): (r: Run<T>)
    ensures maxAttempts < 1 ==> r == Run(Failed(None), 0, [])
    ensures maxAttempts >= 1 ==> 1 <= r.attempts <= maxAttempts
    ensures forall k :: 1 <= k < r.attempts ==> op(k).Err? && IsRetryableError(op(k).error)
    ensures r.outcome.Succeeded? <==> r.attempts >= 1 && op(r.attempts).Ok?
    ensures r.outcome.Succeeded? ==> r.outcome.value == op(r.attempts).value
    ensures r.outcome.Failed? && r.attempts >= 1 ==>
      r.outcome.lastError == Some(op(r.attempts).error)
      && (r.attempts == maxAttempts || !IsRetryableError(op(r.attempts).error))
    ensures |r.delays| == if r.attempts >= 1 then r.attempts - 1 else 0
    ensures forall i :: 0 <= i < |r.delays| ==> r.delays[i] == Delay(i + 1)
  {
    RunFrom(op, 1, maxAttempts, None)
  }

  /** A first attempt that succeeds is the result, with no retry. */
  lemma {:induction false} FirstSuccessWins<T>(op: nat -> Attempt<T>, maxAttempts: int)
    requires maxAttempts >= 1 && op(1).Ok?
    ensures Retry(op, maxAttempts) == Run(Succeeded(op(1).value), 1, [])
  {
  }

  /** With the default limit, at most the waits 1000 ms and 1500 ms are taken. */
  lemma {:induction false} DefaultRunWaits<T>(op: nat -> Attempt<T>)
    ensures Retry(op, MaxAttempts).attempts <= 3
    ensures Retry(op, MaxAttempts).delays <= [1000.0, 1500.0]
  {
    DefaultDelays();
  }

  function WithEarlierDelays<T>(delays: seq<real>, r: Run<T>): Run<T>
  {
    Run(r.outcome, r.attempts, delays + r.delays)
  }

  /** The attempt loop of `retryWithBackoff`, which remembers the last error as it goes. */
  method RetryWithBackoff<T>(op: nat -> Attempt<T>, maxAttempts: int)
    returns (outcome: Outcome<T>, attempts: nat, delays: seq<real>)
    ensures Run(outcome, attempts, delays) == Retry(op, maxAttempts)
  {
    var lastError: Option<NetError> := None;
    var attempt: nat := 1;
    delays := [];
    while attempt <= maxAttempts
      invariant attempt >= 1
      invariant Retry(op, maxAttempts) == WithEarlierDelays(delays, RunFrom(op, attempt, maxAttempts, lastError))
      decreases maxAttempts - attempt
    {
      var result := op(attempt);
      if result.Ok? {
        return Succeeded(result.value), attempt, delays;
      }
      lastError := Some(result.error);
      if attempt < maxAttempts && IsRetryableError(result.error) {
        delays := delays + [Delay(attempt)];
        attempt := attempt + 1;
      } else {
        return Failed(lastError), attempt, delays;
      }
    }
    return Failed(lastError), attempt - 1, delays;
  }
}
