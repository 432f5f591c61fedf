/**
  The completion client: one request to the text-generation service, retried
  a bounded number of times on transport errors (make_api_call).

  The service itself is an oracle: `Attempts` gives the outcome of the k-th
  attempt of one call. Sleeping between attempts is counted, not timed.
 */
module Client {
  import opened Text
  import opened Exceptions

  /** What one attempt against the service yields: a reply, or an exception with its text. */
  datatype Outcome = Response(content: string) | Failure(message: string)

  /** Outcome of attempt 0, 1, 2, ... of one call. */
  type Attempts = nat -> Outcome

  /** The result of one make_api_call, with how many attempts and sleeps it took. */
  datatype Call = Call(result: Result<string>, attempts: nat, sleeps: nat)

  const DefaultMaxRetries: int := 3

  /** An exception whose text mentions "Connection" or "ReadError" is a transport error. */
  predicate IsTransportError(message: string) {
    Contains(message, "Connection") || Contains(message, "ReadError")
  }

  /** An outcome the client retries when attempts remain. */
  predicate Retryable(o: Outcome) {
    o.Failure? && IsTransportError(o.message)
  }

  /** The retry loop from attempt `a` on, every earlier attempt having been retried. */
  function RetryFrom(attempts: Attempts, maxRetries: int, a: nat): Call
    decreases maxRetries - a
  {
    if a >= maxRetries then Call(Err(RetriesExhausted(maxRetries)), a, a)
    else match attempts(a)
      case Response(content) => Call(Ok(content), a + 1, a)
      case Failure(message) =>
        if IsTransportError(message) && a < maxRetries - 1 then RetryFrom(attempts, maxRetries, a + 1)
        else Call(Err(Raised(message)), a + 1, a)
  }

  function Retry(attempts: Attempts, maxRetries: int): Call {
    RetryFrom(attempts, maxRetries, 0)
  }

  /** make_api_call: `for attempt in range(max_retries)` with retry, sleep and re-raise. */
  method MakeApiCall(attempts: Attempts, maxRetries: int) returns (c: Call)
    ensures c == Retry(attempts, maxRetries)
  {
    var attempt: nat := 0;
    var sleeps: nat := 0;
    while attempt < maxRetries
      invariant attempt == 0 || attempt < maxRetries
      invariant sleeps == attempt
      invariant RetryFrom(attempts, maxRetries, attempt) == Retry(attempts, maxRetries)
      decreases maxRetries - attempt
    {
      match attempts(attempt) {
        case Response(content) =>
          return Call(Ok(content), attempt + 1, sleeps);
        case Failure(message) =>
          if IsTransportError(message) && attempt < maxRetries - 1 {
            sleeps := sleeps + 1;
            attempt := attempt + 1;
            continue;
          }
          return Call(Err(Raised(message)), attempt + 1, sleeps);
      }
    }
    return Call(Err(RetriesExhausted(maxRetries)), attempt, sleeps);
  }

  lemma {:induction false} RetryFromContract(attempts: Attempts, maxRetries: int, a: nat)
    requires a == 0 || a < maxRetries
    requires forall i :: 0 <= i < a ==> Retryable(attempts(i))
    ensures var c := RetryFrom(attempts, maxRetries, a);
      && (maxRetries <= 0 ==> c == Call(Err(RetriesExhausted(maxRetries)), 0, 0))
      && (maxRetries > 0 ==> a < c.attempts <= maxRetries && c.sleeps == c.attempts - 1
                             && (c.result.Err? ==> !c.result.error.RetriesExhausted?))
      && (forall i :: 0 <= i < c.attempts - 1 ==> Retryable(attempts(i)))
      && (c.attempts > 0 ==> match attempts(c.attempts - 1)
            case Response(content) => c.result == Ok(content)
            case Failure(message) =>
              c.result == Err(Raised(message)) && (!IsTransportError(message) || c.attempts == maxRetries))
    decreases maxRetries - a
  {
    if a < maxRetries {
      match attempts(a)
      case Response(_) =>
      case Failure(message) =>
        if IsTransportError(message) && a < maxRetries - 1 {
          RetryFromContract(attempts, maxRetries, a + 1);
        }
    }
  }

  /**
    The retry policy: at most `maxRetries` attempts and one sleep between two
    of them; every attempt but the last was a transport error; the last one
    decides: its reply is returned unchanged, its exception re-raised (a
    transport error only once the budget is spent). "Retries exhausted" is
    raised exactly when the budget is not positive.
   */
  lemma RetryContract(attempts: Attempts, maxRetries: int)
    ensures var c := Retry(attempts, maxRetries);
      && (c.result == Err(RetriesExhausted(maxRetries)) <==> maxRetries <= 0)
      && (maxRetries <= 0 ==> c.attempts == 0 && c.sleeps == 0)
      && (maxRetries > 0 ==> 1 <= c.attempts <= maxRetries && c.sleeps == c.attempts - 1)
      && (forall i :: 0 <= i < c.attempts - 1 ==> Retryable(attempts(i)))
      && (c.attempts > 0 ==> match attempts(c.attempts - 1)
            case Response(content) => c.result == Ok(content)
            case Failure(message) =>
              c.result == Err(Raised(message)) && (!IsTransportError(message) || c.attempts == maxRetries))
  {
    RetryFromContract(attempts, maxRetries, 0);
  }

  /** A non-transport error is raised on the attempt where it occurs, with no sleep after it. */
  lemma {:induction false} FailFastOnOtherErrors(attempts: Attempts, maxRetries: int, k: nat)
    requires k < maxRetries
    requires forall i :: 0 <= i < k ==> Retryable(attempts(i))
    requires attempts(k).Failure? && !IsTransportError(attempts(k).message)
    ensures Retry(attempts, maxRetries) == Call(Err(Raised(attempts(k).message)), k + 1, k)
  {
    RetryContract(attempts, maxRetries);
  }

  /** A transport error on the last allowed attempt re-raises that same error, not "retries exhausted". */
  lemma TransportErrorOnLastAttempt(attempts: Attempts, maxRetries: int)
    requires maxRetries > 0
    requires forall i :: 0 <= i < maxRetries ==> attempts(i).Failure? && IsTransportError(attempts(i).message)
    ensures Retry(attempts, maxRetries)
            == Call(Err(Raised(attempts(maxRetries - 1).message)), maxRetries, maxRetries - 1)
  {
    RetryContract(attempts, maxRetries);
  }

  /** Two transport errors and then a reply: the reply is returned after two sleeps. */
  lemma TransportTwiceThenSuccess(attempts: Attempts, content: string)
    requires Retryable(attempts(0)) && Retryable(attempts(1))
    requires attempts(2) == Response(content)
    ensures Retry(attempts, DefaultMaxRetries) == Call(Ok(content), 3, 2)
  {
    RetryContract(attempts, DefaultMaxRetries);
  }
}
