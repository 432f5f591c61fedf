/**
  The exceptions the script raises and catches, shared by every component:
  the client's re-raised or "retries exhausted" errors and the scoring's
  division by zero. A call that may raise returns a `Result`.
 */
module Exceptions {

  datatype Exception =
    | Raised(message: string)          // an attempt's own exception, re-raised by make_api_call
    | RetriesExhausted(maxRetries: int) // make_api_call's "Failed after {max_retries} retries ..."
    | ZeroDivision                     // supervisor_evaluate's correct_count / len(answers) with no answers

  datatype Result<T> = Ok(value: T) | Err(error: Exception)
}
