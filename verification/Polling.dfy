/** The vocabulary of PollUntilContextTimeout: repeat a condition until it is satisfied, fails, or
    time runs out. */
module Polling {
  /** What one call of the condition returns: (true, nil), (false, nil) or (_, err). */
  datatype Outcome<+E> = Satisfied | Retry | Fail(error: E)

  /** `outcomes` are the polls made before the deadline; the last one may be the deciding one. */
  datatype Result<+E> = Ok(polls: nat) | Failed(polls: nat, error: E) | TimedOut
}
