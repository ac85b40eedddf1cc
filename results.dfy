/**
 * Value forms of Go's `error` results. An `error` is modelled by its text;
 * a panic, which the harness raises on some engine failures, is a separate
 * completion so that callers can tell it from a returned error.
 */
module Results {

  datatype Option<+T> = None | Some(value: T)

  /** A value or the text of the error that replaced it. */
  datatype Result<+T> = Ok(value: T) | Err(error: string)

  /** What a `func() error` returns: `nil` or an error. */
  datatype Outcome = Pass | Fail(error: string)

  /** How a call that may panic ended. */
  datatype Completion = Returned(outcome: Outcome) | Panicked(reason: string)
}
