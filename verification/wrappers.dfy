/** Failure-carrying values shared by the whole model: an optional value, the
    error a failed step raises, and the outcome of a step that may fail. */
module Wrappers {

  /** An absent or present value. */
  datatype Option<+T> = None | Some(value: T)

  /** A thrown error, identified by its message. */
  datatype Error = Error(message: string)

  /** The outcome of an asynchronous step: it resolves with a value or rejects
      with an error. */
  datatype Outcome<+T> = Ok(value: T) | Err(error: Error)
}
