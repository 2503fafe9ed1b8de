/** Success/failure values standing for the source's nullable results and exceptions. */
module Wrappers {

  datatype Option<+T> = None | Some(value: T)

  /** An operation that either produced a value or threw; the error is the exception's message. */
  datatype Result<+T> = Success(value: T) | Failure(error: string)
}
