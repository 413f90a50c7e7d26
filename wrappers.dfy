/** Failure-carrying values: the model's stand-in for JavaScript's `undefined` and thrown errors. */
module Wrappers {

  datatype Option<+T> = None | Some(value: T)

  /** Either a value or the error that was thrown instead of producing it. */
  datatype Result<+T, +E> = Ok(value: T) | Err(error: E)

  /** Completion of an operation that returns nothing: it either finishes or throws. */
  datatype Outcome<+E> = Pass | Fail(error: E)
}
