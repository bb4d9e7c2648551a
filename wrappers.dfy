/** Failure-carrying values used in place of JavaScript's thrown errors and falsy arguments. */
module Wrappers {

  /** An argument that may be absent. */
  datatype Option<+T> = None | Some(value: T)

  /** A value, or the error that stopped its construction. */
  datatype Result<+R, +E> = Success(value: R) | Failure(error: E)

  /** The end of an operation that returns nothing: it completed, or it failed with an error. */
  datatype Outcome<+E> = Pass | Fail(error: E)
}
