/** Option, Result and Outcome values used for lookups and for operations that can be rejected. */
module Wrappers {

  datatype Option<+T> = None | Some(value: T)

  datatype Result<+R, +E> = Success(value: R) | Failure(error: E)

  /** The result of an operation that returns nothing when it succeeds. */
  datatype Outcome<+E> = Pass | Fail(error: E)
}
