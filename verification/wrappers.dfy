/** Failure-carrying results, used where the source raises an exception. */
module Wrappers {

  datatype Option<+T> = None | Some(value: T)

  /** Either a value or the error the source would raise instead of returning. */
  datatype Result<+T, +E> = Success(value: T) | Failure(error: E)
}
