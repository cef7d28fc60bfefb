/** Optional values and success/failure results used across the model. */
module Wrappers {

  /** A value that may be missing (an absent option, a cleared handle). */
  datatype Option<+T> = None | Some(value: T)

  /** The outcome of an operation that can throw: a value or the error it threw. */
  datatype Result<+R, +E> = Success(value: R) | Failure(error: E)
}
