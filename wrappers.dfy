/** Optional values and error-carrying results, shared by the whole model. */
module Wrappers {

  /** A value that may be missing: JavaScript's `null`/`undefined`. */
  datatype Option<+T> = None | Some(value: T)

  /** The outcome of an operation that either returns a value or throws. */
  datatype Result<+R, +E> = Success(value: R) | Failure(error: E)
}
