/** Optional values and the results of operations that can throw. */
module Wrappers {

  /** A value that may be absent: JavaScript's `undefined` and `NaN` become `None`. */
  datatype Option<+T> = None | Some(value: T)

  /** The outcome of an operation that can throw. */
  datatype Result<+R, +E> = Success(value: R) | Failure(error: E)
}
