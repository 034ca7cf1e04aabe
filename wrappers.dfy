/** Optional values and success/failure results used across the model. */
module Wrappers {

  /** A value that may be absent; stands for TypeScript's `string | null`. */
  datatype Option<+T> = None | Some(value: T)

  /** The outcome of an operation that can fail: a value, or an error. */
  datatype Result<+R, +E> = Success(value: R) | Failure(error: E)
}
