/** Optional values and results with an error, shared by every module of the model. */
module Wrappers {

  /** A value that may be absent: TypeScript's `T | null` and `T | undefined`. */
  datatype Option<+T> = None | Some(value: T)

  /** The outcome of an operation that may throw: its value, or what it threw. */
  datatype Result<+T, +E> = Success(value: T) | Failure(error: E)
}
