/** Optional values and results with an error, for the source's null returns and exceptions. */
module Wrappers {

  /** A value that may be absent (the source's `null` or `Nullable<T>` without a value). */
  datatype Option<+T> = None | Some(value: T)

  /** The outcome of an operation that the source can abort by throwing. */
  datatype Result<+T, +E> = Success(value: T) | Failure(error: E)
}
