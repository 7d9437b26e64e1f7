/** Optional values and results of operations that can throw in the source. */
module Wrappers {
  datatype Option<T> = None | Some(value: T)

  /** The outcome of an operation that either returns a value or throws; the exception's type and message are not kept. */
  datatype Result<T> = Success(value: T) | Failure
}
