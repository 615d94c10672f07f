/** Optional values (Python's `None`) and results of operations that may raise. */
module Wrappers {

  /** A value that may be absent: `None` stands for Python's `None`. */
  datatype Option<+T> = None | Some(value: T)

  /** The outcome of an operation that either returns a value or raises an error. */
  datatype Result<+T, +E> = Success(value: T) | Failure(error: E)
}
