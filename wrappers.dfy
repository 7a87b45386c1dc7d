/** Failure-compatible wrappers used for the source's `null` returns and thrown errors. */
module Wrappers {

  /** A value that may be absent: `null`/`undefined` in the source become `None`. */
  datatype Option<+T> = None | Some(value: T)

  /** The outcome of an operation that either returns a value or throws an `Error(message)`. */
  datatype Result<+R, +E> = Success(value: R) | Failure(error: E)
}
