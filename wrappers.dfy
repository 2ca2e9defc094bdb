/** The Option and Result types shared by the modules of this project. */
module Wrappers {

  /** A value that may be absent (Go's nil pointer or nil error, JavaScript's undefined). */
  datatype Option<+T> = None | Some(value: T)

  /** The outcome of an operation that either produces a value or fails with an error. */
  datatype Result<+R, +E> = Success(value: R) | Failure(error: E)
}
