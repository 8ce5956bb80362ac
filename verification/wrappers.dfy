/** Failure-carrying datatypes shared by the modules of this model. */
module Wrappers {

  /** A value that may be absent; Python's `None` is `None`. */
  datatype Option<+T> = None | Some(value: T)

  /** The outcome of an operation that either produces a value or raises. */
  datatype Result<+R, +E> = Success(value: R) | Failure(error: E)
}
