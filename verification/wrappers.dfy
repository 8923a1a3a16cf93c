/** Failure-carrying datatypes shared by the bootstrap model: an `Option` for
    "no value" and a `Result` for an operation that either succeeds or raises. */
module Wrappers {

  datatype Option<+T> = None | Some(value: T)

  /** The outcome of an operation of the original program that either returns a
      value or raises an exception (modelled by the error value). */
  datatype Result<+R, +E> = Success(value: R) | Failure(error: E)
}
