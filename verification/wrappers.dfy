/** Failure-carrying values shared by every module of the model. */
module Wrappers {

  /** An optional value: `None` stands for Python's `None` or for an absent entry. */
  datatype Option<+T> = None | Some(value: T)

  /** The outcome of an operation that may raise: `Failure` carries the exception that propagates. */
  datatype Result<+T, +E> = Success(value: T) | Failure(error: E)
}
