/** Failure-carrying datatypes used in place of the source's raised exceptions. */
module Wrappers {

  datatype Option<+T> = None | Some(value: T)

  datatype Result<+T, +E> = Success(value: T) | Failure(error: E)

  /** A result that carries no value: the operation either completes or raises `error`. */
  datatype Outcome<+E> = Pass | Fail(error: E)
}
