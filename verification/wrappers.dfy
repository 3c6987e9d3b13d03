/** Failure-carrying results: `Option` stands for a Java reference that may be
    null, `Result` for a value or the exception that replaces it, and
    `Outcome` for a check that either passes or raises. */
module Wrappers {

  datatype Option<+T> = None | Some(value: T)

  datatype Result<+R, +E> = Success(value: R) | Failure(error: E)

  datatype Outcome<+E> = Pass | Fail(error: E)
}
