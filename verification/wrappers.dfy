/** Failure-carrying datatypes used to model C++ exceptions: an operation that
    may throw returns an `Outcome` (no value) or a `Result` (with a value). */
module Wrappers {

  datatype Option<+T> = None | Some(value: T)

  /** `Success(v)` is a normal return of `v`; `Failure(e)` is `throw e`. */
  datatype Result<+T, +E> = Success(value: T) | Failure(error: E)

  /** `Pass` is a normal return from a `void` member; `Fail(e)` is `throw e`. */
  datatype Outcome<+E> = Pass | Fail(error: E)
}
