/** Optional values and success/failure results, used for JavaScript's
    `null`/`undefined` and for rejected promises. */
module Wrappers {

  datatype Option<+T> = None | Some(value: T)

  datatype Result<+R, +E> = Success(value: R) | Failure(error: E)

  /** The outcome of an operation that resolves with no value of interest. */
  datatype Outcome<+E> = Pass | Fail(error: E)
}
