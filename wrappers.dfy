/** Option and Result values standing in for JavaScript's `null`/`undefined` and for
    exceptions that a called service may throw. */
module Wrappers {

  /** `None` models JavaScript's `null` or `undefined`. */
  datatype Option<+T> = None | Some(value: T)

  /** `Failure` carries the message of the error that the callee threw. */
  datatype Result<+R> = Success(value: R) | Failure(error: string)

  /** The completion of an asynchronous call that returns nothing: it resolves (`Pass`) or
      rejects with an error message (`Fail`). */
  datatype Outcome = Pass | Fail(error: string)
}
