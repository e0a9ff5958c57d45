/** Option and Result, for JavaScript's `undefined` and for thrown errors. */
module Wrappers {

  /** `None` stands for `undefined`: an absent argument, a missing key, no handle. */
  datatype Option<+T> = None | Some(value: T)

  /** `Failure` carries the message of the `Error` the JavaScript throws. */
  datatype Result<+T, +E> = Success(value: T) | Failure(error: E)
}
