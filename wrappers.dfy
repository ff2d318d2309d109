/** Option / Result / Outcome values standing in for `null`, thrown errors and error returns. */
module Wrappers {

  datatype Option<+T> = None | Some(value: T) {
    function GetOr(default: T): T {
      match this
      case Some(v) => v
      case None => default
    }
  }

  /** A computation that either yields a value or fails with an error (a thrown `Error`). */
  datatype Result<+R, +E> = Success(value: R) | Failure(error: E)

  /** A computation that yields nothing on success (a `Promise<void>` that may reject). */
  datatype Outcome<+E> = Pass | Fail(error: E)
}
