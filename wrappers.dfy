/** Option, Result and Outcome: the shapes of Rust's `Option<T>`, `Result<T, E>`
    and `Result<(), E>` used throughout the model. */
module Wrappers {

  datatype Option<+T> = None | Some(value: T) {
    function GetOr(default: T): T {
      match this
      case Some(v) => v
      case None => default
    }
  }

  datatype Result<+R, +E> = Success(value: R) | Failure(error: E)

  /** `Result<(), E>`: either the operation passed or it failed with an error. */
  datatype Outcome<+E> = Pass | Fail(error: E)
}
