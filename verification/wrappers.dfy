/** Two small datatypes shared by every module of the model: `Option` is a value
    that may be absent (JavaScript's `null` or `undefined`), and `Result` is what a
    backend call returns, either its data or its error. */
module Wrappers {

  datatype Option<+T> = None | Some(value: T) {

    /** The encapsulated value, or `default` when there is none. */
    function GetOr(default: T): T {
      match this
      case Some(v) => v
      case None => default
    }
  }

  datatype Result<+R, +E> = Success(value: R) | Failure(error: E)
}
