/** Failure-carrying values shared by every module of the model: `Option` for a
    value that may be absent (Python `None`, JavaScript `null`/`undefined`,
    a C++ null pointer) and `Result` for an operation that raises or throws. */
module Wrappers {

  datatype Option<+T> = None | Some(value: T) {
    function GetOr(default: T): T {
      match this
      case Some(v) => v
      case None => default
    }
  }

  datatype Result<+T, +E> = Ok(value: T) | Err(error: E)
}
