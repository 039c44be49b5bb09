/** Option and Result: the model's stand-ins for Python's None and for raised exceptions. */
module Wrappers {

  datatype Option<+T> = None | Some(value: T) {
    function GetOr(default: T): T {
      match this
      case Some(v) => v
      case None => default
    }
  }

  /** `Err` carries the exception the Python code raises; `Ok` the value it returns. */
  datatype Result<+T, +E> = Ok(value: T) | Err(error: E)
}
