/** Small failure-carrying datatypes shared by every module of the model. */
module Wrappers {

  /** A value that may be absent: Python's `None` versus a present value. */
  datatype Option<+T> = None | Some(value: T) {
    /** Python's `x or default` for an optional value. */
    function GetOr(default: T): T {
      match this
      case Some(v) => v
      case None => default
    }
  }

  /** The outcome of a Python call that either returns or lets an exception escape. */
  datatype Outcome<+T> = Returned(value: T) | Raised

  /** A result that carries the text of the exception when the operation failed. */
  datatype Result<+T> = Ok(value: T) | Err(message: string)
}
