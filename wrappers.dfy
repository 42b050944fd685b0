/** Optional values and HTTP-style error results shared by the whole model. */
module Wrappers {

  /** A value that may be absent (Python's `None`). */
  datatype Option<+T> = None | Some(value: T) {
    /** `value if value is not None else default` */
    function GetOr(default: T): T {
      match this
      case Some(v) => v
      case None => default
    }
  }

  /** The outcome of a request handler: a value, or the status code and detail of
      the `HTTPException` it raises. */
  datatype Result<+T> = Ok(value: T) | Err(status: nat, detail: string)
}
