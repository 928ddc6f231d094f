/** Optional values and error results, standing in for Python's None and for
    the (success, message, value) tuples the service returns. */
module Wrappers {

  datatype Option<+T> = None | Some(value: T) {
    /** `d.get(key, default)` once the lookup is an Option. */
    function GetOr(default: T): T {
      match this
      case Some(v) => v
      case None => default
    }
  }

  /** A value, or the message that the source reports instead of it. */
  datatype Result<+T> = Ok(value: T) | Err(message: string)
}
