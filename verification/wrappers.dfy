/** Optional values: a posted form field is either absent or carries a value. */
module Wrappers {

  /** `None` is a field that was not posted (PHP `isset` is false); `Some(v)` one that was. */
  datatype Option<+T> = None | Some(value: T) {

    /** The value, or `default` when absent: PHP's null-coalescing `??`. */
    function GetOr(default: T): T {
      match this
      case Some(v) => v
      case None => default
    }
  }
}
