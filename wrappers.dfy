/** Optional values and results, standing in for the source's `null`/`undefined`
    and for thrown action errors. */
module Wrappers {

  /** `None` plays the role of `null` or `undefined`. */
  datatype Option<+T> = None | Some(value: T) {
    /** The value, or `default` when absent (the source's `x ?? default`). */
    function GetOr(default: T): T {
      if Some? then value else default
    }
  }

  /** The outcome of a call that either returns a value or fails. */
  datatype Result<+T, +E> = Ok(value: T) | Err(error: E)
}
