/** Optional values and results with an error, for JavaScript's `undefined` and thrown errors. */
module Wrappers {

  /** A value that may be missing: `None` stands for JavaScript's `undefined`. */
  datatype Option<+T> = None | Some(value: T) {

    /** The value, or `fallback` when it is missing (JavaScript's `x ?? fallback`). */
    function GetOr(fallback: T): T
    {
      if Some? then value else fallback
    }
  }

  /** The outcome of an operation that may throw: `Err` carries what was thrown. */
  datatype Result<+T, +E> = Ok(value: T) | Err(error: E)
}
