/** Optional values and error-carrying results, as used by the store operations. */
module Wrappers {

  /** A value that may be absent (TypeScript `T | undefined` or `T | null`). */
  datatype Option<+T> = None | Some(value: T) {

    /** The value if present, otherwise `default` (the `??` / spread-override idiom). */
    function GetOr(default: T): T {
      match this
      case Some(v) => v
      case None => default
    }
  }

  /** The outcome of a backend call that may reject its promise. */
  datatype Result<+T, +E> = Ok(value: T) | Err(error: E)
}
