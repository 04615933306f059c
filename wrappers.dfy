/** Optional values, standing for JavaScript's `undefined`/`null`/`NaN` where the
    source distinguishes a missing value from a present one. */
module Wrappers {

  datatype Option<+T> = None | Some(value: T) {

    /** The value, or `default` when there is none. */
    function GetOr(default: T): T {
      match this
      case Some(v) => v
      case None => default
    }
  }
}
