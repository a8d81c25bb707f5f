/** Optional values. */
module Wrappers {

  /** A value that may be absent; `None` plays the role of JavaScript's `null`. */
  datatype Option<+T> = None | Some(value: T) {

    /** The carried value, or `fallback` when there is none. */
    function GetOr(fallback: T): (r: T)
      ensures Some? ==> r == value
      ensures None? ==> r == fallback
    {
      if Some? then value else fallback
    }
  }
}
