/** Optional values, and the way Python judges a string result in a condition. */
module Wrappers {

  /** A value that may be missing: an absent dictionary key, or a call that returned `None`. */
  datatype Option<T> = None | Some(value: T) {

    /** The value when there is one, `fallback` otherwise, as `dict.get(key, fallback)` reads a key. */
    function ValueOr(fallback: T): T {
      if Some? then value else fallback
    }
  }

  /** In a condition Python counts `None` and the empty string as false. */
  predicate Truthy(s: Option<string>) {
    s.Some? && s.value != ""
  }
}
