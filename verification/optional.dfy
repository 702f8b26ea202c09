/** The `Option` type used for dictionary entries that may be absent. */
module Optional {

  /** `None` is a key missing from a Python dict; `Some(v)` is a key present with value `v`. */
  datatype Option<+T> = None | Some(value: T) {

    /** Python's `d.get(key, default)`: the value when present, otherwise the default. */
    function GetOr(default: T): T {
      match this
      case Some(v) => v
      case None => default
    }

    /** Python's `d.get(a) or d.get(b)` for values that are never falsy: the first present one. */
    function OrElse(other: Option<T>): Option<T> {
      if Some? then this else other
    }
  }
}
