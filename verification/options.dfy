/** A value that may be missing: Python's `None` against a present value,
    and, for the results of operations that can raise, "raised" against a result. */
module Options {

  datatype Option<+T> = None | Some(value: T) {

    /** The value, or `default` when there is none (Python's `d.get(k, default)`
        reduces to this, and so does `x or ""` for an optional string). */
    function GetOr(default: T): T {
      match this
      case Some(v) => v
      case None => default
    }
  }
}
