/** A value that may be absent: a missing feed field or no matching category. */
module Optional {

  datatype Option<+T> = None | Some(value: T) {

    /** The value, or `default` when absent; Python's `d.get(key, default)`. */
    function GetOr(default: T): T {
      match this
      case Some(v) => v
      case None => default
    }
  }
}
