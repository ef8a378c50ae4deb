/** A value that may be absent: a SQL NULL, a missing request field, or
    JavaScript's NaN coming out of parseInt. */
module Optional {

  datatype Option<+T> = None | Some(value: T) {

    /** The value, or `default` when absent. */
    function GetOr(default: T): T {
      match this
      case Some(v) => v
      case None => default
    }
  }
}
