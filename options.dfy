/** The optional-value wrapper used wherever the source works with a value
    that may be absent (a null pointer, a failed sample, an unread token). */
module Options {

  datatype Option<+T> = None | Some(value: T) {

    /** The held value, or `default` when there is none. */
    function GetOr(default: T): T {
      match this
      case Some(v) => v
      case None => default
    }
  }
}
