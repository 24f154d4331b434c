/** The optional value used wherever the program returns "nothing found"
    (a header that matches no dialect, a day token missing from a table,
    a row without customer number). */
module Options {

  datatype Option<+T> = None | Some(value: T) {

    /** The wrapped value, or `default` when there is none (Python's `dict.get(k, default)`). */
    function GetOr(default: T): T {
      match this
      case Some(v) => v
      case None => default
    }
  }
}
