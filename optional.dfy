/** The usual Some/None wrapper, used wherever the recorder keeps a value that may be absent
    (Python's `None`). */
module Optional {
  datatype Option<+T> = None | Some(value: T) {
    function GetOr(default: T): T {
      match this
      case Some(v) => v
      case None => default
    }
  }
}
