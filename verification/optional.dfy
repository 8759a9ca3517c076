/** The absent-or-present value used wherever the script reads something that may be
    `null` or `undefined`, or calls something that may throw instead of returning. */
module Optional {

  datatype Option<+T> = None | Some(value: T) {

    /** The value, or `default` when there is none. */
    function GetOr(default: T): T {
      match this
      case Some(v) => v
      case None => default
    }
  }
}
