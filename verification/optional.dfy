/** The absent-or-present values the data layer passes around: JSON `null`
    fields of a classifier reply and the NaN outcome of number parsing. */
module Optional {

  datatype Option<+T> = None | Some(value: T) {

    /** The value when present, the given default otherwise. */
    function GetOr(default: T): T {
      match this
      case Some(v) => v
      case None => default
    }
  }
}
