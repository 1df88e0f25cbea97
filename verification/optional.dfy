/** The "nothing found" sentinel of the source, made explicit. */
module Optional {

  /** `None` stands for the source's empty-string sentinel (or its caught
      KeyError); `Some(v)` for a value that was found. */
  datatype Option<+T> = None | Some(value: T) {

    /** The value, or `default` when there is none. */
    function GetOr(default: T): (r: T)
      ensures Some? ==> r == value
      ensures None? ==> r == default
    {
      match this
      case Some(v) => v
      case None => default
    }
  }
}
