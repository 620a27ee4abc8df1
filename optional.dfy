/** A missing value: pandas' NaN/None in a cell, Python's None in an argument. */
module Optional {

  datatype Option<+T> = None | Some(value: T) {

    /** The value, or `default` when it is missing (pandas `fillna`). */
    function GetOr(default: T): T {
      match this
      case Some(v) => v
      case None => default
    }
  }
}
