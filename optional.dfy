/** An optional value: absent query parameters, missing columns and null JSON fields. */
module Optional {

  datatype Option<+T> = None | Some(value: T) {

    function GetOr(default: T): T {
      match this
      case Some(v) => v
      case None => default
    }
  }
}
