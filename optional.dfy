/** The optional values of the app: Swift's `T?` for values (names, dates, indices). */
module Optional {

  datatype Option<T> = None | Some(value: T) {

    /** Swift's `x ?? default`. */
    function GetOr(default: T): T {
      match this
      case Some(v) => v
      case None => default
    }
  }
}
