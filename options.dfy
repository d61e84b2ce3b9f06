/** The optional-value wrapper used for JSON fields that may be missing or
    null, and the outcome of a check that either passes with a value or
    fails with an error. */
module Options {

  datatype Option<T> = None | Some(value: T) {
    function GetOr(default: T): T {
      match this
      case Some(v) => v
      case None => default
    }
  }

  datatype Result<T, E> = Success(value: T) | Failure(error: E)
}
