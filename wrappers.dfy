/** The SQL NULL and the Python exception, as values. */
module Wrappers {

  /** A column that may hold NULL. */
  datatype Option<+T> = None | Some(value: T) {

    /** COALESCE(this, default). */
    function GetOr(default: T): T {
      match this
      case Some(v) => v
      case None => default
    }
  }

  /** A computation that either yields a value or raises. */
  datatype Result<+T, +E> = Ok(value: T) | Err(error: E)
}
