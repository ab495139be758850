/** Failure-carrying result types shared by the booking handlers and the
    codice fiscale generator. */
module Wrappers {

  /** A value that may be absent: a JSON key that was not sent, a row that
      a query did not find. */
  datatype Option<+T> = None | Some(value: T) {
    function GetOr(default: T): T {
      match this
      case Some(v) => v
      case None => default
    }
  }

  /** The outcome of an operation that produces a value or reports an error. */
  datatype Result<+T, +E> = Success(value: T) | Failure(error: E)

  /** The outcome of an operation that produces nothing but may fail. */
  datatype Outcome<+E> = Pass | Fail(error: E)
}
