/** Option and Result values shared by the configuration merge and the script patch. */
module Wrappers {

  datatype Option<+T> = None | Some(value: T) {
    function GetOr(default: T): T {
      match this
      case Some(v) => v
      case None => default
    }
  }

  /** The outcome of an operation that the program would otherwise end with a non-zero exit. */
  datatype Result<+R, +E> = Success(value: R) | Failure(error: E)
}
