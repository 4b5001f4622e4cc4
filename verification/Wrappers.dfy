// Result and option values shared by the whole model. A thrown error of the
// engine is a `Failure`; a missing JavaScript value is `None`.
module Wrappers {
  datatype Option<+T> = None | Some(value: T)
  {
    function GetOr(default: T): T {
      match this
      case Some(v) => v
      case None => default
    }
  }

  datatype Result<+T, +E> = Success(value: T) | Failure(error: E)
}
