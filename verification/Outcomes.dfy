/** Optional values, and results of operations that may raise. */
module Outcomes {

  datatype Option<T> = None | Some(value: T)
  {
    function GetOr(default: T): T {
      match this
      case Some(v) => v
      case None => default
    }
  }

  datatype Result<T> = Ok(value: T) | Raised
}
