/** The two result shapes the models share. */
module Outcomes {
  datatype Option<+T> = None | Some(value: T) {
    function GetOr(default: T): T {
      if Some? then value else default
    }
  }

  /** A call that returns, or raises an error. */
  datatype Result<+T, +E> = Success(value: T) | Failure(error: E)
}
