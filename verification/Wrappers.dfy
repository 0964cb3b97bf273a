module Wrappers {
  datatype Option<+T> = None | Some(value: T) {
    function GetOr(default: T): T { if Some? then value else default }
  }

  datatype Result<+T, +E> = Success(value: T) | Failure(error: E)
}
