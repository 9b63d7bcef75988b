// Results of look-ups and of fallible operations.

module Wrappers {

  datatype Option<+T> = None | Some(value: T)

  datatype Result<+T, +E> = Success(value: T) | Failure(error: E)

  function OrElse<T>(v: Option<T>, default: T): T {
    if v.Some? then v.value else default
  }
}
