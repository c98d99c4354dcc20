/** Option, Result and Outcome: the model's stand-ins for C#'s nullable references,
    for a value-or-exception return and for a void call that may throw. */
module Wrappers {

  datatype Option<+T> = None | Some(value: T)

  /** The value of a nullable list, or the empty list when it is null. */
  function OrEmpty<T>(o: Option<seq<T>>): seq<T>
  {
    match o
    case None => []
    case Some(s) => s
  }

  datatype Result<+T, +E> = Success(value: T) | Failure(error: E)

  /** A call that returns nothing, or throws `error`. */
  datatype Outcome<+E> = Pass | Fail(error: E)
}
