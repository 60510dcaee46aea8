/** Failure-carrying results for the operations of the command engine that throw. */
module Wrappers {

  datatype Option<+T> = None | Some(value: T) {
    function GetOr(default: T): T {
      match this
      case Some(v) => v
      case None => default
    }
  }

  datatype Result<+R, +E> = Success(value: R) | Failure(error: E)

  datatype Outcome<+E> = Pass | Fail(error: E)

  /** The exceptions the modelled Kotlin code can raise. */
  datatype Error =
    | IllegalState(message: string)   // `check(...)` failing
    | NoSuchElement                   // `first()` / `removeFirst()` on an empty list
    | UninitializedProperty           // reading a `lateinit var` before it is set
}
