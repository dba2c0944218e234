/** Result types shared by the modules of this model.
    - Option<T>: a Java reference that may be null (or an absent map entry)
    - Result<T, E>: a call that either returns a value or throws
    - Outcome<E>: a void call that either completes or throws
 */
module Wrappers {

  datatype Option<+T> = None | Some(value: T) {
    /** The value, or `default` when absent. */
    function GetOr(default: T): T {
      match this
      case Some(v) => v
      case None => default
    }
  }

  datatype Result<+T, +E> = Success(value: T) | Failure(error: E)

  datatype Outcome<+E> = Pass | Fail(error: E)
}
