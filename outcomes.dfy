/** The two failure-carrying datatypes the rest of the model uses: an optional value
    (a lookup that may find nothing) and a result that is either a value or an error
    (a call that may throw). */
module Outcomes {

  datatype Option<+T> = None | Some(value: T) {
    /** The value, or `default` when there is none. */
    function GetOr(default: T): T {
      match this
      case Some(v) => v
      case None => default
    }
  }

  datatype Result<+T, +E> = Ok(value: T) | Err(error: E)
}
