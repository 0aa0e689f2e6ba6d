/** The optional-value datatype the rest of the model uses for JavaScript's
    `null`/`undefined` and for graph operations that throw. */
module Wrappers {

  datatype Option<+T> = None | Some(value: T) {

    /** Returns the value in Some, or `default` for None. */
    function GetOr(default: T): T {
      match this
      case Some(v) => v
      case None => default
    }
  }
}
