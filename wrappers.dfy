/** Option, error and result types shared by every module of the model. */
module Wrappers {

  /** A JavaScript value that may be `null` or `undefined` (None) or present (Some). */
  datatype Option<+T> = None | Some(value: T) {
    function GetOr(default: T): T {
      match this
      case Some(v) => v
      case None => default
    }
  }

  /** The exceptions the modelled code can raise. */
  datatype Error =
    | TypeError  // a property read on `undefined` or `null`

  /** The outcome of an operation that returns a value or throws; the state at the throw is given by each contract. */
  datatype Result<+T> = Ok(value: T) | Err(error: Error)

  /** The outcome of an operation that returns nothing or throws; the state at the throw is given by each contract. */
  datatype Outcome = Pass | Fail(error: Error)
}
