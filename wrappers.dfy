/** Failure-carrying values: PHP exceptions raised by the modelled class
    become the error side of these datatypes. */
module Wrappers {

  datatype Option<+T> = None | Some(value: T) {
    /** The value, or `default` when absent (PHP's `??` operator). */
    function GetOr(default: T): T
    {
      match this
      case Some(v) => v
      case None => default
    }
  }

  /** A call that returns a value or throws. */
  datatype Result<+T, +E> = Ok(value: T) | Err(error: E)

  /** A call that returns nothing of interest (`return $this`) or throws. */
  datatype Outcome<+E> = Pass | Fail(error: E)
}
