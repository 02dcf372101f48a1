/** Option and Result, used for JavaScript's `undefined`/`null` and for thrown errors. */
module Wrappers {

  /** `None` stands for `null` or `undefined` in the modelled JavaScript. */
  datatype Option<+T> = None | Some(value: T) {

    /** The wrapped value, or `default` when there is none. */
    function GetOr(default: T): T {
      match this
      case Some(v) => v
      case None => default
    }
  }

  /** A value, or the error a call would have thrown. */
  datatype Result<+T, +E> = Ok(value: T) | Err(error: E)
}
