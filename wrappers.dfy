/** Option and Result values, used for the source's nil pointers, `Option`s and error returns. */
module Wrappers {

  datatype Option<+T> = None | Some(value: T) {
    /** The value, or `d` when there is none (Rust's `Option::or` with a present default). */
    function GetOr(d: T): T {
      match this
      case Some(v) => v
      case None => d
    }

    /** The first present value of `this` and `other` (Rust's `Option::or`). */
    function Or(other: Option<T>): Option<T> {
      if Some? then this else other
    }
  }

  datatype Result<+T, +E> = Ok(value: T) | Err(error: E)
}
