/** Option and Result, the two failure-carrying shapes the library returns. */
module Wrappers {

  datatype Option<+T> = None | Some(value: T)

  /** Rust's `Result<T, E>`. */
  datatype Result<+T, +E> = Ok(value: T) | Err(error: E) {

    /** Rust's `Result::ok`: drops the error. */
    function ToOption(): (o: Option<T>)
      ensures o.Some? <==> this.Ok?
      ensures o.Some? ==> o.value == this.value
    {
      match this
      case Ok(v) => Some(v)
      case Err(_) => None
    }
  }
}
