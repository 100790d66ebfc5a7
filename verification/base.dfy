/** Small value types shared by every module: Rust's Option and Result, and bytes. */
module Base {

  /** Rust's `Option<T>`. */
  datatype Option<T> = None | Some(value: T) {

    /** `unwrap_or`: the carried value, or `default` when there is none. */
    function UnwrapOr(default: T): (r: T)
      ensures Some? ==> r == value
      ensures None? ==> r == default
    {
      match this
      case Some(v) => v
      case None => default
    }
  }

  /** Rust's `Result<T, E>`. */
  datatype Result<T, E> = Ok(value: T) | Err(error: E)

  /** The unit type `()`. */
  datatype Unit = Unit

  /** An octet of a file body or a request body. */
  newtype byte = x: int | 0 <= x < 256
}
