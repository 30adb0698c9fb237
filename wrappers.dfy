/** Failure-carrying datatypes shared by the modules of the model. */
module Wrappers {

  /** Rust's `Option<T>`. */
  datatype Option<+T> = None | Some(value: T)

  /** Rust's `Result<T, E>`. */
  datatype Result<+T, +E> = Ok(value: T) | Err(error: E)

  /** The way a call ends: it either returns a value or panics. A panic is an
      outcome of the modelled code, never a precondition on its callers. */
  datatype Run<+T> = Returned(value: T) | Panicked

  /** `std::io::Error` as far as the model distinguishes it: an OS error code
      (`last_os_error()`), or one of the kinds the library builds itself. */
  datatype IoError = Os(code: int) | InvalidInput | OutOfMemory
}
