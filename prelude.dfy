/** Rust's `Option` and `Result`, the two wrappers every layer of the application returns. */
module Prelude {

  datatype Option<+T> = None | Some(value: T)

  datatype Result<+T, +E> = Ok(value: T) | Err(error: E)

  /** The one `diesel::result::Error` the model can produce: `first()` on an empty selection. */
  datatype DbError = NotFound

  /** Seconds since the epoch; readings of the clock are parameters of the model. */
  type Timestamp = int
}
