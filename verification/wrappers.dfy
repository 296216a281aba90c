/** Absent values and thrown errors, as the script's functions return them. */
module Wrappers {
  /** `null` / a found value. */
  datatype Option<+T> = None | Some(value: T)

  /** A value returned normally, or an exception thrown out of the call. */
  datatype Result<+T, +E> = Ok(value: T) | Err(error: E)
}
