/** Failure-carrying values used for the library calls that may raise. */
module Wrappers {

  datatype Option<+T> = None | Some(value: T)

  /** `Err` carries the text Python would produce with `str(e)` for the raised exception. */
  datatype Result<+T> = Ok(value: T) | Err(message: string)
}
