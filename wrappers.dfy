/** Option and Result, used for the error paths of the source (exceptions and sys.exit). */
module Wrappers {

  datatype Option<+T> = None | Some(value: T)

  datatype Result<+T, +E> = Ok(value: T) | Err(error: E)
}
