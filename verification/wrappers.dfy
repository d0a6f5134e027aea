/** The two result shapes the services answer with. */
module Wrappers {
  datatype Option<+T> = None | Some(value: T)

  /** `Err` stands for an exception the server throws. */
  datatype Result<+T, +E> = Ok(value: T) | Err(error: E)
}
