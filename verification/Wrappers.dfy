/** The two result shapes the modules share. */
module Wrappers {
  datatype Option<+T> = None | Some(value: T)

  /** A computation that either yields a value or throws, as a setup error does. */
  datatype Result<+T> = Ok(value: T) | Thrown(message: string)
}
