/** Option and Result, standing for JavaScript's nullable values and for
    operations that either return a value or throw. */
module Wrappers {

  datatype Option<+T> = None | Some(value: T)

  /** Either the value an operation produced or the message of the error it threw. */
  datatype Result<+T> = Ok(value: T) | Err(error: string)
}
