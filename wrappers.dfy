/** Option and Result: how the model writes SQL NULL results and the errors
    raised by elog(ERROR), ereport and thrown exceptions. */
module Wrappers {

  datatype Option<+T> = None | Some(value: T)

  /** Ok carries the result of an operation. Err carries the error it raised. */
  datatype Result<+T> = Ok(value: T) | Err(msg: string)
}
