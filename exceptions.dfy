/** The failure values of the record layer: an optional value, and a result that is either
    a value or one of the Python exceptions the code raises or lets through. */
module Exceptions {

  datatype Option<+T> = None | Some(value: T)

  /** The exception kinds the record layer raises or propagates. */
  datatype Exception =
    | ValueError(message: string)
    | KeyError(key: string)
    | TypeError
    | JSONDecodeError

  datatype Result<+T> = Ok(value: T) | Err(error: Exception)
}
