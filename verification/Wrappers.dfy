/** Values shared by every component: optional values, fallible answers, and the errors
    a port reports. */
module Wrappers {

  datatype Option<+T> = None | Some(value: T)

  datatype Result<+T, +E> = Ok(value: T) | Err(error: E)

  /** What a port answers when it does not answer with a value. */
  datatype PortError =
    | Conflict
    | NotFound
    | Denied
    | Unavailable
    | Failed
}
