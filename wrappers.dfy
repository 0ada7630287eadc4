/** Option and Result, the two wrappers the model uses for "absent" and "threw". */
module Wrappers {

  datatype Option<+T> = None | Some(value: T)

  /** The outcome of a JavaScript computation that either returns a value or
      throws; a thrown exception is known by its `message`, the only part of it
      the action ever looks at. */
  datatype Result<+T> = Ok(value: T) | Err(message: string)
}
