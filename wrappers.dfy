/** Optional values and results with an error message, shared by both halves of the model. */
module Wrappers {

  /** A value that may be absent (JavaScript `null`, a missing JSON key, an empty form field). */
  datatype Option<+T> = None | Some(value: T)

  /** The outcome of a step that can fail with a message (a thrown error or a raised exception). */
  datatype Result<+T> = Ok(value: T) | Err(message: string)
}
