/** Option and Result: absent values and the service's two ways of finishing. */
module Wrappers {

  /** A value that may be missing (`null`/`undefined` in the service's own terms). */
  datatype Option<+T> = None | Some(value: T)

  /** What an exported service function settles with: a value, or an `Error` thrown with a message. */
  datatype Result<+T> = Ok(value: T) | Err(message: string)
}
