/** Optional values and results that carry the text of a Go `error`. */
module Wrappers {

  /** A value that may be absent; `None` plays the role of Go's `nil`. */
  datatype Option<+T> = None | Some(value: T)

  /** Either a value or the text an `error` value would print with `Error()`. */
  datatype Result<+T> = Ok(value: T) | Err(reason: string)
}
