/** The second result of a Go lookup: a value, or nothing found. */
module Wrappers {
  datatype Option<+T> = None | Some(value: T)
}
