/** The usual result datatype for a computation that may have no answer. */
module Wrappers {
  datatype Option<+T> = None | Some(value: T)
}
