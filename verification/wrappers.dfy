/** The Option datatype used for results that may be absent or may carry an error message. */
module Wrappers {
  datatype Option<+T> = None | Some(value: T)
}
