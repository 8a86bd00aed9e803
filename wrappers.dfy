/** The Option type used wherever the Go code returns a nil-able result. */
module Wrappers {
  datatype Option<+T> = None | Some(value: T)
}
