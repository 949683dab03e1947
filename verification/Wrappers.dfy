// A value that may be missing: undefined in the sources.
module Wrappers {
  datatype Option<+T> = None | Some(value: T)
}
