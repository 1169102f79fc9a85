/** Values that may be absent, for the original's `None`. */
module Wrappers {
  datatype Option<+T> = None | Some(value: T)
}
