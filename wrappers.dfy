/** The optional value used for Python's `None` and for dictionary keys that are absent. */
module Wrappers {
  datatype Option<+T> = None | Some(value: T)
}
