/** The optional value used wherever the source has a value or Python's None. */
module Wrappers {
  datatype Option<+T> = None | Some(value: T)
}
