/** Option: a value that may be missing (a pandas NaN cell, an empty result). */
module Wrappers {
  datatype Option<T> = None | Some(value: T)
}
