/** The optional value used wherever the JavaScript record has a field that may be null or absent. */
module Wrappers {
  datatype Option<+T> = None | Some(value: T)
}
