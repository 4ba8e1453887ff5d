/** The optional value used wherever the relay may have nothing to return. */
module Wrappers {
  datatype Option<+T> = None | Some(value: T)
}
