/** The optional value used wherever the source either finds something or does not. */
module Wrappers {
  datatype Option<+T> = None | Some(value: T)
}
