/**
 The optional result shared by the modules whose source operations can fail
 or read undefined memory.
 */
module Wrappers {

  /** A value, or none when the operation has no defined result. */
  datatype Option<T> = None | Some(value: T)
}
