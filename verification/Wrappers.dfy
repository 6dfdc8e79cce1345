/** The optional value used where the C code returns or stores a null pointer. */
module Wrappers {
  datatype Option<+T> = None | Some(value: T)
}
