/** The optional value the engine hands back where the C code returns an object or NULL. */
module Wrappers {

  datatype Option<+T> = None | Some(value: T)
}
