/** The optional value shared by the modules: a possibly-null pointer. */
module Wrappers {
  datatype Option<T> = None | Some(value: T)
}
