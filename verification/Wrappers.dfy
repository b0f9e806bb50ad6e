/** A value that may be missing, as the source's null pointers and failed lookups have it. */
module Wrappers {

  datatype Option<T> = None | Some(value: T)
}
