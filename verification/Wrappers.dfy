/** A value, or none: a pointer that may be NULL, or the result of a search. */
module Wrappers {

  datatype Option<+T> = None | Some(value: T)
}
