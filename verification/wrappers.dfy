/** The optional value used for nullable pointers and "no output yet" results. */
module Wrappers {
  datatype Option<+T> = None | Some(value: T)
}
