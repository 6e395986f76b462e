/** The stand-in for the null pointers and `None`s of the modelled code. */
module Wrappers {
  datatype Option<+T> = None | Some(value: T)
}
