/** Option stands for a reference that may be null in the modelled code. */
module Wrappers {
  datatype Option<+T> = None | Some(value: T)
}
