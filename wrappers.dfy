/** The optional-value type shared by the queue and codec models. */
module Wrappers {
  datatype Option<+T> = None | Some(value: T)
}
