/** The optional value used for lookups and out-parameters that may be absent. */
module Wrappers {
  datatype Option<+T> = None | Some(value: T)
}
