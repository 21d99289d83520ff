/** The optional value used wherever the plugin works with a nullable reference. */
module Wrappers {
  datatype Option<+T> = None | Some(value: T)
}
