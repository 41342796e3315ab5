/** What is shared by all parts of the project. */
module Wrappers {
  datatype Option<+T> = None | Some(value: T)
}
