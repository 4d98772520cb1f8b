/** The one wrapper every module shares: a nullable value of the source. */
module Wrappers {
  datatype Option<+T> = None | Some(value: T)
}
