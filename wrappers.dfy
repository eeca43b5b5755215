/** The optional value used where the source returns an entity or `null`. */
module Wrappers {
  datatype Option<+T> = None | Some(value: T)
}
