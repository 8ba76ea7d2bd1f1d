/** The optional value used where the source has a nullable result or throws on an absent element. */
module Wrappers {

  datatype Option<+T> = None | Some(value: T)
}
