/// The optional value used for the analyzer's "undefined" expression and for
/// the missing else branch of a conditional.
module Wrappers {
  datatype Option<+T> = None | Some(value: T)
}
