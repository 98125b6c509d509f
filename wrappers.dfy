/** The optional value JavaScript spells as `null` or `undefined`. */
module Wrappers {

  datatype Option<+T> = None | Some(value: T)
}
