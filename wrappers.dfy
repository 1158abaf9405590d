/** The optional value used where JavaScript has `null`. */
module Wrappers {

  datatype Option<+T> = None | Some(value: T)
}
