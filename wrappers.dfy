/** The Option type used for "a match or nothing". */
module Wrappers {

  datatype Option<+T> = None | Some(value: T)
}
