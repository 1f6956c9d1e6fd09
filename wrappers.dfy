/** The optional value used for command-line arguments that may be absent. */
module Wrappers {

  datatype Option<+T> = None | Some(value: T)
}
