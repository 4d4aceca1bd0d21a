/** An optional value: a failed parse, or no command-line command. */
module Wrappers {

  datatype Option<+T> = None | Some(value: T)
}
