/** The optional value the models share. */
module Wrappers {

  datatype Option<+T> = None | Some(value: T)
}
