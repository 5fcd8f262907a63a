/** The optional value used for the visitor's absent (nil) children. */
module Wrappers {

  datatype Option<+T> = None | Some(value: T)

}
