/** The optional value used wherever the program may find nothing. */
module Wrappers {

  datatype Option<+T> = None | Some(value: T)

}
