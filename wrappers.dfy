/** The Option datatype used where the script looks a property up and may find nothing. */
module Wrappers {

  datatype Option<+T> = None | Some(value: T)
}
