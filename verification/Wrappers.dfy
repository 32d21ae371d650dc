/** The shape that the rest of the project uses for a value that may be absent. */
module Wrappers {

  datatype Option<+T> = None | Some(value: T)
}
