/** A value that JavaScript may leave null or undefined. */
module Wrappers {

  datatype Option<+T> = None | Some(value: T)

}
