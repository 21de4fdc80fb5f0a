/** Python's None, made explicit. */
module Wrappers {

  datatype Option<+T> = None | Some(value: T)

}
