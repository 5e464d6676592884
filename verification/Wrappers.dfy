/** The result of a lookup or of a read that may have none. */
module Wrappers {

  datatype Option<+T> = None | Some(value: T)
}
