/** A value that may be missing: a database column that is NULL or a field left undefined. */
module Wrappers {

  datatype Option<+T> = None | Some(value: T)

}
