/** Option: a value that may be absent (Python's None, or a parse that raised). */
module Wrappers {

  datatype Option<+T> = None | Some(value: T)
}
