/** The Some/None datatype that stands in for a JavaScript element reference or `null`. */
module Wrappers {

  datatype Option<+T> = None | Some(value: T)
}
