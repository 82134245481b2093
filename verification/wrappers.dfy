/** The optional value used wherever the crawler stores or returns `null`. */
module Wrappers {

  datatype Option<+T> = None | Some(value: T)
}
