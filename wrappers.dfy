/** The optional value used for the log file handle that is absent until the first save. */
module Wrappers {
  datatype Option<+T> = None | Some(value: T)
}
