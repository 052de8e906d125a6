/** The one general-purpose datatype of the project: a value that may be absent (SQL NULL, Python None). */
module Wrappers {
  datatype Option<+T> = None | Some(value: T)
}
