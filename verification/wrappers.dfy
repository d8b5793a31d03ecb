/** The optional value: a regex that may fail to match, a heading that may be absent. */
module Wrappers {
  datatype Option<+T> = None | Some(value: T)
}
