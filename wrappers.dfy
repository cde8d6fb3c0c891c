/** The absent-or-present value the pipeline's lookups and parsers return. */
module Wrappers {
  datatype Option<+T> = None | Some(value: T)
}
