/** The usual Some/None datatype, standing for Python's `None` and for pandas' NaN marker. */
module Wrappers {
  datatype Option<+T> = None | Some(value: T)
}
