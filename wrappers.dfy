/** The conventional optional value: `None` stands for Python's missing value. */
module Wrappers {
  datatype Option<+T> = None | Some(value: T)
}
