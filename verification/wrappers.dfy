/** The optional-value type used throughout the model: `None` stands for
    Python's `None` or for an exception that the caller turns into one. */
module Wrappers {
  datatype Option<+T> = None | Some(value: T)
}
