/** The optional value an engine may hand back for one input. */
module Wrappers {

  /** `None` stands for Python's `None`, `Some(v)` for a present value `v`. */
  datatype Option<+T> = None | Some(value: T)
}
