/** Swift's optionals, shared by the model. */
module Wrappers {

  /** Swift's `T?`: either no value or some value. */
  datatype Option<+T> = None | Some(value: T)
}
