/** The optional-value wrapper that stands for Swift's `T?`. */
module Wrappers {

  datatype Option<+T> = None | Some(value: T)

}
