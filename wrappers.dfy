/** The optional value that stands for Python's `None` or a present value. */
module Wrappers {

  datatype Option<+T> = None | Some(value: T)

}
