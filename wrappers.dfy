/** The optional value used wherever the runner works with `None`. */
module Wrappers {

  datatype Option<+T> = None | Some(value: T)

}
