/** The optional value used wherever the crawler's Python code returns `None`. */
module Wrappers {

  datatype Option<+T> = None | Some(value: T)

}
