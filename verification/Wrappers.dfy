/** The stock optional value, used wherever the program has a null pointer or boost::none. */
module Wrappers {
  datatype Option<+T> = None | Some(value: T)
}
