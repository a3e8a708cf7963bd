/** Results of operations that the program ends by returning nothing or by throwing. */
module Wrappers {
  datatype Option<+T> = None | Some(value: T)
}
