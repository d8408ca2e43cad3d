/** The optional value used wherever the C code returns NULL or "nothing". */
module Wrappers {

  datatype Option<+T> = None | Some(value: T)
}
