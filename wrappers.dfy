/** The optional value used wherever the C code returns NULL or a
    read can come back short. */
module Wrappers {
  datatype Option<+T> = None | Some(value: T)
}
