/** The optional value used wherever the program distinguishes a Go nil
    (a nil slice, a nil pointer, a non-finite float) from a present value. */
module Wrappers {

  datatype Option<+T> = None | Some(value: T)
}
