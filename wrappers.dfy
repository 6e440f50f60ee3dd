/** The optional value used for the two pieces of state that start out unset:
    the watermark and the last median. */
module Wrappers {
  datatype Option<+T> = None | Some(value: T)
}
