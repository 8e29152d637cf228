/** The absent-or-present value used wherever the source tests for `undefined`. */
module Optional {
  datatype Option<+T> = None | Some(value: T)
}
