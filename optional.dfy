/** The absent-or-present value that stands for JavaScript's `null` results. */
module Optional {
  datatype Option<+T> = None | Some(value: T)
}
