/** The optional value shared by the rig modules. */
module Options {

  /** A value that may be absent: Python's `None` or an object. */
  datatype Option<+T> = None | Some(value: T)
}
