/** A value that may be missing: Python's None beside an ordinary value. */
module Maybe {
  datatype Option<+T> = None | Some(value: T)
}
