/** An attribute that may be absent: `getAttribute` returns a string or null. */
module Optional {
  datatype Option<+T> = None | Some(value: T)
}
