/** The Some/None wrapper used for Python values that may be absent (`None`). */
module Optional {

  datatype Option<+T> = None | Some(value: T)
}
