/** Small shared datatypes. */
module Common {

  /** A value that may be absent: a JavaScript `null`/`undefined` result or a missing map entry. */
  datatype Option<+T> = None | Some(value: T)
}
