/** A value that may be absent: JavaScript's `undefined`/`null` for a field or a variable. */
module Maybe {
  datatype Option<+T> = None | Some(value: T)
}
