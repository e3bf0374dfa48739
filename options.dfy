/** A value that may be absent: a C pointer that may be NULL, a macro that may be undefined. */
module Options {

  datatype Option<+T> = None | Some(value: T)
}
