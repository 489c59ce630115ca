/** A value that may be missing: Go's nil pointers, absent map keys, absent errors. */
module Options {

  datatype Option<T> = None | Some(value: T)
}
