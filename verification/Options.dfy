/** The usual optional value, used where the C code has "no holder" or a failed call. */
module Options {
  datatype Option<+T> = None | Some(value: T)
}
