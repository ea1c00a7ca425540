/** A value that may be missing: JavaScript's null, undefined or false in place of an object. */
module Options {
  datatype Option<+T> = None | Some(value: T)
}
