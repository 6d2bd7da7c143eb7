/** A value that may be missing: a failed assertion, a rejected request, the end of a stream. */
module Options {

  datatype Option<+T> = None | Some(value: T)
}
