/** The optional value used wherever the interpreter stores `None`. */
module Options {
  datatype Option<T> = None | Some(value: T)
}
