/** The Some/None datatype used wherever the program returns or stores `None`. */
module Options {
  datatype Option<+T> = None | Some(value: T)
}
