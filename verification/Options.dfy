/** A value that may be missing; None also stands for a panic where the code has one. */
module Options {
  datatype Option<+T> = None | Some(value: T)
}
