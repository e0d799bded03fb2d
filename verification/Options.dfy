/** The one helper datatype every module of the project shares. */
module Options {
  datatype Option<+T> = None | Some(value: T)
}
