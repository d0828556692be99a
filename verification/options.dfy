/** The optional value used wherever a handler may or may not touch something. */
module Options {

  datatype Option<+T> = None | Some(value: T)
}
