/** Java's nullable references, as an explicit optional value. */
module Options {

  datatype Option<+T> = None | Some(value: T)
}
