/** The usual optional value, standing for NULL or an invalid QVariant. */
module Options {
  datatype Option<+T> = None | Some(value: T)
}
