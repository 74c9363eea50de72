/** The optional value used wherever the storefront has `null`/`undefined`. */
module Options {
  datatype Option<+T> = None | Some(value: T)
}
