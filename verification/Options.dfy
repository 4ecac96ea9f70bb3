/** A nullable column or an absent value. */
module Options {
  datatype Option<+T> = None | Some(value: T)
}
