/** A possibly-null value: a null C pointer, or an absent entry. */
module Options {
  datatype Option<T> = None | Some(value: T)
}
