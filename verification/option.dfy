/** The optional value returned by `pop` and by an iterator's `next`. */
module Options {

  datatype Option<T> = None | Some(value: T)
}
