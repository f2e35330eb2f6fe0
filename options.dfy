/** The optional value that the board stores in every cell. */
module Options {

  datatype Option<T> = None | Some(value: T)
}
