/** The optional value: an empty square, a missing best move. */
module Options {

  datatype Option<T> = None | Some(value: T)
}
