/** The optional value used throughout for null pointers and refused parses. */
module Options {

  datatype Option<+T> = None | Some(value: T)
}
