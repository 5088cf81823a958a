/** The optional value used for SQL NULLs, absent results and failed decodings. */
module Options {
  datatype Option<+T> = None | Some(value: T)
}
