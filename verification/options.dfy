/** The optional value used for SQL NULL and JavaScript null/undefined. */
module Options {

  datatype Option<+T> = None | Some(value: T)

}
