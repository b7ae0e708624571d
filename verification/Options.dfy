/** The optional value: a nullable column, a pointer that may be nil, a query that may find no row. */
module Options {
  datatype Option<+T> = None | Some(value: T)
}
