/** The optional value shared by the type table and the translator. */
module Optional {
  datatype Option<T> = None | Some(value: T)
}
