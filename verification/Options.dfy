/** A value that a nullable column or a lookup may lack. */
module Options {

  datatype Option<+T> = None | Some(value: T)
}
