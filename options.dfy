/** The optional value the Java code expresses with null. */
module Options {

  datatype Option<+T> = None | Some(value: T)
}
