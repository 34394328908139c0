/** The optional value the game returns where the Java code returns a string or null. */
module Options {

  datatype Option<+T> = None | Some(value: T)
}
