/** The one sum type shared by the other modules: a value that may be absent. */
module Options {

  datatype Option<+T> = None | Some(value: T)
}
