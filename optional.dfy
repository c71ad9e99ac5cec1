/** The optional value the source expresses with `undefined` or `null`. */
module Optional {

  datatype Option<+T> = None | Some(value: T)
}
