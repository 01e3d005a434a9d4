/** The conventional optional value, used for Python calls that may raise. */
module Options {

  datatype Option<+T> = None | Some(value: T)

}
