/** A value or its absence; absence stands for the source's thrown errors and null results. */
module Options {
  datatype Option<+T> = None | Some(value: T)
}
