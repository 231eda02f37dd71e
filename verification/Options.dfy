/** The results of operations that may find nothing or fail. */
module Options {
  datatype Option<+T> = None | Some(value: T)
}
