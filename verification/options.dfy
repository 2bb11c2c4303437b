/** An optional value, used for parse results and for operations that may fail. */
module Options {

  datatype Option<T> = None | Some(value: T)
}
