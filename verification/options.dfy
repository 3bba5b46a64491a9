/** An optional value: a field the source may leave `undefined`, or a result that may be absent. */
module Options {
  datatype Option<T> = None | Some(value: T)
}
