/** An optional value: the source's nil pointers and lookups that may fail. */
module Options {
  datatype Option<T> = None | Some(value: T)

  function Deref<T>(o: Option<T>, default: T): T {
    if o.Some? then o.value else default
  }
}
