// The optional value used wherever the source passes or returns a pointer
// that may be null.

module Maybe {

  datatype Option<T> = None | Some(value: T)
}
