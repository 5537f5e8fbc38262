/**
  A value or its absence: Go's nil pointers, zero times and second `ok` results.
*/
module Options {
  datatype Option<+T> = None | Some(value: T)
}
