/** An optional value: stands in for the "nothing found yet" state that
    the source encodes with an infinite distance or a NaN. */
module Optional {
  datatype Option<T> = None | Some(value: T)
}
