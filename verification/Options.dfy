/** A value that may be missing. */
module Options {

  datatype Option<+T> = None | Some(value: T)

  /** A number that could be read and is above zero. */
  predicate Positive(x: Option<real>) { x.Some? && x.value > 0.0 }
}
