/** Small shared vocabulary: a value that may be absent. */
module Common {

  /** A Python value that may be missing (a dictionary key that is absent, a call that raised). */
  datatype Option<+T> = None | Some(value: T)
}
