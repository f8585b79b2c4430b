/** Definitions shared by the models. */
module Common {

  datatype Option<+T> = None | Some(value: T)

  /** isspace in the C locale; also what Python's rstrip removes from ASCII text. */
  predicate IsSpace(c: char) {
    c in {' ', '\t', '\n', '\r', 11 as char, 12 as char}
  }
}
