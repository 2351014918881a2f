/** The stock optional-value datatype, standing for a pointer that may be NULL. */
module Optional {
  datatype Option<+T> = None | Some(value: T)
}
