/** A value that may be absent: the model's reading of TypeScript's `T | null`. */
module Optional {
  datatype Option<+T> = None | Some(value: T)
}
