/** A value that may be absent: the model of a TypeScript optional field or `undefined`. */
module Optional {

  datatype Option<+T> = None | Some(value: T)
}
