/** An optional value: stands for a pointer that may be null or an
    uninitialised variable that was never assigned. */
module Options {
  datatype Option<+T> = None | Some(value: T)
}
