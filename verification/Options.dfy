// An optional value, for the source's std::optional and its true/false returns.
module Options {
  datatype Option<+T> = None | Some(value: T)
}
