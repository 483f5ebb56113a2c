/** Rust's `Option`, used for cell occupants, the selection and emitted events. */
module Options {
  datatype Option<T> = None | Some(value: T)
}
