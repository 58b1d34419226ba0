/** An optional value, as Rust's `Option`. */
module Options {

  datatype Option<+T> = None | Some(value: T)
}
