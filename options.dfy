/** The optional value used wherever the Rust code returns `Option<_>`. */
module Options {

  datatype Option<+T> = None | Some(value: T)
}
