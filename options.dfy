/** The optional value used throughout the model, standing for Rust's
    `Option`. */
module Options {

  datatype Option<T> = None | Some(value: T)
}
