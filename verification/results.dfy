/** Outcome types shared by the solvers: `Option` for a value that may be
    missing (an `unwrap` on `None` in the Rust code) and `Result` for an
    operation that fails where the Rust code panics. */
module Results {

  datatype Option<+T> = None | Some(value: T)

  datatype Result<+T, +E> = Ok(value: T) | Err(error: E)
}
