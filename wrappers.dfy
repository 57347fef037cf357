/** Optional values and results with an error, as used throughout the model.
    `Option` also stands for Go's sql.NullInt64 / sql.NullFloat64: `None` is a
    NULL column (Valid == false), `Some(v)` a present value. */
module Wrappers {

  datatype Option<+T> = None | Some(value: T)

  datatype Result<+T, +E> = Ok(value: T) | Err(error: E)
}
