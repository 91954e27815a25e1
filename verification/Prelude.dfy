/** Optional values, results, and the application's error codes that the modelled code throws. */
module Prelude {
  datatype Option<+T> = None | Some(value: T)

  datatype AppError = ValidationError | Forbidden | Conflict | UnsupportedFileFormat

  datatype Result<+T> = Ok(value: T) | Err(error: AppError)
}
