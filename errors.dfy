/**
 * The error kinds that the crate analyser raises (`error::BuildErrorKind`), and
 * the crate's `Result`. The toolchain errors of the same enumeration belong to
 * the builder and the executable runner and are not part of this model.
 */
module Errors {
  import opened Paths

  datatype BuildErrorKind =
    | InvalidCratePath(path: Path)
    | OtherError
    | InternalError(message: string)
    | MissingCrateType
    | InvalidCrateType(requested: string)

  datatype Result<+T> = Ok(value: T) | Err(error: BuildErrorKind)
}
