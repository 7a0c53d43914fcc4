/** Shared vocabulary: identifiers, optional values and results. */
module Prelude {
  /** Primary keys; uuids in the database. */
  type Id = string

  datatype Option<+T> = None | Some(value: T) {
    function GetOr(default: T): T {
      match this
      case Some(v) => v
      case None => default
    }
  }

  datatype Result<+T, +E> = Ok(value: T) | Err(error: E)
}
