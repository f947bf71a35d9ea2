/** Optional values and results with an error, the shapes the handlers' JSON replies take. */
module Wrappers {

  /** A value that may be absent: an omitted request field, a NULL column. */
  datatype Option<+T> = None | Some(value: T) {
    function GetOr(default: T): T {
      match this
      case Some(v) => v
      case None => default
    }
  }

  /** `{ success: true, ... }` carrying a value, or an `{ error }` reply. */
  datatype Result<+T, +E> = Success(value: T) | Failure(error: E)

  /** JavaScript's truthiness for an optional string field: present and not empty. */
  predicate Truthy(field: Option<string>) {
    field.Some? && field.value != ""
  }
}
