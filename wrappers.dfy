/**
 * The optional value used wherever the source reads a field that may be absent,
 * and the truthiness test the source applies to such a field.
 */
module Wrappers {

  datatype Option<T> = None | Some(value: T) {

    /** `x ?? d`: the value if present, the default otherwise. */
    function GetOr(default: T): T {
      match this
      case Some(v) => v
      case None => default
    }
  }

  /**
   * JavaScript truthiness of an optional string, as the query values and the
   * JSON body fields are tested: present and not the empty string.
   */
  predicate Truthy(v: Option<string>) {
    v.Some? && v.value != ""
  }
}
