/**
 * Small wrapper datatypes shared by the whole model.
 *
 * JavaScript's `null`/`undefined` become `None`; the outcome of a remote
 * call that the app inspects becomes a datatype of its own in the module
 * that consumes it.
 */
module Outcomes {

  /** A value that may be absent (`null` or `undefined` in the app's TypeScript). */
  datatype Option<+T> = None | Some(value: T) {

    /** The value, or `default` when absent (the app's `x || default` on non-string values). */
    function GetOr(default: T): T {
      match this
      case Some(v) => v
      case None => default
    }
  }

  /**
   * JavaScript truthiness of an optional string: present and non-empty.
   * `if (s)` on a `string | null` takes the then-branch exactly in this case.
   */
  predicate Truthy(s: Option<string>) {
    s.Some? && s.value != ""
  }
}
