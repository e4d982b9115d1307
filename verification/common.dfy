/** Small shared vocabulary: optional values and the JavaScript truthiness of optional strings. */
module Common {

  /** A value that may be absent (`undefined` in the components). */
  datatype Option<+T> = None | Some(value: T) {

    /** The value when present, otherwise `default` (the `a || b` and `??` fallbacks). */
    function GetOr(default: T): T {
      if Some? then value else default
    }
  }

  /** `if (s)` on a `string | undefined`: present and not the empty string. */
  predicate Truthy(s: Option<string>) {
    s.Some? && s.value != ""
  }

  /** Milliseconds since the epoch, as `Date.getTime()` reports them. */
  type Millis = int

  function Min(a: int, b: int): int {
    if a < b then a else b
  }
}
