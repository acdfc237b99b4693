/** Values the JavaScript code expresses with `undefined`, `null` or a
    thrown error. */
module Common {

  /** A value that may be missing (`null` / `undefined` in the source). */
  datatype Option<+T> = None | Some(value: T) {
    /** The value, or `default` when missing: the source's `x || default`
        for a value that is never falsy when present. */
    function GetOr(default: T): T {
      match this
      case Some(v) => v
      case None => default
    }
  }

  /** The outcome of a backend query that returns rows: the rows (which may
      be `null`), or an error (returned in `error` or thrown). */
  datatype Fetch<+T> = Returned(data: Option<T>) | Failed

  function Min(a: int, b: int): int {
    if a <= b then a else b
  }

  function Max(a: int, b: int): int {
    if a >= b then a else b
  }

  /** Both suggestion lists the search box can show hold at most six words. */
  const MaxSuggestions := 6

  /** Multiplying both sides of `a <= b` by a natural number keeps the order. */
  lemma MulMonotonic(a: int, b: int, w: nat)
    requires a <= b
    ensures a * w <= b * w
  {
    assert b * w - a * w == (b - a) * w;
  }
}
