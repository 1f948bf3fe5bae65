/** Small value types shared by every router model: optional values (Python's
    None), results with a typed error (an HTTPException or a runtime error),
    and integer helpers. */
module Basics {

  datatype Option<T> = None | Some(value: T)

  datatype Result<T, E> = Ok(value: T) | Err(error: E)

  function Min(a: int, b: int): int
  {
    if a <= b then a else b
  }

  function Max(a: int, b: int): int
  {
    if a >= b then a else b
  }

  /** `(part / whole * 100) if whole > 0 else 0`, the formula of every
      mastery, score and accuracy percentage, computed exactly. */
  function Percent(part: int, whole: int): real
  {
    if whole > 0 then (part as real) / (whole as real) * 100.0 else 0.0
  }

  /** A percentage is 0 of nothing, and otherwise exactly 100 * part / whole. */
  lemma PercentScaled(part: int, whole: int)
    ensures whole <= 0 ==> Percent(part, whole) == 0.0
    ensures whole > 0 ==> Percent(part, whole) * (whole as real) == (part as real) * 100.0
  {
    if whole > 0 {
      var w, p := whole as real, part as real;
      assert (p / w) * w == p;
    }
  }

  /** A part within its whole is between 0 and 100 percent. */
  lemma PercentRange(part: int, whole: int)
    requires 0 <= part <= whole
    ensures 0.0 <= Percent(part, whole) <= 100.0
  {
    if whole > 0 {
      var w, p := whole as real, part as real;
      assert p / w <= 1.0;
    }
  }

  /** Python's truthiness of an optional integer: None and 0 are false. */
  predicate Truthy(o: Option<int>)
  {
    o.Some? && o.value != 0
  }

  /** Python's `x or 0` for an optional integer. */
  function OrZero(o: Option<int>): (r: int)
    ensures Truthy(o) ==> r == o.value
    ensures !Truthy(o) ==> r == 0
  {
    if o.Some? then o.value else 0
  }
}
