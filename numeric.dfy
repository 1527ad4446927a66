/**
 * The few JavaScript number behaviours the colour subsystem depends on:
 * integer values that may be NaN (parseInt, Math.max, channel values),
 * non-negative distances that may be finite, +Infinity or NaN, the
 * comparisons `<` and `<=` on them, and Math.round of an integer average.
 */
module Numeric {

  /** A JavaScript number that is an integer, or NaN. */
  datatype JsInt = Int(n: int) | NaN

  /** A JavaScript number as a distance can be: finite, +Infinity, or NaN. */
  datatype Number = Finite(v: real) | PosInf | NotANumber

  /** JavaScript `a < b`: false whenever either side is NaN. */
  predicate Less(a: Number, b: Number) {
    match (a, b)
    case (Finite(x), Finite(y)) => x < y
    case (Finite(_), PosInf) => true
    case _ => false
  }

  /** JavaScript `a <= b`: false whenever either side is NaN. */
  predicate AtMost(a: Number, b: Number) {
    match (a, b)
    case (Finite(x), Finite(y)) => x <= y
    case (Finite(_), PosInf) => true
    case (PosInf, PosInf) => true
    case _ => false
  }

  /**
   * JavaScript `a * k` for a positive finite factor `k`: a factor of at
   * least 1 never makes a non-negative number smaller, so such a number is
   * always within its own scaled threshold; NaN stays NaN.
   */
  function Scale(a: Number, k: real): (r: Number)
    requires k > 0.0
    ensures k >= 1.0 && a != NotANumber && (a.Finite? ==> a.v >= 0.0) ==> AtMost(a, r)
    ensures r.Finite? <==> a.Finite?
    ensures r.Finite? ==> r.v == a.v * k
    ensures r == NotANumber <==> a == NotANumber
  {
    match a
    case Finite(x) => Finite(x * k)
    case _ => a
  }

  /** On numbers that are not NaN, `<=` is the negation of the swapped `<`. */
  lemma AtMostIsNotLess(a: Number, b: Number)
    requires a != NotANumber && b != NotANumber
    ensures AtMost(a, b) <==> !Less(b, a)
  {
  }

  /**
   * Math.round(total / count) for an integer total and a positive count:
   * the nearest integer, halves rounded up.
   */
  function RoundedAverage(total: int, count: int): (q: int)
    requires count > 0
    ensures 2 * q * count - count <= 2 * total < 2 * q * count + count
  {
    var q := (2 * total + count) / (2 * count);
    var rem := (2 * total + count) % (2 * count);
    assert 2 * total + count == q * (2 * count) + rem && 0 <= rem < 2 * count;
    q
  }

  /** An average of values in [0, 255] rounds to a value in [0, 255]. */
  lemma RoundedAverageInRange(total: int, count: int)
    requires count > 0 && 0 <= total <= 255 * count
    ensures 0 <= RoundedAverage(total, count) <= 255
  {
    var q := RoundedAverage(total, count);
    assert 0 < (2 * q + 1) * count;
    assert (2 * q - 1) * count <= 510 * count;
  }
}
