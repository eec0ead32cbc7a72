/** The JavaScript number operations the core relies on, stated over exact
    rationals (`real`) rather than IEEE doubles. */
module JsNumbers {

  /** `Math.round(x)`: the nearest integer, a half rounded up (towards +infinity). */
  function Round(x: real): (r: int)
    ensures r as real - 0.5 <= x < r as real + 0.5
  {
    (x + 0.5).Floor
  }

  /** `Math.ceil(x)`: the least integer not below x. */
  function Ceil(x: real): (r: int)
    ensures x <= r as real < x + 1.0
  {
    -((-x).Floor)
  }

  /** `Math.min(Math.max(x, lo), hi)`. */
  function Clamp(x: int, lo: int, hi: int): (r: int)
    requires lo <= hi
    ensures lo <= r <= hi
    ensures lo <= x <= hi ==> r == x
    ensures x < lo ==> r == lo
    ensures x > hi ==> r == hi
  {
    var atLeast := if x > lo then x else lo;
    if atLeast < hi then atLeast else hi
  }

  lemma RoundMonotone(x: real, y: real)
    requires x <= y
    ensures Round(x) <= Round(y)
  {
  }

  lemma RoundOfInteger(n: int)
    ensures Round(n as real) == n
  {
  }

  /** A request field as JavaScript's relational operators see it, after
      ToNumber: a finite value or NaN (what `"abc"`, `{}` or `undefined`
      convert to). */
  datatype Num = Finite(value: real) | NaN

  /** `a < b` for a number literal b: false whenever a is NaN. */
  predicate Below(a: Num, b: real) {
    a.Finite? && a.value < b
  }

  /** `a > b` for a number literal b: false whenever a is NaN. */
  predicate Above(a: Num, b: real) {
    a.Finite? && a.value > b
  }
}
