/** `Math.max(lo, Math.min(x, hi))`, the clamp used by the engine and by the text input. */
module Clamping {

  function Clamp(lo: int, hi: int, x: int): (r: int)
    ensures lo <= hi ==> lo <= r <= hi
    ensures lo <= x <= hi ==> r == x
    ensures hi <= x ==> r == (if lo <= hi then hi else lo)
    ensures x <= lo ==> r == lo
  {
    var upper := if x < hi then x else hi;
    if lo < upper then upper else lo
  }

  /** The clamp of `x` is the point of `[lo, hi]` nearest to `x`. */
  lemma ClampIsNearest(lo: int, hi: int, x: int, y: int)
    requires lo <= y <= hi
    ensures var r := Clamp(lo, hi, x); (if r <= x then x - r else r - x) <= (if y <= x then x - y else y - x)
  {
  }
}
