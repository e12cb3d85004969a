/** Real-number helpers: `Math.abs` and `np.abs`. */
module Reals {

  function Abs(r: real): (a: real)
    ensures 0.0 <= a && (a == r || a == -r)
  {
    if r < 0.0 then -r else r
  }
}
