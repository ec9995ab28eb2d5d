/**
 * Python 2 integer division and remainder. Both round toward negative
 * infinity, so the remainder takes the sign of the divisor; Dafny's own `/`
 * and `%` are Euclidean and differ for a negative divisor.
 */
module PyInt {

  /** `b / a` on Python 2 ints: the largest `q` with `a * q` not past `b`. */
  function FloorDiv(b: int, a: int): (q: int)
    requires a != 0
    ensures a > 0 ==> a * q <= b < a * q + a
    ensures a < 0 ==> a * q + a < b <= a * q
  {
    if a > 0 then b / a else (-b) / (-a)
  }

  /** `b % a` on Python 2 ints: what is left of `b` after `FloorDiv(b, a)` times `a`. */
  function FloorMod(b: int, a: int): (r: int)
    requires a != 0
    ensures b == a * FloorDiv(b, a) + r
    ensures a > 0 ==> 0 <= r < a
    ensures a < 0 ==> a < r <= 0
  {
    if a > 0 then b % a else -((-b) % (-a))
  }
}
