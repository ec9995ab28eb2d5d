/**
 * Codels, the four directions of the direction pointer, the step to the
 * neighbouring codel, and the Piet exit-codel rule for a (direction pointer,
 * codel chooser) pair.
 */
module Codels {
  import opened Colors

  /** One codel of the program image at column `x`, row `y`; rows grow downwards. */
  datatype Pixel = Pixel(x: int, y: int, color: Color)

  /** Direction-pointer values: 0 right, 1 down, 2 left, 3 up. */
  predicate IsDirection(d: int) { 0 <= d < 4 }

  /** Codel-chooser values: 0 left, 1 right. */
  predicate IsChooser(c: int) { 0 <= c < 2 }

  /** How far the point (x, y) lies in direction `d`. */
  function Along(d: int, x: int, y: int): int
    requires IsDirection(d)
  {
    if d == 0 then x else if d == 1 then y else if d == 2 then -x else -y
  }

  /**
   * The absolute direction the codel chooser points to: "left" is the
   * direction pointer turned a quarter anticlockwise, "right" a quarter
   * clockwise. Either way it is perpendicular to the direction pointer.
   */
  function ChooserDirection(dp: int, cc: int): (d: int)
    requires IsDirection(dp) && IsChooser(cc)
    ensures IsDirection(d) && d != dp && d != (dp + 2) % 4
  {
    if cc == 0 then (dp + 3) % 4 else (dp + 1) % 4
  }

  /**
   * The coordinates one codel away from (x, y) in direction `dp`: one unit
   * further along `dp`, no change across it.
   */
  function NextCoords(x: int, y: int, dp: int): (r: (int, int))
    requires IsDirection(dp)
    ensures Along(dp, r.0, r.1) == Along(dp, x, y) + 1
    ensures forall d :: IsDirection(d) && d != dp && d != (dp + 2) % 4 ==>
      Along(d, r.0, r.1) == Along(d, x, y)
  {
    if dp == 0 then (x + 1, y)
    else if dp == 1 then (x, y + 1)
    else if dp == 2 then (x - 1, y)
    else (x, y - 1)
  }

  /** Stepping back in the opposite direction returns to the start. */
  lemma NextCoordsReversible(x: int, y: int, dp: int)
    requires IsDirection(dp)
    ensures NextCoords(NextCoords(x, y, dp).0, NextCoords(x, y, dp).1, (dp + 2) % 4) == (x, y)
  {
  }

  /**
   * (x, y) lies on the line from (sx, sy) along `dp`, no nearer than its
   * start: where a slide in direction `dp` can have got to.
   */
  predicate OnRay(dp: int, sx: int, sy: int, x: int, y: int)
    requires IsDirection(dp)
  {
    Along((dp + 1) % 4, x, y) == Along((dp + 1) % 4, sx, sy) && Along(dp, x, y) >= Along(dp, sx, sy)
  }

  /** One more step along `dp` stays on the ray. */
  lemma OnRayStep(dp: int, sx: int, sy: int, x: int, y: int)
    requires IsDirection(dp) && OnRay(dp, sx, sy, x, y)
    ensures OnRay(dp, sx, sy, NextCoords(x, y, dp).0, NextCoords(x, y, dp).1)
  {
    var d := (dp + 1) % 4;
    assert IsDirection(d) && d != dp && d != (dp + 2) % 4;
  }
  /** A place on the ray is fixed by how far along dp it lies. */
  lemma OnRayUnique(dp: int, sx: int, sy: int, x1: int, y1: int, x2: int, y2: int)
    requires IsDirection(dp) && OnRay(dp, sx, sy, x1, y1) && OnRay(dp, sx, sy, x2, y2)
    requires Along(dp, x1, y1) == Along(dp, x2, y2)
    ensures x1 == x2 && y1 == y2
  {
  }


  /**
   * A codel at (qx, qy) ranks no higher than `e` as the exit of a block for
   * (dp, cc): it lies less far along the direction pointer, or as far and no
   * further along the direction the chooser points to.
   */
  predicate RanksAtMost(dp: int, cc: int, qx: int, qy: int, e: Pixel)
    requires IsDirection(dp) && IsChooser(cc)
  {
    var c := ChooserDirection(dp, cc);
    Along(dp, qx, qy) < Along(dp, e.x, e.y) ||
    (Along(dp, qx, qy) == Along(dp, e.x, e.y) && Along(c, qx, qy) <= Along(c, e.x, e.y))
  }

  /**
   * The eight exit rules written out: the extreme coordinate along the
   * direction pointer first, the tie broken across it.
   */
  lemma ExitRules(qx: int, qy: int, e: Pixel)
    ensures RanksAtMost(0, 0, qx, qy, e) <==> qx < e.x || (qx == e.x && qy >= e.y)
    ensures RanksAtMost(0, 1, qx, qy, e) <==> qx < e.x || (qx == e.x && qy <= e.y)
    ensures RanksAtMost(1, 0, qx, qy, e) <==> qy < e.y || (qy == e.y && qx <= e.x)
    ensures RanksAtMost(1, 1, qx, qy, e) <==> qy < e.y || (qy == e.y && qx >= e.x)
    ensures RanksAtMost(2, 0, qx, qy, e) <==> qx > e.x || (qx == e.x && qy <= e.y)
    ensures RanksAtMost(2, 1, qx, qy, e) <==> qx > e.x || (qx == e.x && qy >= e.y)
    ensures RanksAtMost(3, 0, qx, qy, e) <==> qy > e.y || (qy == e.y && qx >= e.x)
    ensures RanksAtMost(3, 1, qx, qy, e) <==> qy > e.y || (qy == e.y && qx <= e.x)
  {
  }

  /** Two codels that each rank no higher than the other sit at the same place. */
  lemma RanksAtMostAntisymmetric(dp: int, cc: int, a: Pixel, b: Pixel)
    requires IsDirection(dp) && IsChooser(cc)
    requires RanksAtMost(dp, cc, a.x, a.y, b) && RanksAtMost(dp, cc, b.x, b.y, a)
    ensures a.x == b.x && a.y == b.y
  {
  }
}
