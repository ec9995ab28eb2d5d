/**
 * The per-block exit-codel table (`ColorBlock.boundary_pixels`) and its
 * incremental maintenance (`ColorBlock.update_boundaries`). Entry [dp][cc]
 * is the codel execution leaves the block from when the direction pointer
 * is `dp` and the codel chooser is `cc`.
 */
module Boundary {
  import opened Options
  import opened Colors
  import opened Codels

  /** Four rows (one per direction pointer) of two entries (one per chooser). */
  type Table = seq<seq<Option<Pixel>>>

  predicate Shaped(t: Table) {
    |t| == 4 && forall dp :: 0 <= dp < 4 ==> |t[dp]| == 2
  }

  function EmptyTable(): (t: Table)
    ensures Shaped(t)
  {
    [[None, None], [None, None], [None, None], [None, None]]
  }

  /**
   * Whether `update_boundaries` overwrites entry [dp][cc] with `p`. An empty
   * entry is always filled; otherwise each entry has its own comparison, some
   * strict and some not, and entry [3][0] is never replaced once set.
   */
  predicate Replaces(dp: int, cc: int, entry: Option<Pixel>, p: Pixel)
    requires IsDirection(dp) && IsChooser(cc)
  {
    entry.None? ||
    var e := entry.value;
    if dp == 0 then (if cc == 0 then p.x > e.x else p.x >= e.x)
    else if dp == 1 then (if cc == 0 then p.y >= e.y else p.y > e.y)
    else if dp == 2 then (if cc == 0 then p.x <= e.x else p.x < e.x)
    else (if cc == 0 then false else p.y == e.y)
  }

  function Cell(t: Table, dp: int, cc: int, p: Pixel): Option<Pixel>
    requires Shaped(t) && IsDirection(dp) && IsChooser(cc)
  {
    if Replaces(dp, cc, t[dp][cc], p) then Some(p) else t[dp][cc]
  }

  /** The table after `update_boundaries` has seen codel `p`. */
  function Updated(t: Table, p: Pixel): (r: Table)
    requires Shaped(t)
    ensures Shaped(r)
    ensures forall dp, cc :: IsDirection(dp) && IsChooser(cc) ==> r[dp][cc] == Cell(t, dp, cc, p)
  {
    [[Cell(t, 0, 0, p), Cell(t, 0, 1, p)],
     [Cell(t, 1, 0, p), Cell(t, 1, 1, p)],
     [Cell(t, 2, 0, p), Cell(t, 2, 1, p)],
     [Cell(t, 3, 0, p), Cell(t, 3, 1, p)]]
  }

  /** The table after the codels `ps` have been fed in, in order, to a fresh block. */
  function Fold(ps: seq<Pixel>): (t: Table)
    ensures Shaped(t)
    decreases |ps|
  {
    if ps == [] then EmptyTable() else Updated(Fold(ps[..|ps| - 1]), ps[|ps| - 1])
  }

  /** `a` comes strictly before `b` in a raster scan (row by row, left to right). */
  predicate ScannedBefore(a: Pixel, b: Pixel) {
    a.y < b.y || (a.y == b.y && a.x < b.x)
  }

  /** The codels `ps` appear in raster-scan order, each place once. */
  predicate RowMajor(ps: seq<Pixel>) {
    forall i, j :: 0 <= i < j < |ps| ==> ScannedBefore(ps[i], ps[j])
  }

  /** `e` is one of `ps` and no codel of `ps` outranks it for (dp, cc). */
  predicate IsExitOf(dp: int, cc: int, e: Pixel, ps: seq<Pixel>)
    requires IsDirection(dp) && IsChooser(cc)
  {
    e in ps && forall q :: q in ps ==> RanksAtMost(dp, cc, q.x, q.y, e)
  }

  /** Every entry of `t` is filled with an exit codel of `ps`. */
  ghost predicate IsExitTable(t: Table, ps: seq<Pixel>) {
    Shaped(t) &&
    forall dp, cc :: IsDirection(dp) && IsChooser(cc) ==>
      t[dp][cc].Some? && IsExitOf(dp, cc, t[dp][cc].value, ps)
  }

  /**
   * One update keeps an entry correct when the new codel comes after all
   * earlier ones in raster order: this is where the mix of strict and
   * non-strict comparisons gives exactly the right tie-breaks.
   */
  lemma UpdatedKeepsExit(t: Table, ps: seq<Pixel>, p: Pixel, dp: int, cc: int)
    requires Shaped(t) && IsDirection(dp) && IsChooser(cc)
    requires t[dp][cc].Some? && IsExitOf(dp, cc, t[dp][cc].value, ps)
    requires forall q :: q in ps ==> ScannedBefore(q, p)
    ensures Cell(t, dp, cc, p).Some? && IsExitOf(dp, cc, Cell(t, dp, cc, p).value, ps + [p])
  {
    var e := t[dp][cc].value;
    assert ScannedBefore(e, p);
    var r := Cell(t, dp, cc, p).value;
    forall q | q in ps + [p]
      ensures RanksAtMost(dp, cc, q.x, q.y, r)
    {
      if q in ps {
        assert RanksAtMost(dp, cc, q.x, q.y, e) && ScannedBefore(q, p);
      }
    }
  }

  /**
   * Feeding a block's codels in raster order fills every entry with that
   * block's exit codel for the entry's (dp, cc).
   */
  lemma {:induction false} FoldIsExitTable(ps: seq<Pixel>)
    requires RowMajor(ps) && ps != []
    ensures IsExitTable(Fold(ps), ps)
  {
    var init, p := ps[..|ps| - 1], ps[|ps| - 1];
    assert ps == init + [p];
    forall q | q in init
      ensures ScannedBefore(q, p)
    {
      var i :| 0 <= i < |init| && init[i] == q;
    }
    if init == [] {
      forall dp, cc | IsDirection(dp) && IsChooser(cc)
        ensures Fold(ps)[dp][cc] == Some(p)
      {
      }
    } else {
      FoldIsExitTable(init);
      forall dp, cc | IsDirection(dp) && IsChooser(cc)
        ensures Fold(ps)[dp][cc].Some? && IsExitOf(dp, cc, Fold(ps)[dp][cc].value, ps)
      {
        UpdatedKeepsExit(Fold(init), init, p, dp, cc);
      }
    }
  }

  /**
   * The incrementally built entry agrees with a brute-force search: any
   * codel of the block that no other codel outranks is the entry itself.
   */
  lemma ExitIsUnique(dp: int, cc: int, e: Pixel, e': Pixel, ps: seq<Pixel>)
    requires IsDirection(dp) && IsChooser(cc) && RowMajor(ps)
    requires IsExitOf(dp, cc, e, ps) && IsExitOf(dp, cc, e', ps)
    ensures e == e'
  {
    RanksAtMostAntisymmetric(dp, cc, e, e');
    var i :| 0 <= i < |ps| && ps[i] == e;
    var j :| 0 <= j < |ps| && ps[j] == e';
  }

  /** A colour block: its codel count and its exit-codel table. */
  class ColorBlock {
    var size: int
    var boundary_pixels: Table

    constructor (size: int)
      ensures this.size == size && boundary_pixels == EmptyTable()
    {
      this.size := size;
      boundary_pixels := EmptyTable();
    }

    /** Records codel `pixel`, overwriting the entries it now wins. */
    method UpdateBoundaries(pixel: Pixel)
      requires Shaped(boundary_pixels)
      modifies this`boundary_pixels
      ensures boundary_pixels == Updated(old(boundary_pixels), pixel)
    {
      ghost var t := boundary_pixels;
      var bounds := boundary_pixels;
      // One row per direction pointer, holding [cc = left, cc = right].
      var right := bounds[0];
      if right[0].None? || pixel.x > right[0].value.x {
        right := right[0 := Some(pixel)];
      }
      if right[1].None? || pixel.x >= right[1].value.x {
        right := right[1 := Some(pixel)];
      }
      assert right == [Cell(t, 0, 0, pixel), Cell(t, 0, 1, pixel)];
      var down := bounds[1];
      if down[1].None? || pixel.y > down[1].value.y {
        down := down[1 := Some(pixel)];
      }
      if down[0].None? || pixel.y >= down[0].value.y {
        down := down[0 := Some(pixel)];
      }
      assert down == [Cell(t, 1, 0, pixel), Cell(t, 1, 1, pixel)];
      var left := bounds[2];
      if left[1].None? || pixel.x < left[1].value.x {
        left := left[1 := Some(pixel)];
      }
      if left[0].None? || pixel.x <= left[0].value.x {
        left := left[0 := Some(pixel)];
      }
      assert left == [Cell(t, 2, 0, pixel), Cell(t, 2, 1, pixel)];
      var up := bounds[3];
      if up[0].None? {
        up := up[0 := Some(pixel)];
      }
      if up[1].None? || pixel.y == up[1].value.y {
        up := up[1 := Some(pixel)];
      }
      assert up == [Cell(t, 3, 0, pixel), Cell(t, 3, 1, pixel)];
      bounds := [right, down, left, up];
      boundary_pixels := bounds;
    }
  }
}
