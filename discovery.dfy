/**
 * What `find_color_blocks` computes, stated over the program image: the
 * `neighbours` query, the labelling of codels into colour blocks (the
 * union-find the code calls is not part of this model; `Unioned` stands in
 * for it), and each block's codels in the raster order the second pass
 * visits them.
 */
module Discovery {
  import opened Colors
  import opened Codels
  import opened Boundary

  /** The program image as the interpreter holds it: `g[x][y]` is the codel at column x, row y. */
  type Grid = seq<seq<Pixel>>

  /** A place in the image, (x, y). */
  type Coord = (int, int)

  /** The `set_label` of every labelled codel, by place. */
  type Labels = map<Coord, int>

  /** A non-empty rectangular image whose codels know their own places. */
  predicate GridOk(g: Grid) {
    |g| > 0 && |g[0]| > 0 &&
    (forall x :: 0 <= x < |g| ==> |g[x]| == |g[0]|) &&
    (forall x, y :: 0 <= x < |g| && 0 <= y < |g[0]| ==> g[x][y].x == x && g[x][y].y == y)
  }

  predicate InGrid(g: Grid, x: int, y: int)
    requires |g| > 0
  {
    0 <= x < |g| && 0 <= y < |g[0]|
  }

  /**
   * `is_background`: white and black codels belong to no colour block; a
   * codel is background exactly when it has none of the 18 hue/lightness
   * colours.
   */
  function IsBackground(c: Color): (b: bool)
    ensures b <==> !c.Hued?
  {
    IsWhite(c) || IsBlack(c)
  }

  /** The codel `g` holds at (x, y), with the right to index it. */
  predicate IsGridPixel(g: Grid, p: Pixel)
    requires GridOk(g)
  {
    InGrid(g, p.x, p.y) && g[p.x][p.y] == p
  }

  /**
   * `neighbours`: the codel above and the codel to the left, in that order,
   * each only when it exists and has the same colour.
   */
  function Neighbours(g: Grid, p: Pixel): (r: seq<Pixel>)
    requires GridOk(g) && IsGridPixel(g, p)
    ensures |r| <= 2
    ensures forall n :: n in r ==>
      n.color == p.color && IsGridPixel(g, n) &&
      ((n.x == p.x && n.y == p.y - 1) || (n.x == p.x - 1 && n.y == p.y))
    ensures p.y > 0 ==> (g[p.x][p.y - 1] in r <==> g[p.x][p.y - 1].color == p.color)
    ensures p.x > 0 ==> (g[p.x - 1][p.y] in r <==> g[p.x - 1][p.y].color == p.color)
  {
    var x, y := p.x, p.y;
    var up := if y != 0 && g[x][y - 1].color == p.color then [g[x][y - 1]] else [];
    var left := if x != 0 && g[x - 1][y].color == p.color then [g[x - 1][y]] else [];
    up + left
  }

  /** `c` comes before (x, y) in a raster scan. */
  predicate Before(c: Coord, x: int, y: int) {
    c.1 < y || (c.1 == y && c.0 < x)
  }

  /** The two places share an edge. */
  predicate Adjacent(a: Coord, b: Coord) {
    (a.0 == b.0 && (a.1 == b.1 + 1 || b.1 == a.1 + 1)) ||
    (a.1 == b.1 && (a.0 == b.0 + 1 || b.0 == a.0 + 1))
  }

  /** The wall test of `move_out_of_block`: (x, y) lies on the image edge `dp` faces. */
  predicate AtWall(g: Grid, x: int, y: int, dp: int)
    requires |g| > 0
  {
    (dp == 0 && x >= |g| - 1) || (dp == 1 && y >= |g[0]| - 1) || (dp == 2 && x <= 0) || (dp == 3 && y <= 0)
  }

  /** From inside the image, the wall test fails exactly when the next codel is inside too. */
  lemma WallCheck(g: Grid, x: int, y: int, dp: int)
    requires |g| > 0 && InGrid(g, x, y) && IsDirection(dp)
    ensures AtWall(g, x, y, dp) <==> !InGrid(g, NextCoords(x, y, dp).0, NextCoords(x, y, dp).1)
  {
  }

  /**
   * A white slide along dp from (sx, sy) that has reached (x, y): (x, y) is
   * in the image on the ray from (sx, sy), and every codel of the image on
   * the ray up to (x, y) is white.
   */
  ghost predicate SlidOver(g: Grid, dp: int, sx: int, sy: int, x: int, y: int)
    requires GridOk(g) && IsDirection(dp)
  {
    InGrid(g, x, y) && OnRay(dp, sx, sy, x, y) &&
    forall a, b :: InGrid(g, a, b) && OnRay(dp, sx, sy, a, b) && Along(dp, a, b) <= Along(dp, x, y) ==>
      IsWhite(g[a][b].color)
  }

  /** A slide starts on its white starting codel. */
  lemma SlidOverStart(g: Grid, dp: int, x: int, y: int)
    requires GridOk(g) && IsDirection(dp) && InGrid(g, x, y) && IsWhite(g[x][y].color)
    ensures SlidOver(g, dp, x, y, x, y)
  {
    forall a, b | InGrid(g, a, b) && OnRay(dp, x, y, a, b) && Along(dp, a, b) <= Along(dp, x, y)
      ensures IsWhite(g[a][b].color)
    {
      OnRayUnique(dp, x, y, a, b, x, y);
    }
  }

  /** A slide extends over the next codel along dp when that codel is white. */
  lemma SlidOverStep(g: Grid, dp: int, sx: int, sy: int, x: int, y: int)
    requires GridOk(g) && IsDirection(dp) && SlidOver(g, dp, sx, sy, x, y)
    requires var (nx, ny) := NextCoords(x, y, dp); InGrid(g, nx, ny) && IsWhite(g[nx][ny].color)
    ensures var (nx, ny) := NextCoords(x, y, dp); SlidOver(g, dp, sx, sy, nx, ny)
  {
    var (nx, ny) := NextCoords(x, y, dp);
    OnRayStep(dp, sx, sy, x, y);
    forall a, b | InGrid(g, a, b) && OnRay(dp, sx, sy, a, b) && Along(dp, a, b) <= Along(dp, nx, ny)
      ensures IsWhite(g[a][b].color)
    {
      if Along(dp, a, b) == Along(dp, nx, ny) {
        OnRayUnique(dp, sx, sy, a, b, nx, ny);
      }
    }
  }

  /** The slide cannot go on from (x, y): the next codel along dp is off the image or not white. */
  predicate SlideStops(g: Grid, dp: int, x: int, y: int)
    requires GridOk(g) && IsDirection(dp)
  {
    var (nx, ny) := NextCoords(x, y, dp);
    !InGrid(g, nx, ny) || !IsWhite(g[nx][ny].color)
  }

  /**
   * A white slide has one stopping place: two slides from the same start
   * along the same dp that both cannot go on end on the same codel, the
   * first codel before a non-white one or the edge.
   */
  lemma SlideStopIsUnique(g: Grid, dp: int, sx: int, sy: int, x1: int, y1: int, x2: int, y2: int)
    requires GridOk(g) && IsDirection(dp)
    requires SlidOver(g, dp, sx, sy, x1, y1) && SlideStops(g, dp, x1, y1)
    requires SlidOver(g, dp, sx, sy, x2, y2) && SlideStops(g, dp, x2, y2)
    ensures x1 == x2 && y1 == y2
  {
    if Along(dp, x1, y1) < Along(dp, x2, y2) {
      SlideStopPrecedes(g, dp, sx, sy, x1, y1, x2, y2);
    } else if Along(dp, x2, y2) < Along(dp, x1, y1) {
      SlideStopPrecedes(g, dp, sx, sy, x2, y2, x1, y1);
    } else {
      OnRayUnique(dp, sx, sy, x1, y1, x2, y2);
    }
  }

  /** A slide that stops at (x1, y1) never reaches further along dp. */
  lemma SlideStopPrecedes(g: Grid, dp: int, sx: int, sy: int, x1: int, y1: int, x2: int, y2: int)
    requires GridOk(g) && IsDirection(dp)
    requires SlidOver(g, dp, sx, sy, x1, y1) && SlideStops(g, dp, x1, y1)
    requires SlidOver(g, dp, sx, sy, x2, y2)
    ensures Along(dp, x2, y2) <= Along(dp, x1, y1)
  {
    var (nx, ny) := NextCoords(x1, y1, dp);
    OnRayStep(dp, sx, sy, x1, y1);
    assert Along(dp, x1, y1) < Along(dp, x2, y2) ==> InGrid(g, nx, ny);
  }

  /** Exactly the coloured codels scanned before (x, y) carry a label. */
  ghost predicate Covered(g: Grid, labels: Labels, x: int, y: int)
    requires GridOk(g)
  {
    (forall c :: c in labels ==>
      InGrid(g, c.0, c.1) && Before(c, x, y) && !IsBackground(g[c.0][c.1].color)) &&
    (forall cx, cy :: InGrid(g, cx, cy) && Before((cx, cy), x, y) && !IsBackground(g[cx][cy].color) ==>
      (cx, cy) in labels)
  }

  /** Labels are drawn from 0 up to (not including) `next`. */
  ghost predicate LabelsBelow(labels: Labels, next: int) {
    forall c :: c in labels ==> 0 <= labels[c] < next
  }

  /** Labelled codels that carry the same label have the same colour. */
  ghost predicate Uniform(g: Grid, labels: Labels)
    requires GridOk(g)
  {
    forall c, d ::
      (c in labels && d in labels && InGrid(g, c.0, c.1) && InGrid(g, d.0, d.1) && labels[c] == labels[d]) ==>
        g[c.0][c.1].color == g[d.0][d.1].color
  }

  /** Labelled codels of one colour that share an edge carry the same label. */
  ghost predicate Joined(g: Grid, labels: Labels)
    requires GridOk(g)
  {
    forall a, b ::
      (a in labels && b in labels && InGrid(g, a.0, a.1) && InGrid(g, b.0, b.1) &&
       Adjacent(a, b) && g[a.0][a.1].color == g[b.0][b.1].color) ==> labels[a] == labels[b]
  }

  /** `Joined`, except possibly for the pairs involving `c`. */
  ghost predicate JoinedExcept(g: Grid, labels: Labels, c: Coord)
    requires GridOk(g)
  {
    forall a, b ::
      (a in labels && b in labels && a != c && b != c &&
       InGrid(g, a.0, a.1) && InGrid(g, b.0, b.1) &&
       Adjacent(a, b) && g[a.0][a.1].color == g[b.0][b.1].color) ==> labels[a] == labels[b]
  }

  /** Every codel labelled `from` relabelled `to`. */
  function Relabelled(labels: Labels, from: int, to: int): (r: Labels)
    ensures r.Keys == labels.Keys
  {
    map c | c in labels :: if labels[c] == from then to else labels[c]
  }

  /**
   * `unionfind.union(n, pixel)`, as a labelling: an unlabelled `b` joins
   * `a`'s block; a labelled one brings its whole block into `a`'s. Every
   * other codel keeps its label.
   */
  function Unioned(labels: Labels, a: Coord, b: Coord): (r: Labels)
    requires a in labels && a != b
    ensures r.Keys == labels.Keys + {b}
    ensures r[a] == r[b] == labels[a]
    ensures forall c :: c in labels && b in labels && labels[c] == labels[b] ==> r[c] == labels[a]
    ensures forall c :: c in labels && c != b && (b !in labels || labels[c] != labels[b]) ==> r[c] == labels[c]
    ensures forall c, d :: c in labels && d in labels && labels[c] == labels[d] ==> r[c] == r[d]
    ensures forall c :: c in r ==> r[c] == labels[a] || (c in labels && r[c] == labels[c])
  {
    if b !in labels then labels[b := labels[a]]
    else Relabelled(labels, labels[b], labels[a])
  }

  /**
   * One union keeps the labelling joined away from `b` and keeps the labels
   * below `next`: it only ever merges two whole blocks.
   */
  lemma UnionedKeeps(g: Grid, labels: Labels, a: Coord, b: Coord, next: int)
    requires GridOk(g) && a in labels && a != b
    requires JoinedExcept(g, labels, b) && LabelsBelow(labels, next)
    ensures JoinedExcept(g, Unioned(labels, a, b), b) && LabelsBelow(Unioned(labels, a, b), next)
  {
  }

  /**
   * A union of two codels of one colour keeps every label to one colour:
   * the codels that take `a`'s label are `b` and the codels of `b`'s block,
   * all of `b`'s colour.
   */
  lemma UnionedUniform(g: Grid, labels: Labels, a: Coord, b: Coord)
    requires GridOk(g) && a in labels && a != b && Uniform(g, labels)
    requires InGrid(g, a.0, a.1) && InGrid(g, b.0, b.1) && g[a.0][a.1].color == g[b.0][b.1].color
    ensures Uniform(g, Unioned(labels, a, b))
  {
    var r := Unioned(labels, a, b);
    forall c | c in r && InGrid(g, c.0, c.1)
      ensures (r[c] == labels[a] && g[c.0][c.1].color == g[a.0][a.1].color) || (c in labels && r[c] == labels[c])
    {
      if c != b && b in labels && labels[c] == labels[b] {
        assert g[c.0][c.1].color == g[b.0][b.1].color;
      }
    }
  }

  /** The labels of the blocks the codels `ns` belong to. */
  function BlockLabels(labels: Labels, ns: seq<Pixel>): set<int> {
    set n | n in ns && (n.x, n.y) in labels :: labels[(n.x, n.y)]
  }

  /**
   * Pass 1 has united the codel at (x, y) with its first `i` neighbours
   * `ns`: only (x, y) may have joined the labelled codels `labels0`, the
   * labelling is joined away from (x, y), and each of those neighbours
   * now shares its label. Every label is an old one or the old label of
   * a neighbour's block, and a codel outside the neighbours' blocks keeps
   * its label.
   */
  ghost predicate UnitedUpTo(g: Grid, labels0: Labels, labels: Labels, ns: seq<Pixel>, i: int, x: int, y: int, next: int)
    requires GridOk(g)
  {
    0 <= i <= |ns| &&
    labels0.Keys <= labels.Keys <= labels0.Keys + {(x, y)} && (i > 0 ==> (x, y) in labels) &&
    JoinedExcept(g, labels, (x, y)) && LabelsBelow(labels, next) && Uniform(g, labels) &&
    (forall c :: c in labels ==> (c in labels0 && labels[c] == labels0[c]) || labels[c] in BlockLabels(labels0, ns)) &&
    (forall c :: c in labels0 && labels0[c] !in BlockLabels(labels0, ns) ==> labels[c] == labels0[c]) &&
    forall j :: 0 <= j < i ==>
      (ns[j].x, ns[j].y) in labels && labels[(ns[j].x, ns[j].y)] == labels[(x, y)]
  }

  /** The union with neighbour `i` of the codel at (x, y) unites one more neighbour. */
  lemma UnitedStep(g: Grid, labels0: Labels, labels: Labels, ns: seq<Pixel>, i: int, x: int, y: int, next: int)
    requires GridOk(g) && InGrid(g, x, y) && !IsBackground(g[x][y].color) && Covered(g, labels0, x, y)
    requires ns == Neighbours(g, g[x][y]) && UnitedUpTo(g, labels0, labels, ns, i, x, y, next) && i < |ns|
    ensures (ns[i].x, ns[i].y) in labels && (ns[i].x, ns[i].y) != (x, y)
    ensures UnitedUpTo(g, labels0, Unioned(labels, (ns[i].x, ns[i].y), (x, y)), ns, i + 1, x, y, next)
  {
    var n := ns[i];
    assert n in ns;
    assert (n.x, n.y) in labels0 && (n.x, n.y) != (x, y);
    assert labels0[(n.x, n.y)] in BlockLabels(labels0, ns);
    UnionedKeeps(g, labels, (n.x, n.y), (x, y), next);
    UnionedUniform(g, labels, (n.x, n.y), (x, y));
  }

  /**
   * The codels labelled `l` that a raster scan meets before (x, y), in the
   * order it meets them.
   */
  function Seen(g: Grid, labels: Labels, l: int, x: int, y: int): seq<Pixel>
    requires GridOk(g) && 0 <= x <= |g| && 0 <= y <= |g[0]| && (y == |g[0]| ==> x == 0)
    decreases y, x
  {
    if x == 0 then
      if y == 0 then [] else Seen(g, labels, l, |g|, y - 1)
    else
      var c := (x - 1, y);
      Seen(g, labels, l, x - 1, y) + (if c in labels && labels[c] == l then [g[x - 1][y]] else [])
  }

  /**
   * The scan up to (x, y) meets, in raster order, exactly the codels before
   * (x, y) that carry label `l`.
   */
  lemma {:induction false} SeenIsScan(g: Grid, labels: Labels, l: int, x: int, y: int)
    requires GridOk(g) && 0 <= x <= |g| && 0 <= y <= |g[0]| && (y == |g[0]| ==> x == 0)
    ensures RowMajor(Seen(g, labels, l, x, y))
    ensures forall p :: p in Seen(g, labels, l, x, y) <==>
      IsGridPixel(g, p) && Before((p.x, p.y), x, y) && (p.x, p.y) in labels && labels[(p.x, p.y)] == l
    decreases y, x
  {
    if x == 0 {
      if y > 0 {
        SeenIsScan(g, labels, l, |g|, y - 1);
      }
    } else {
      SeenIsScan(g, labels, l, x - 1, y);
      var s, c := Seen(g, labels, l, x - 1, y), (x - 1, y);
      if c in labels && labels[c] == l {
        var p := g[x - 1][y];
        assert p.x == x - 1 && p.y == y;
        forall q | q in s
          ensures ScannedBefore(q, p)
        {
        }
        RowMajorSnoc(s, p);
        assert Seen(g, labels, l, x, y) == s + [p];
      } else {
        assert Seen(g, labels, l, x, y) == s;
      }
    }
  }

  /** A codel scanned after all of a raster-ordered list extends it in raster order. */
  lemma RowMajorSnoc(ps: seq<Pixel>, p: Pixel)
    requires RowMajor(ps) && forall q :: q in ps ==> ScannedBefore(q, p)
    ensures RowMajor(ps + [p])
  {
    forall i, j | 0 <= i < j < |ps + [p]|
      ensures ScannedBefore((ps + [p])[i], (ps + [p])[j])
    {
      if j == |ps| {
        assert ps[i] in ps;
      }
    }
  }

  /** All the codels of block `l`, in raster order. */
  function BlockCodels(g: Grid, labels: Labels, l: int): (ps: seq<Pixel>)
    requires GridOk(g)
    ensures RowMajor(ps)
    ensures forall p :: p in ps <==> IsGridPixel(g, p) && (p.x, p.y) in labels && labels[(p.x, p.y)] == l
  {
    SeenIsScan(g, labels, l, 0, |g[0]|);
    Seen(g, labels, l, 0, |g[0]|)
  }

  /** Under a labelling that keeps each label to one colour, a block is all of one colour. */
  lemma BlockIsOneColour(g: Grid, labels: Labels, l: int)
    requires GridOk(g) && Uniform(g, labels)
    ensures var ps := BlockCodels(g, labels, l);
      forall p, q :: p in ps && q in ps ==> p.color == q.color
  {
  }

  /** The number of codels in block `l`: the `set_size` union-find keeps for it. */
  function BlockSize(g: Grid, labels: Labels, l: int): nat
    requires GridOk(g)
  {
    |BlockCodels(g, labels, l)|
  }

  /**
   * Pass 2 has sized the codels before (x, y): exactly the labelled ones,
   * each with its block's codel count.
   */
  ghost predicate SizedUpTo(g: Grid, labels: Labels, sizes: map<Coord, int>, x: int, y: int)
    requires GridOk(g)
  {
    (forall c :: c in sizes <==> c in labels && Before(c, x, y)) &&
    (forall c :: c in sizes ==> sizes[c] == BlockSize(g, labels, labels[c]))
  }

  /**
   * The tables pass 2 has made once it has fed the codels before (x, y)
   * in raster order: each labelled codel is fed to the table of its
   * label, which starts empty the first time the label is met.
   */
  ghost function TablesAt(g: Grid, labels: Labels, x: int, y: int): (tables: map<int, Table>)
    requires GridOk(g) && 0 <= x <= |g| && 0 <= y <= |g[0]| && (y == |g[0]| ==> x == 0)
    ensures forall l :: l in tables ==> Shaped(tables[l])
    decreases y, x
  {
    if x == 0 then
      if y == 0 then map[] else TablesAt(g, labels, |g|, y - 1)
    else
      var tables, c := TablesAt(g, labels, x - 1, y), (x - 1, y);
      if c in labels then
        var l := labels[c];
        tables[l := Updated(if l in tables then tables[l] else EmptyTable(), g[x - 1][y])]
      else
        tables
  }

  /**
   * The table pass 2 has for block `l` when it reaches (x, y) is what the
   * block's codels met so far, fed in raster order, make of an empty
   * table; it has one exactly when it has met one of them.
   */
  lemma {:induction false} TablesAtIsFold(g: Grid, labels: Labels, l: int, x: int, y: int)
    requires GridOk(g) && 0 <= x <= |g| && 0 <= y <= |g[0]| && (y == |g[0]| ==> x == 0)
    ensures var tables, s := TablesAt(g, labels, x, y), Seen(g, labels, l, x, y);
      (l in tables <==> s != []) && (l in tables ==> tables[l] == Fold(s))
    decreases y, x
  {
    if x == 0 {
      if y > 0 {
        TablesAtIsFold(g, labels, l, |g|, y - 1);
      }
    } else {
      TablesAtIsFold(g, labels, l, x - 1, y);
      var s, c := Seen(g, labels, l, x - 1, y), (x - 1, y);
      SeenNextCodel(g, labels, l, x - 1, y);
      if c in labels && labels[c] == l {
        FoldSnoc(s, g[x - 1][y]);
      } else {
        assert s + [] == s;
      }
    }
  }

  /** Before pass 2 no codel is sized. */
  lemma SizedStart(g: Grid, labels: Labels)
    requires GridOk(g) && Covered(g, labels, 0, |g[0]|)
    ensures SizedUpTo(g, labels, map[], 0, 0)
  {
  }

  /** Before pass 2 there are no tables. */
  lemma TablesAtStart(g: Grid, labels: Labels)
    requires GridOk(g)
    ensures TablesAt(g, labels, 0, 0) == map[]
  {
  }

  /** Pass 2 sizes the codel at (x, y) exactly when it is labelled. */
  lemma SizedCodel(g: Grid, labels: Labels, sizes: map<Coord, int>, x: int, y: int)
    requires GridOk(g) && SizedUpTo(g, labels, sizes, x, y)
    ensures (x, y) !in labels ==> SizedUpTo(g, labels, sizes, x + 1, y)
    ensures (x, y) in labels ==>
      SizedUpTo(g, labels, sizes[(x, y) := BlockSize(g, labels, labels[(x, y)])], x + 1, y)
  {
  }

  /** Pass 2 skips a codel at (x, y) with no label. */
  lemma TablesAtSkip(g: Grid, labels: Labels, x: int, y: int)
    requires GridOk(g) && InGrid(g, x, y) && (x, y) !in labels
    ensures TablesAt(g, labels, x + 1, y) == TablesAt(g, labels, x, y)
  {
  }

  /**
   * Pass 2 feeds a labelled codel at (x, y) to its block's table, which
   * starts empty the first time the block is met.
   */
  lemma TablesAtFeed(g: Grid, labels: Labels, x: int, y: int)
    requires GridOk(g) && InGrid(g, x, y) && (x, y) in labels
    ensures var l, tables := labels[(x, y)], TablesAt(g, labels, x, y);
      var t := if l in tables then tables[l] else EmptyTable();
      Shaped(t) && TablesAt(g, labels, x + 1, y) == tables[l := Updated(t, g[x][y])]
  {
  }

  /** Two maps with the same keys and the same value at each key are equal. */
  lemma SameMaps<K, V>(m: map<K, V>, m': map<K, V>)
    requires forall k :: k in m <==> k in m'
    requires forall k :: k in m ==> m[k] == m'[k]
    ensures m == m'
  {
  }

  /** Updating one key twice keeps only the second value. */
  lemma UpdatedTwice<K, V>(m: map<K, V>, k: K, a: V, b: V)
    ensures m[k := a][k := b] == m[k := b]
  {
    SameMaps(m[k := a][k := b], m[k := b]);
  }

  /**
   * Feeding a codel to the table of `l`, made empty first when `l` has
   * none, is `TablesAtFeed`'s update of the tables.
   */
  lemma FedOnce(t0: map<int, Table>, mid: map<int, Table>, l: int, p: Pixel)
    requires l in t0 ==> mid == t0
    requires l !in t0 ==> mid == t0[l := EmptyTable()]
    requires l in t0 ==> Shaped(t0[l])
    ensures l in mid && Shaped(mid[l])
    ensures var t := if l in t0 then t0[l] else EmptyTable();
      mid[l := Updated(mid[l], p)] == t0[l := Updated(t, p)]
  {
    if l !in t0 {
      UpdatedTwice(t0, l, EmptyTable(), Updated(EmptyTable(), p));
    }
  }

  /** One more codel scanned: it joins the codels seen of its own block only. */
  lemma SeenNextCodel(g: Grid, labels: Labels, l: int, x: int, y: int)
    requires GridOk(g) && InGrid(g, x, y)
    ensures Seen(g, labels, l, x + 1, y) ==
      Seen(g, labels, l, x, y) + (if (x, y) in labels && l == labels[(x, y)] then [g[x][y]] else [])
  {
  }

  /** The end of a row in pass 2 is the start of the next, for the sizes. */
  lemma SizedNextRow(g: Grid, labels: Labels, sizes: map<Coord, int>, y: int)
    requires GridOk(g) && 0 <= y < |g[0]| && Covered(g, labels, 0, |g[0]|)
    requires SizedUpTo(g, labels, sizes, |g|, y)
    ensures SizedUpTo(g, labels, sizes, 0, y + 1)
  {
    forall c | c in labels
      ensures Before(c, |g|, y) <==> Before(c, 0, y + 1)
    {
      assert InGrid(g, c.0, c.1);
    }
  }

  /** The end of a row in pass 2 is the start of the next, for the tables. */
  lemma TablesAtNextRow(g: Grid, labels: Labels, y: int)
    requires GridOk(g) && 0 <= y < |g[0]|
    ensures TablesAt(g, labels, 0, y + 1) == TablesAt(g, labels, |g|, y)
  {
  }

  /** Once the scan is over, a codel is labelled exactly when it is coloured. */
  lemma LabelledIffColoured(g: Grid, labels: Labels, p: Pixel)
    requires GridOk(g) && Covered(g, labels, 0, |g[0]|) && IsGridPixel(g, p)
    ensures (p.x, p.y) in labels <==> !IsBackground(p.color)
  {
  }

  /** Each entry of a block's folded table is an exit codel of that block. */
  lemma TableEntryIsExit(g: Grid, labels: Labels, l: int, dp: int, cc: int)
    requires GridOk(g) && IsDirection(dp) && IsChooser(cc) && BlockCodels(g, labels, l) != []
    ensures var e := Fold(BlockCodels(g, labels, l))[dp][cc];
      e.Some? && IsExitOf(dp, cc, e.value, BlockCodels(g, labels, l)) &&
      IsGridPixel(g, e.value) && (e.value.x, e.value.y) in labels && labels[(e.value.x, e.value.y)] == l
  {
    FoldIsExitTable(BlockCodels(g, labels, l));
  }

  /**
   * Once the whole image is scanned there is a table for exactly the
   * labels that some codel carries, and it is what all of that block's
   * codels make of it.
   */
  lemma TablesAtEnd(g: Grid, labels: Labels, l: int)
    requires GridOk(g)
    ensures var tables := TablesAt(g, labels, 0, |g[0]|);
      (l in tables <==> BlockCodels(g, labels, l) != []) &&
      (l in tables ==> tables[l] == Fold(BlockCodels(g, labels, l)))
    ensures BlockCodels(g, labels, l) != [] ==> exists c :: c in labels && labels[c] == l
  {
    TablesAtIsFold(g, labels, l, 0, |g[0]|);
    var ps := BlockCodels(g, labels, l);
    if ps != [] {
      assert ps[0] in ps;
      assert (ps[0].x, ps[0].y) in labels;
    }
  }

  /** Each labelled codel is one of its block's codels. */
  lemma LabelledInBlock(g: Grid, labels: Labels, c: Coord)
    requires GridOk(g) && Covered(g, labels, 0, |g[0]|) && c in labels
    ensures Before(c, 0, |g[0]|) && g[c.0][c.1] in BlockCodels(g, labels, labels[c])
  {
  }

  /** Finishing a row is starting the next one. */
  lemma RowDone(g: Grid, labels: Labels, y: int)
    requires GridOk(g) && Covered(g, labels, |g|, y)
    ensures Covered(g, labels, 0, y + 1)
  {
  }

  /**
   * Pass 1 on a coloured codel with no same-coloured neighbour above or to
   * the left: giving it the next fresh label keeps the labelling joined.
   */
  lemma FreshLabelKeeps(g: Grid, labels: Labels, x: int, y: int, next: int)
    requires GridOk(g) && InGrid(g, x, y) && Covered(g, labels, x, y) && Joined(g, labels)
    requires LabelsBelow(labels, next) && 0 <= next && Uniform(g, labels)
    requires !IsBackground(g[x][y].color) && Neighbours(g, g[x][y]) == []
    ensures Covered(g, labels[(x, y) := next], x + 1, y)
    ensures Joined(g, labels[(x, y) := next])
    ensures LabelsBelow(labels[(x, y) := next], next + 1)
    ensures Uniform(g, labels[(x, y) := next])
  {
    var c, r := (x, y), labels[(x, y) := next];
    forall a, b | a in r && b in r && InGrid(g, a.0, a.1) && InGrid(g, b.0, b.1) &&
      Adjacent(a, b) && g[a.0][a.1].color == g[b.0][b.1].color
      ensures r[a] == r[b]
    {
      if a == c {
        NoEarlierNeighbour(g, labels, x, y, b);
      } else if b == c {
        NoEarlierNeighbour(g, labels, x, y, a);
      }
    }
  }

  /**
   * A labelled place next to (x, y) is the one above or the one to the left,
   * so with no same-coloured neighbour its colour differs.
   */
  lemma NoEarlierNeighbour(g: Grid, labels: Labels, x: int, y: int, b: Coord)
    requires GridOk(g) && InGrid(g, x, y) && Covered(g, labels, x, y)
    requires Neighbours(g, g[x][y]) == [] && b in labels && Adjacent(b, (x, y))
    ensures g[b.0][b.1].color != g[x][y].color
  {
    EarlierNeighbour(g, labels, x, y, b);
  }

  /** A labelled place next to (x, y) is the one above or the one to the left of it. */
  lemma EarlierNeighbour(g: Grid, labels: Labels, x: int, y: int, b: Coord)
    requires GridOk(g) && InGrid(g, x, y) && Covered(g, labels, x, y)
    requires b in labels && Adjacent(b, (x, y))
    ensures InGrid(g, b.0, b.1)
    ensures (b == (x, y - 1) && y > 0) || (b == (x - 1, y) && x > 0)
    ensures g[b.0][b.1].color == g[x][y].color ==> g[b.0][b.1] in Neighbours(g, g[x][y])
  {
  }

  /**
   * Pass 1 on a coloured codel with same-coloured neighbours, once it has
   * been united with each of them: the labelling is joined again.
   */
  lemma UnionsJoin(g: Grid, labels0: Labels, labels: Labels, x: int, y: int)
    requires GridOk(g) && InGrid(g, x, y) && Covered(g, labels0, x, y)
    requires labels.Keys == labels0.Keys + {(x, y)} && !IsBackground(g[x][y].color)
    requires JoinedExcept(g, labels, (x, y))
    requires forall n :: n in Neighbours(g, g[x][y]) ==> labels[(n.x, n.y)] == labels[(x, y)]
    ensures Covered(g, labels, x + 1, y) && Joined(g, labels)
  {
    var c := (x, y);
    forall a, b | a in labels && b in labels && InGrid(g, a.0, a.1) && InGrid(g, b.0, b.1) &&
      Adjacent(a, b) && g[a.0][a.1].color == g[b.0][b.1].color
      ensures labels[a] == labels[b]
    {
      if a == c {
        EarlierNeighbour(g, labels0, x, y, b);
        assert g[b.0][b.1] in Neighbours(g, g[x][y]);
      } else if b == c {
        EarlierNeighbour(g, labels0, x, y, a);
        assert g[a.0][a.1] in Neighbours(g, g[x][y]);
      }
    }
  }

  /** Feeding one more codel to a block's table. */
  lemma FoldSnoc(ps: seq<Pixel>, p: Pixel)
    ensures Fold(ps + [p]) == Updated(Fold(ps), p)
  {
    assert (ps + [p])[..|ps|] == ps;
  }

  /**
   * The codel one step along the direction pointer from a block's exit codel
   * is never of the block's colour: had it been, the labelling would have
   * joined it to the block, where it would outrank the exit codel.
   */
  lemma NextCodelLeavesBlock(g: Grid, labels: Labels, e: Pixel, dp: int, cc: int)
    requires GridOk(g) && Covered(g, labels, 0, |g[0]|) && Joined(g, labels)
    requires IsDirection(dp) && IsChooser(cc) && (e.x, e.y) in labels
    requires IsExitOf(dp, cc, e, BlockCodels(g, labels, labels[(e.x, e.y)]))
    requires InGrid(g, NextCoords(e.x, e.y, dp).0, NextCoords(e.x, e.y, dp).1)
    ensures g[NextCoords(e.x, e.y, dp).0][NextCoords(e.x, e.y, dp).1].color != e.color
  {
    var l := labels[(e.x, e.y)];
    var n := NextCoords(e.x, e.y, dp);
    var q := g[n.0][n.1];
    assert IsGridPixel(g, e) && IsGridPixel(g, q) && Adjacent((e.x, e.y), n);
    // q lies further along dp than the exit codel, so it is not in the block
    assert !RanksAtMost(dp, cc, q.x, q.y, e);
    assert q !in BlockCodels(g, labels, l);
    assert n !in labels || labels[n] != l;
  }
}
