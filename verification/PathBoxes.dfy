/**
  The bounding box that AddToPath keeps (PostScript/Adobe/path.c:82-106).  It is widened by every point that is added,
  and not narrowed again when a moveto is replaced by the next one.
 */
module PathBoxes {
  import opened PathPool

  /** The box after a point at c has been added to a path with the given points and box. */
  function Boxed(b: BBox, points: seq<Point>, c: Coord): BBox {
    if points == [] then BBox(c, c) else Widened(b, c)
  }

  /** The box that adding the points one after the other comes to. */
  function BoxOf(added: seq<Point>): BBox {
    if added == [] then EMPTY.bbox
    else Boxed(BoxOf(added[..|added| - 1]), added[..|added| - 1], added[|added| - 1].coord)
  }

  /** The path that it comes to. */
  function PathOf(added: seq<Point>): seq<Point> {
    if added == [] then [] else AddPoint(PathOf(added[..|added| - 1]), added[|added| - 1])
  }

  ghost predicate EnclosesAll(b: BBox, points: seq<Point>) {
    forall p :: p in points ==> Encloses(b, p.coord)
  }

  predicate Within(b: BBox, c: BBox) {
    c.bl.x <= b.bl.x && c.bl.y <= b.bl.y && b.tr.x <= c.tr.x && b.tr.y <= c.tr.y
  }

  /** BoxOf is the smallest box around the points. */
  lemma {:induction false} BoxIsLeast(points: seq<Point>)
    requires points != []
    ensures EnclosesAll(BoxOf(points), points)
    ensures forall b: BBox :: EnclosesAll(b, points) ==> Within(BoxOf(points), b)
    ensures BoxOf(points).bl.x <= BoxOf(points).tr.x && BoxOf(points).bl.y <= BoxOf(points).tr.y
  {
    var n := |points| - 1;
    assert points[n] in points;
    if n > 0 {
      BoxIsLeast(points[..n]);
      assert points == points[..n] + [points[n]];
      assert forall b: BBox :: EnclosesAll(b, points) ==> EnclosesAll(b, points[..n]);
    }
  }

  lemma {:induction false} PathOfAdded(added: seq<Point>)
    ensures forall p :: p in PathOf(added) ==> p in added
    ensures added != [] ==> PathOf(added) != [] && PathOf(added)[|PathOf(added)| - 1] == added[|added| - 1]
  {
    if added != [] {
      var front, last := added[..|added| - 1], added[|added| - 1];
      PathOfAdded(front);
      assert added == front + [last];
      forall p | p in PathOf(added) ensures p in added {
        assert p in PathOf(front) || p == last;
      }
    }
  }

  /**
    After any points have been added to an empty path, its box is the smallest one around the points that are left if
    and only if none of those that were replaced lies outside that box.
   */
  lemma TightIff(added: seq<Point>)
    requires added != []
    ensures PathOf(added) != []
    ensures BoxOf(added) == BoxOf(PathOf(added)) <==> EnclosesAll(BoxOf(PathOf(added)), added)
  {
    PathOfAdded(added);
    BoxIsLeast(added);
    BoxIsLeast(PathOf(added));
    if EnclosesAll(BoxOf(PathOf(added)), added) {
      assert Within(BoxOf(added), BoxOf(PathOf(added)));
      assert EnclosesAll(BoxOf(added), PathOf(added));
    }
  }

  /** The points and the box of a path come from some points that were added to an empty one. */
  ghost predicate ComesFrom(points: seq<Point>, b: BBox) {
    exists added :: PathOf(added) == points && BoxOf(added) == b
  }

  /** Adding a point to such a path gives such a path. */
  lemma StillComesFrom(points: seq<Point>, b: BBox, p: Point)
    requires ComesFrom(points, b)
    ensures ComesFrom(AddPoint(points, p), Boxed(b, points, p.coord))
  {
    var added :| PathOf(added) == points && BoxOf(added) == b;
    var more := added + [p];
    assert more[..|more| - 1] == added;
    PathOfAdded(added);
    assert PathOf(more) == AddPoint(points, p) && BoxOf(more) == Boxed(b, points, p.coord);
  }

  /** Every path and its box come from points that were added. */
  ghost predicate BoxesOk(s: Store, h: Shape) {
    |s.gs| == |h.lists|
    && forall l, k :: 0 <= l < |s.gs| ==> ComesFrom(PointsOf(s, h, l, k), Of(s.gs[l], k).bbox)
  }

  lemma EmptyComesFrom()
    ensures ComesFrom([], EMPTY.bbox)
  {
    assert PathOf([]) == [] && BoxOf([]) == EMPTY.bbox;
  }

  /** Two movetos: the path is the second one, and the box still reaches to the first. */
  lemma ReplacedMoveTo()
    ensures var p, q := Point(Coord(0.0, 0.0), PathStart), Point(Coord(1.0, 1.0), PathStart);
            PathOf([p, q]) == [q] && BoxOf([p, q]) == BBox(p.coord, q.coord) && BoxOf([q]) == BBox(q.coord, q.coord)
  {
    var p, q := Point(Coord(0.0, 0.0), PathStart), Point(Coord(1.0, 1.0), PathStart);
    assert [p, q][..1] == [p];
    assert PathOf([p]) == [p] && BoxOf([p]) == BBox(p.coord, p.coord);
  }
}
