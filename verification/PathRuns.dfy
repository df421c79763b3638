/**
  Runs of the path operators against pictures: a graphics state is its paths as plain sequences of points, and gsave
  and grestore bracket operators whose effects are forgotten.
 */
module PathRuns {
  import opened PathBoxes
  import opened PathPool
  import opened PathStack

  datatype Op = NewPathOp | MoveToOp(c: Coord) | LineToOp(c: Coord) | CurveToOp(c1: Coord, c2: Coord, c3: Coord)
              | ClosePathOp | ClipOp | SavedOp(ops: seq<Op>)

  function DrawPoint(v: Picture, p: Point): Picture {
    v.(path := AddPoint(v.path, p), cp := p.coord)
  }

  /** What an operator does to a picture when it raises no error. */
  function Draw(v: Picture, op: Op): Picture {
    match op
    case NewPathOp => v.(path := [], cp := ORIGIN)
    case MoveToOp(c) => DrawPoint(v, Point(c, PathStart))
    case LineToOp(c) => DrawPoint(v, Point(c, if v.path == [] then PathStart else PathLineTo))
    case CurveToOp(c1, c2, c3) =>
      DrawPoint(DrawPoint(DrawPoint(v, Point(c1, PathCurveTo)), Point(c2, PathCurveTo)), Point(c3, PathCurveTo))
    case ClosePathOp =>
      if v.path == [] || v.path[|v.path| - 1].tag.PathClose? then v else DrawPoint(v, Point(StartOf(v.path), PathClose))
    case ClipOp => v.(clip := v.path)
    case SavedOp(_) => v
  }

  /** What operators one after the other do to a picture. */
  function DrawAll(v: Picture, ops: seq<Op>): Picture {
    if ops == [] then v else Draw(DrawAll(v, ops[..|ops| - 1]), ops[|ops| - 1])
  }

  /** A curve needs a path to go on from. */
  ghost predicate Works(v: Picture, op: Op)
    decreases op
  {
    match op
    case CurveToOp(_, _, _) => v.path != []
    case SavedOp(ops) => forall i :: 0 <= i < |ops| ==> Works(DrawAll(v, ops[..i]), ops[i])
    case _ => true
  }

  /** How many graphics states a run saves at once, at the most. */
  function Depth(op: Op): nat {
    if op.SavedOp? then 1 + DepthAll(op.ops) else 0
  }

  function DepthAll(ops: seq<Op>): (n: nat)
    ensures forall op :: op in ops ==> Depth(op) <= n
  {
    if ops == [] then 0
    else
      var n := DepthAll(ops[1..]);
      assert forall op :: op in ops ==> op == ops[0] || op in ops[1..];
      if Depth(ops[0]) > n then Depth(ops[0]) else n
  }

  /** An operator other than a bracketed list. */
  method PerformOne(g: Graphics, op: Op) returns (ok: bool)
    requires g.Valid() && !op.SavedOp?
    modifies g
    ensures g.Valid() && |g.gs| == |old(g.gs)|
    ensures g.gs[..|g.gs| - 1] == old(g.gs)[..|g.gs| - 1]
    ensures View(g.Now(), g.shape)[..|g.gs| - 1] == View(old(g.Now()), old(g.shape))[..|g.gs| - 1]
    ensures ok ==> View(g.Now(), g.shape)[|g.gs| - 1] == Draw(View(old(g.Now()), old(g.shape))[|g.gs| - 1], op)
    ensures !ok ==> g.pathChunks == MAX_PATH_CHUNKS || !Works(View(old(g.Now()), old(g.shape))[|g.gs| - 1], op)
    ensures old(g.pathChunks) <= g.pathChunks
  {
    hide Fits, Kept, PointsOf, AddPoint, StartOf, OthersSame, Added, OwnRecord, BoxesOk;
    ghost var s, h := g.Now(), g.shape;
    match op
    case NewPathOp =>
      g.NewPath();
      KeptView(s, h, g.Now(), g.shape, OfPath);
      ok := true;
    case MoveToOp(c) =>
      ok := g.MoveTo(c);
      KeptView(s, h, g.Now(), g.shape, OfPath);
    case LineToOp(c) =>
      ok := g.LineTo(c);
      KeptView(s, h, g.Now(), g.shape, OfPath);
    case CurveToOp(c1, c2, c3) =>
      ok := g.CurveTo(c1, c2, c3);
      KeptView(s, h, g.Now(), g.shape, OfPath);
      CurveDrawn(View(s, h)[|s.gs| - 1], c1, c2, c3);
    case ClosePathOp =>
      ok := g.ClosePath();
      KeptView(s, h, g.Now(), g.shape, OfPath);
    case ClipOp =>
      ok := g.ClipToPath();
      KeptView(s, h, g.Now(), g.shape, OfClip);
  }

  /**
    An operator; a bracketed list of them goes on after errors, as a program that handles them would.  all says that
    there have been none, and inner is the picture just before the grestore.
   */
  method Perform(g: Graphics, op: Op) returns (ok: bool, all: bool, ghost inner: Picture)
    requires g.Valid()
    modifies g
    ensures g.Valid() && |g.gs| == |old(g.gs)|
    ensures g.gs[..|g.gs| - 1] == old(g.gs)[..|g.gs| - 1]
    ensures View(g.Now(), g.shape)[..|g.gs| - 1] == View(old(g.Now()), old(g.shape))[..|g.gs| - 1]
    ensures ok ==> View(g.Now(), g.shape)[|g.gs| - 1] == Draw(View(old(g.Now()), old(g.shape))[|g.gs| - 1], op)
    ensures op.SavedOp? ==> g.gs == old(g.gs) && View(g.Now(), g.shape) == View(old(g.Now()), old(g.shape))
    ensures op.SavedOp? ==> (ok <==> |g.gs| < GS_SAVE_MAX)
    ensures all ==> ok && (op.SavedOp? ==> inner == DrawAll(View(old(g.Now()), old(g.shape))[|g.gs| - 1], op.ops))
    ensures !all ==> || g.pathChunks == MAX_PATH_CHUNKS || |g.gs| + Depth(op) > GS_SAVE_MAX
                     || !Works(View(old(g.Now()), old(g.shape))[|g.gs| - 1], op)
    ensures old(g.pathChunks) <= g.pathChunks
    decreases op
  {
    hide Fits, PointsOf, PictureOf, Draw, DrawAll, Works, Depth;
    inner := View(g.Now(), g.shape)[|g.gs| - 1];
    if !op.SavedOp? {
      ok := PerformOne(g, op);
      all := ok;
      return;
    }
    SavedDraws(op);
    ok := g.GSave();
    all := ok;
    if !ok { return; }
    var top := |g.gs| - 1;
    ghost var saved, view, v := g.gs[..top], View(g.Now(), g.shape)[..top], View(g.Now(), g.shape)[top];
    inner := v;
    assert op.ops[..0] == [] && DrawAll(v, []) == v by { Nothing(v); }
    var i := 0;
    while i < |op.ops|
      invariant 0 <= i <= |op.ops| && g.Valid() && |g.gs| == top + 1 && g.gs[..top] == saved
      invariant View(g.Now(), g.shape)[..top] == view && inner == View(g.Now(), g.shape)[top]
      invariant all ==> inner == DrawAll(v, op.ops[..i])
      invariant !all ==> g.pathChunks == MAX_PATH_CHUNKS || |g.gs| - 1 + Depth(op) > GS_SAVE_MAX || !Works(v, op)
      invariant old(g.pathChunks) <= g.pathChunks <= MAX_PATH_CHUNKS
    {
      OneOf(v, op, i);
      var done, allDone;
      ghost var seen;
      done, allDone, seen := Perform(g, op.ops[i]);
      all := all && allDone;
      inner := View(g.Now(), g.shape)[top];
      i := i + 1;
    }
    assert op.ops[..i] == op.ops;
    ok := g.GRestore();
  }

  lemma Nothing(v: Picture)
    ensures DrawAll(v, []) == v
  {
  }

  lemma SavedDraws(op: Op)
    requires op.SavedOp?
    ensures Depth(op) > 0 && forall w :: Draw(w, op) == w
  {
  }

  /** What one of a list of operators does to the whole. */
  lemma OneOf(v: Picture, op: Op, i: nat)
    requires op.SavedOp? && i < |op.ops|
    ensures DrawAll(v, op.ops[..i + 1]) == Draw(DrawAll(v, op.ops[..i]), op.ops[i])
    ensures Works(v, op) ==> Works(DrawAll(v, op.ops[..i]), op.ops[i])
    ensures Depth(op.ops[i]) < Depth(op)
  {
    assert op.ops[..i + 1][..i] == op.ops[..i];
    assert op.ops[i] in op.ops;
  }

  /** newpath and a moveto while charpath shows a character: the path is secret. */
  method SecretPath(c: Coord) returns (g: Graphics)
    ensures fresh(g) && g.Valid() && |g.gs| == 1 && g.pathChunks <= 1
    ensures g.gs[0].isCharPath && g.gs[0].path.secret
    ensures View(g.Now(), g.shape) == [Picture([Point(c, PathStart)], [], c)]
  {
    hide Fits, BoxesOk, PointsOf, Kept, OthersSame, Boxed, BoxOf;
    g := new Graphics();
    assert View(g.Now(), g.shape)[0] == Picture([], [], ORIGIN);
    g.SetCharPath(true);
    ghost var s, h := g.Now(), g.shape;
    g.NewPath();
    KeptView(s, h, g.Now(), g.shape, OfPath);
    ghost var s1, h1 := g.Now(), g.shape;
    var ok := g.MoveTo(c);
    KeptView(s1, h1, g.Now(), g.shape, OfPath);
    assert View(g.Now(), g.shape)[0] == Picture([Point(c, PathStart)], [], c);
  }

  /** gsave copies the mark of such a path, and the first point after it makes the copy a plain path. */
  method SecretLost(c: Coord, c': Coord) returns (g: Graphics)
    ensures fresh(g) && g.Valid() && |g.gs| == 2 && g.gs[0].isCharPath && g.gs[1].isCharPath
    ensures g.gs[0].path.secret && !g.gs[1].path.secret
    ensures View(g.Now(), g.shape)
            == [Picture([Point(c, PathStart)], [], c), Picture([Point(c', PathStart)], [], c')]
  {
    hide Fits, BoxesOk, PointsOf, Kept, OthersSame, Boxed, BoxOf;
    g := SecretPath(c);
    var ok := g.GSave();
    ghost var s, h := g.Now(), g.shape;
    ghost var v := View(s, h);
    assert v[1] == v[0] == Picture([Point(c, PathStart)], [], c);
    ok := g.MoveTo(c');
    KeptView(s, h, g.Now(), g.shape, OfPath);
    ghost var v' := View(g.Now(), g.shape);
    assert ok;
    assert g.gs[0] == g.gs[..1][0] && v'[0] == v'[..1][0];
    assert v'[1] == Picture([Point(c', PathStart)], [], c');
  }

  lemma KeptView(s: Store, h: Shape, s': Store, h': Shape, kind: Kind)
    requires Kept(s, h, s', h', kind)
    ensures |s.gs| == |h.lists| == |s'.gs| == |h'.lists| >= 1
    ensures s'.gs[..|s.gs| - 1] == s.gs[..|s.gs| - 1]
    ensures View(s', h')[..|s.gs| - 1] == View(s, h)[..|s.gs| - 1]
    ensures var top := |s.gs| - 1;
            if kind.OfPath? then PointsOf(s', h', top, OfClip) == PointsOf(s, h, top, OfClip)
            else PointsOf(s', h', top, OfPath) == PointsOf(s, h, top, OfPath) && s'.gs[top].cp == s.gs[top].cp
    ensures s'.gs[|s.gs| - 1].isCharPath == s.gs[|s.gs| - 1].isCharPath
  {
  }

  lemma CurveDrawn(v: Picture, c1: Coord, c2: Coord, c3: Coord)
    ensures Draw(v, CurveToOp(c1, c2, c3))
            == v.(path := v.path + [Point(c1, PathCurveTo), Point(c2, PathCurveTo), Point(c3, PathCurveTo)], cp := c3)
  {
  }
}
