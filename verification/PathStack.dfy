/**
  The path operators and gsave and grestore (PostScript/Adobe/path.c, graphics.c) on shared path elements, proved to
  act as if every graphics state had paths of its own.
 */
module PathStack {
  import opened PathBoxes
  import opened PathPool
  import opened Wrappers

  const MAX_PATH_CHUNKS := 64
  const GS_SAVE_MAX := 32

  // ---------------------------------------------------------------- what is shown

  /** The paths of a graphics state as values, and its current point. */
  datatype Picture = Picture(path: seq<Point>, clip: seq<Point>, cp: Coord)

  ghost function PictureOf(s: Store, h: Shape, l: nat): Picture
    requires l < |s.gs| == |h.lists|
  {
    Picture(PointsOf(s, h, l, OfPath), PointsOf(s, h, l, OfClip), s.gs[l].cp)
  }

  ghost function View(s: Store, h: Shape): (v: seq<Picture>)
    requires |s.gs| == |h.lists|
    ensures |v| == |s.gs| && forall l :: 0 <= l < |v| ==> v[l] == PictureOf(s, h, l)
  {
    seq(|s.gs|, l requires 0 <= l < |s.gs| => PictureOf(s, h, l))
  }

  /** Nothing has changed but one path of the top, and the current point of the top if that is its path. */
  ghost predicate Kept(s: Store, h: Shape, s': Store, h': Shape, kind: Kind) {
    && |s.gs| == |h.lists| == |s'.gs| == |h'.lists| >= 1
    && OthersSame(s, h, s', h', kind)
    && (forall l, k :: 0 <= l < |s.gs| && (l != |s.gs| - 1 || k != kind) ==>
          Of(s'.gs[l], k) == Of(s.gs[l], k) && In(h'.lists[l], k) == In(h.lists[l], k))
    && (forall l :: 0 <= l < |s.gs| - 1 ==> s'.gs[l] == s.gs[l])
    && (kind.OfClip? ==> s'.gs[|s.gs| - 1].cp == s.gs[|s.gs| - 1].cp)
    && s'.gs[|s.gs| - 1].isCharPath == s.gs[|s.gs| - 1].isCharPath
  }

  lemma KeptTwice(s: Store, h: Shape, s': Store, h': Shape, s'': Store, h'': Shape, kind: Kind)
    requires Kept(s, h, s', h', kind) && Kept(s', h', s'', h'', kind)
    ensures Kept(s, h, s'', h'', kind)
  {
  }

  /** What adding a point at c to a path of its own does to the rest of its record. */
  ghost predicate Added(p: Path, points: seq<Point>, p': Path, c: Coord) {
    p'.secret == p.secret && p'.bbox == Boxed(p.bbox, points, c)
  }

  /** A copy that becomes a path of its own is no longer secret, and has the box of its points. */
  function OwnRecord(p: Path, points: seq<Point>): Path {
    if p.copy then EMPTY.(bbox := BoxOf(points)) else p
  }

  class Graphics {
    var pathChunks: nat
    var elmts: seq<Elmt>
    var pathFreeList: Option<nat>
    /** The stack of graphics states, top last. */
    var gs: seq<GState>
    ghost var shape: Shape

    function Now(): Store
      reads this
    {
      Store(elmts, pathFreeList, gs)
    }

    ghost predicate Valid()
      reads this
      ensures Valid() ==> |gs| == |shape.lists| >= 1
    {
      && Fits(Now(), shape) && BoxesOk(Now(), shape)
      && |elmts| == pathChunks * PATH_ELMTS_PER_CHUNK && pathChunks <= MAX_PATH_CHUNKS
    }

    constructor ()
      ensures Valid() && View(Now(), shape) == [Picture([], [], ORIGIN)] && pathChunks == 0
      ensures gs == [GState(EMPTY, EMPTY, ORIGIN, false)]
    {
      pathChunks, elmts, pathFreeList := 0, [], None;
      gs := [GState(EMPTY, EMPTY, ORIGIN, false)];
      shape := Shape([], [Nodes([], [])], []);
      EmptyComesFrom();
    }

    /** GetPathStorage with LinkPathFreeList. */
    method GetPathStorage() returns (ok: bool)
      requires Valid() && pathFreeList.None?
      modifies this
      ensures Valid() && gs == old(gs) && (ok <==> old(pathChunks) < MAX_PATH_CHUNKS) && (ok <==> pathFreeList.Some?)
      ensures pathChunks == old(pathChunks) + if ok then 1 else 0
      ensures shape.lists == old(shape).lists
      ensures forall l, k :: 0 <= l < |gs| ==> PointsOf(Now(), shape, l, k) == PointsOf(old(Now()), old(shape), l, k)
    {
      hide Fits, BoxesOk;
      if pathChunks == MAX_PATH_CHUNKS { return false; }
      ghost var s, h := Now(), shape;
      var first := |elmts|;
      pathChunks := pathChunks + 1;
      var el := elmts + seq(PATH_ELMTS_PER_CHUNK, _ => Elmt(ORIGIN, PathStart, None));
      var last := first + PATH_ELMTS_PER_CHUNK - 1;
      var free := last;
      el := el[free := el[free].(next := None)];
      ghost var span := Span(first, last + 1);
      while free != first
        invariant first <= free <= last && |el| == last + 1 && el[..first] == s.elmts
        invariant forall i: nat :: free - first <= i < PATH_ELMTS_PER_CHUNK ==> Link(el, span, i)
        decreases free
        modifies {}
      {
        free := free - 1;
        ghost var was := el;
        el := el[free := el[free].(next := Some(free + 1))];
        LinkKept(was, el, span, free, free - first + 1);
        assert Link(el, span, free - first);
      }
      elmts, pathFreeList := el, Some(free);
      shape := GrownShape(shape, first);
      GrowFits(s, h, Now());
      SameBoxes(s, h, Now(), shape);
      ok := true;
    }

    /** The head of the free list becomes the last element of a path of the top. */
    method TakeElement(kind: Kind, coord: Coord, tag: Tag)
      requires Valid() && !Of(gs[|gs| - 1], kind).copy && pathFreeList.Some?
      requires Formed(PointsOf(Now(), shape, |gs| - 1, kind) + [Point(coord, tag)])
      modifies `elmts, `pathFreeList, `gs, `shape
      ensures Valid() && Kept(old(Now()), old(shape), Now(), shape, kind) && !Of(gs[|gs| - 1], kind).copy
      ensures PointsOf(Now(), shape, |gs| - 1, kind)
              == PointsOf(old(Now()), old(shape), |gs| - 1, kind) + [Point(coord, tag)]
      ensures Added(Of(old(gs)[|gs| - 1], kind), PointsOf(old(Now()), old(shape), |gs| - 1, kind),
                    Of(gs[|gs| - 1], kind), coord)
    {
      hide Fits, BoxesOk, Kept, OthersSame, Formed, PointsOf, Widened, AddPoint;
      ghost var s, h := Now(), shape;
      SizesFit(s, h);
      FreeHead(s, h);
      TailPoint(s, h, kind);
      AppendFits(s, h, kind, coord, tag);
      AppendKeeps(s, h, kind, coord, tag);
      var top := |gs| - 1;
      var tail, pe := Of(gs[top], kind).tail, pathFreeList.value;
      pathFreeList := elmts[pe].next;
      elmts := Linked(elmts, tail, pe, coord, tag);
      gs := gs[top := With(gs[top], kind, Extended(Of(gs[top], kind), pe, coord, tag))];
      shape := AppendedShape(shape, kind);
      AppendIsAdd(PointsOf(s, h, top, kind), Point(coord, tag));
      AddedBox(s, h, Now(), shape, kind, Point(coord, tag));
    }

    /** The last element of a path of the top, a moveto, is overwritten. */
    method OverwriteElement(kind: Kind, coord: Coord)
      requires Valid() && !Of(gs[|gs| - 1], kind).copy && Of(gs[|gs| - 1], kind).tail.Some?
      requires PointAt(elmts, Of(gs[|gs| - 1], kind).tail.value).tag.PathStart?
      modifies `elmts, `gs
      ensures Valid() && Kept(old(Now()), old(shape), Now(), shape, kind) && !Of(gs[|gs| - 1], kind).copy
      ensures PointsOf(Now(), shape, |gs| - 1, kind)
              == AddPoint(PointsOf(old(Now()), old(shape), |gs| - 1, kind), Point(coord, PathStart))
      ensures Added(Of(old(gs)[|gs| - 1], kind), PointsOf(old(Now()), old(shape), |gs| - 1, kind),
                    Of(gs[|gs| - 1], kind), coord)
    {
      hide Fits, BoxesOk, Kept, OthersSame, Formed, PointsOf, AddPoint, Widened;
      ghost var s, h := Now(), shape;
      SizesFit(s, h);
      TailPoint(s, h, kind);
      ReplaceFits(s, h, kind, coord);
      ReplaceKeeps(s, h, kind, coord);
      var top := |gs| - 1;
      var tail := Of(gs[top], kind).tail;
      elmts := Linked(elmts, tail, tail.value, coord, PathStart);
      gs := gs[top := With(gs[top], kind, Extended(Of(gs[top], kind), tail.value, coord, PathStart))];
      AddedBox(s, h, Now(), shape, kind, Point(coord, PathStart));
    }

    method SetCurrentPoint(coord: Coord)
      requires Valid()
      modifies `gs
      ensures Valid() && Kept(old(Now()), shape, Now(), shape, OfPath)
      ensures |gs| == |old(gs)| && gs == old(gs)[|gs| - 1 := old(gs)[|gs| - 1].(cp := coord)]
      ensures forall l, k :: 0 <= l < |gs| ==> PointsOf(Now(), shape, l, k) == PointsOf(old(Now()), shape, l, k)
    {
      hide Fits, BoxesOk, Kept;
      SizesFit(Now(), shape);
      CpFits(Now(), shape, coord);
      ghost var s := Now();
      gs := gs[|gs| - 1 := gs[|gs| - 1].(cp := coord)];
      SameBox(s, shape, Now(), shape, OfPath);
    }

    /** All chunks are there and no element is free. */
    predicate StorageFull()
      reads this
    {
      pathChunks == MAX_PATH_CHUNKS && pathFreeList.None?
    }

    /** The part of AddToPath that acts on a path that is not a copy. */
    method AddElement(kind: Kind, coord: Coord, tag: Tag) returns (ok: bool)
      requires Valid() && !Of(gs[|gs| - 1], kind).copy
      requires PointsOf(Now(), shape, |gs| - 1, kind) == [] ==> tag.PathStart?
      modifies this
      ensures Valid() && Kept(old(Now()), old(shape), Now(), shape, kind)
      ensures !Of(gs[|gs| - 1], kind).copy
      ensures ok ==> PointsOf(Now(), shape, |gs| - 1, kind)
                     == AddPoint(PointsOf(old(Now()), old(shape), |gs| - 1, kind), Point(coord, tag))
      ensures ok && kind.OfPath? ==> gs[|gs| - 1].cp == coord
      ensures ok ==> Added(Of(old(gs)[|gs| - 1], kind), PointsOf(old(Now()), old(shape), |gs| - 1, kind),
                           Of(gs[|gs| - 1], kind), coord)
      ensures !ok ==> gs == old(gs)
                      && PointsOf(Now(), shape, |gs| - 1, kind) == PointsOf(old(Now()), old(shape), |gs| - 1, kind)
      ensures old(pathChunks) <= pathChunks <= old(pathChunks) + 1 && (!ok ==> StorageFull())
    {
      hide Fits, BoxesOk, Kept, OthersSame, Formed, PointsOf, AddPoint;
      ghost var s0, h0 := Now(), shape;
      SizesFit(s0, h0);
      TailPoint(s0, h0, kind);
      var top := |gs| - 1;
      var tail := Of(gs[top], kind).tail;
      if tag.PathStart? && tail.Some? && elmts[tail.value].tag.PathStart? {
        OverwriteElement(kind, coord);
      } else {
        if pathFreeList.None? {
          ok := GetPathStorage();
          StorageKeeps(s0, h0, Now(), shape, kind);
          if !ok { return; }
        } else {
          StorageKeeps(s0, h0, Now(), shape, kind);
        }
        ghost var s1, h1 := Now(), shape;
        AppendFormed(PointsOf(s1, h1, top, kind), Point(coord, tag));
        TakeElement(kind, coord, tag);
        KeptTwice(s0, h0, s1, h1, Now(), shape, kind);
      }
      KeptSizes(s0, h0, Now(), shape, kind);
      if kind.OfPath? {
        ghost var s2 := Now();
        SetCurrentPoint(coord);
        KeptTwice(s0, h0, s2, shape, Now(), shape, kind);
      }
      ok := true;
    }
  
    /** AppendCopyToPath: the elements from from on, which are those of another path, are added to an empty one. */
    method AppendCopyToPath(from: Option<nat>, kind: Kind, ghost l: nat, ghost k: Kind) returns (ok: bool)
      requires Valid() && !Of(gs[|gs| - 1], kind).copy && PointsOf(Now(), shape, |gs| - 1, kind) == []
      requires l < |gs| && (l != |gs| - 1 || k != kind) && from == Of(gs[l], k).head
      modifies this
      ensures Valid() && Kept(old(Now()), old(shape), Now(), shape, kind) && !Of(gs[|gs| - 1], kind).copy
      ensures ok ==> PointsOf(Now(), shape, |gs| - 1, kind) == PointsOf(old(Now()), old(shape), l, k)
      ensures ok ==>
                var p, p' := Of(old(gs)[|gs| - 1], kind), Of(gs[|gs| - 1], kind);
                && p'.secret == p.secret
                && (PointsOf(Now(), shape, |gs| - 1, kind) != [] ==>
                      p'.bbox == BoxOf(PointsOf(Now(), shape, |gs| - 1, kind)))
      ensures !ok ==> StorageFull()
                      && PointsOf(Now(), shape, |gs| - 1, kind) < PointsOf(old(Now()), old(shape), l, k)
      ensures old(pathChunks) <= pathChunks <= old(pathChunks) + |PointsOf(old(Now()), old(shape), l, k)|
    {
      hide Fits, BoxesOk, OthersSame, Formed, PointsOf, AddPoint, Boxed, BoxOf, Kept;
      ghost var s0, h0 := Now(), shape;
      SizesFit(s0, h0);
      ghost var ns, src, i := In(shape.lists[l], k), PointsOf(s0, h0, l, k), 0;
      var pe := from;
      SourceAt(s0, h0, l, k, 0);
      SameKept(s0, h0, kind);
      assert src[..0] == [];
      while pe.Some?
        invariant Valid() && Kept(s0, h0, Now(), shape, kind) && !Of(gs[|gs| - 1], kind).copy
        invariant 0 <= i <= |ns| == |src| && PointsOf(Now(), shape, |gs| - 1, kind) == src[..i]
        invariant pe == if i < |ns| then Some(ns[i]) else None
        invariant |gs| == |s0.gs|
        invariant Of(gs[|gs| - 1], kind).secret == Of(s0.gs[|s0.gs| - 1], kind).secret
        invariant i > 0 ==> Of(gs[|gs| - 1], kind).bbox == BoxOf(src[..i])
        invariant old(pathChunks) <= pathChunks <= old(pathChunks) + i
        decreases |ns| - i
      {
        ghost var s1, h1 := Now(), shape;
        FirstBoxed(src, i, Of(gs[|gs| - 1], kind).bbox);
        KeptSource(s0, h0, s1, h1, kind, l, k);
        SourceAt(s1, h1, l, k, i);
        PrefixFormed(src, i);
        ok := AddElement(kind, elmts[pe.value].coord, elmts[pe.value].tag);
        KeptSizes(s1, h1, Now(), shape, kind);
        KeptTwice(s0, h0, s1, h1, Now(), shape, kind);
        if !ok { return; }
        KeptSource(s0, h0, Now(), shape, kind, l, k);
        SourceAt(Now(), shape, l, k, i);
        pe := elmts[pe.value].next;
        i := i + 1;
      }
      assert src[..i] == src;
      ok := true;
    }

    /** AddToPath: a copy is first made a path of its own. */
    method AddToPath(kind: Kind, coord: Coord, tag: Tag) returns (ok: bool)
      requires Valid()
      requires PointsOf(Now(), shape, |gs| - 1, kind) == [] ==> tag.PathStart?
      modifies this
      ensures Valid() && Kept(old(Now()), old(shape), Now(), shape, kind)
      ensures ok ==> !Of(gs[|gs| - 1], kind).copy
      ensures ok ==> PointsOf(Now(), shape, |gs| - 1, kind)
                     == AddPoint(PointsOf(old(Now()), old(shape), |gs| - 1, kind), Point(coord, tag))
      ensures ok && kind.OfPath? ==> gs[|gs| - 1].cp == coord
      ensures ok ==>
                var was := PointsOf(old(Now()), old(shape), |gs| - 1, kind);
                Added(OwnRecord(Of(old(gs)[|gs| - 1], kind), was), was, Of(gs[|gs| - 1], kind), coord)
      ensures !ok ==> StorageFull()
                      && PointsOf(Now(), shape, |gs| - 1, kind) <= PointsOf(old(Now()), old(shape), |gs| - 1, kind)
      ensures old(pathChunks) <= pathChunks
                <= old(pathChunks) + |PointsOf(old(Now()), old(shape), |gs| - 1, kind)| + 1
    {
      hide Fits, BoxesOk, OthersSame, Formed, PointsOf, AddPoint, Boxed, BoxOf;
      ghost var s0, h0 := Now(), shape;
      SizesFit(s0, h0);
      SameKept(s0, h0, kind);
      var top := |gs| - 1;
      if Of(gs[top], kind).copy {
        CopyBelow(s0, h0, kind);
        ClearFits(s0, h0, kind, false);
        ClearKeeps(s0, h0, kind, false);
        var pe := Of(gs[top], kind).head;
        gs := gs[top := With(gs[top], kind, EMPTY)];
        shape := shape.(lists := shape.lists[top := Put(shape.lists[top], kind, [])]);
        ghost var s1, h1 := Now(), shape;
        EmptyBox(s0, h0, s1, h1, kind);
        KeptSource(s0, h0, s1, h1, kind, top - 1, kind);
        ok := AppendCopyToPath(pe, kind, top - 1, kind);
        KeptTwice(s0, h0, s1, h1, Now(), shape, kind);
        if !ok { return; }
      }
      ghost var s2, h2 := Now(), shape;
      BoxUnused(PointsOf(s2, h2, top, kind), coord);
      ok := AddElement(kind, coord, tag);
      KeptTwice(s0, h0, s2, h2, Now(), shape, kind);
    }

    /** FreePath: the elements go to the free list, unless the path is a copy. */
    method FreePath(kind: Kind)
      requires Valid()
      modifies `elmts, `pathFreeList, `gs, `shape
      ensures Valid() && Kept(old(Now()), old(shape), Now(), shape, kind)
      ensures PointsOf(Now(), shape, |gs| - 1, kind) == [] && In(shape.lists[|gs| - 1], kind) == []
      ensures |gs| == |old(gs)| && gs == old(gs)[|gs| - 1 := With(old(gs)[|gs| - 1], kind, EMPTY)]
      ensures !Of(gs[|gs| - 1], kind).copy
    {
      hide Fits, BoxesOk, OthersSame, Kept, PointsOf, Distinct;
      ghost var s0, h0 := Now(), shape;
      SizesFit(s0, h0);
      var top := |gs| - 1;
      if Of(gs[top], kind).copy {
        ClearFits(s0, h0, kind, false);
        ClearKeeps(s0, h0, kind, false);
        shape := shape.(lists := shape.lists[top := Put(shape.lists[top], kind, [])]);
      } else {
        ghost var fs := ReleaseElements(kind);
        ReleasedFits(s0, h0, kind, elmts, pathFreeList, fs);
        shape := ReleasedShape(shape, kind, fs);
      }
      gs := gs[top := With(gs[top], kind, EMPTY)];
      EmptyBox(s0, h0, Now(), shape, kind);
    }

    /** The loop of FreePath. */
    method ReleaseElements(kind: Kind) returns (ghost fs: seq<nat>)
      requires Valid() && !Of(gs[|gs| - 1], kind).copy
      modifies `elmts, `pathFreeList
      ensures |elmts| == |old(elmts)| && Chain(elmts, pathFreeList, fs) && Distinct(fs)
      ensures forall e :: 0 <= e < |elmts| && e !in In(shape.lists[|gs| - 1], kind) ==> elmts[e] == old(elmts)[e]
      ensures forall e: nat :: e in fs <==> e in shape.freeNodes || e in In(shape.lists[|gs| - 1], kind)
    {
      hide Fits, BoxesOk, Chain, Distinct, PathOk, Describes;
      SizesFit(Now(), shape);
      OwnNodes(Now(), shape, kind);
      ghost var ns := In(shape.lists[|gs| - 1], kind);
      ghost var i := 0;
      fs := shape.freeNodes;
      var pe := Of(gs[|gs| - 1], kind).head;
      while pe.Some?
        invariant 0 <= i <= |ns| && pe == if i < |ns| then Some(ns[i]) else None
        invariant |elmts| == |old(elmts)| && Chain(elmts, pathFreeList, fs) && Distinct(fs)
        invariant forall e: nat :: e in fs <==> e in shape.freeNodes || e in ns[..i]
        invariant forall e :: 0 <= e < |elmts| && e !in ns[..i] ==> elmts[e] == old(elmts)[e]
        decreases |ns| - i
      {
        NodeAt(old(elmts), ns, i);
        var peNext := elmts[pe.value].next;
        PushChain(elmts, pathFreeList, fs, pe.value);
        elmts := elmts[pe.value := elmts[pe.value].(next := pathFreeList)];
        pathFreeList := pe;
        fs := [pe.value] + fs;
        i := i + 1;
        assert ns[..i] == ns[..i - 1] + [ns[i - 1]];
        pe := peNext;
      }
      assert ns[..i] == ns;
    }
  
    method NewPath()
      requires Valid()
      modifies `elmts, `pathFreeList, `gs, `shape
      ensures Valid() && Kept(old(Now()), old(shape), Now(), shape, OfPath)
      ensures PointsOf(Now(), shape, |gs| - 1, OfPath) == [] && gs[|gs| - 1].cp == ORIGIN
      ensures !gs[|gs| - 1].path.copy && gs[|gs| - 1].path.secret == gs[|gs| - 1].isCharPath
    {
      hide Fits, BoxesOk, Kept, OthersSame, PointsOf;
      ghost var s0, h0 := Now(), shape;
      SizesFit(s0, h0);
      FreePath(OfPath);
      ghost var s1, h1 := Now(), shape;
      SizesFit(s1, h1);
      var top := |gs| - 1;
      var secret := gs[top].isCharPath;
      ClearFits(s1, h1, OfPath, secret);
      ClearKeeps(s1, h1, OfPath, secret);
      gs := gs[top := With(gs[top], OfPath, EMPTY.(secret := secret))];
      shape := shape.(lists := shape.lists[top := Put(shape.lists[top], OfPath, [])]);
      ghost var s2, h2 := Now(), shape;
      EmptyBox(s1, h1, s2, h2, OfPath);
      KeptTwice(s0, h0, s1, h1, s2, h2, OfPath);
      SetCurrentPoint(ORIGIN);
      KeptTwice(s0, h0, s2, h2, Now(), shape, OfPath);
    }

    /** charpath sets the mark while it shows its string, and takes it away afterwards. */
    method SetCharPath(on: bool)
      requires Valid()
      modifies `gs
      ensures Valid() && |gs| == |old(gs)| && gs == old(gs)[|gs| - 1 := old(gs)[|gs| - 1].(isCharPath := on)]
      ensures forall l, k :: 0 <= l < |gs| ==> PointsOf(Now(), shape, l, k) == PointsOf(old(Now()), shape, l, k)
    {
      hide Fits, BoxesOk;
      SizesFit(Now(), shape);
      CharPathFits(Now(), shape, on);
      gs := gs[|gs| - 1 := gs[|gs| - 1].(isCharPath := on)];
    }

    method MoveTo(c: Coord) returns (ok: bool)
      requires Valid()
      modifies this
      ensures Valid() && Kept(old(Now()), old(shape), Now(), shape, OfPath)
      ensures ok ==> Drawn(old(Now()), old(shape), Now(), shape, Point(c, PathStart))
      ensures !ok ==> StorageFull()
      ensures old(pathChunks) <= pathChunks
                <= old(pathChunks) + |PointsOf(old(Now()), old(shape), |gs| - 1, OfPath)| + 1
    {
      hide Fits, BoxesOk, Kept, OthersSame, PointsOf, AddPoint, Boxed, BoxOf;
      SizesFit(Now(), shape);
      ok := AddToPath(OfPath, c, PathStart);
      KeptSizes(old(Now()), old(shape), Now(), shape, OfPath);
    }

    method LineTo(c: Coord) returns (ok: bool)
      requires Valid()
      modifies this
      ensures Valid() && Kept(old(Now()), old(shape), Now(), shape, OfPath)
      ensures ok ==> Drawn(old(Now()), old(shape), Now(), shape,
                           Point(c, if PointsOf(old(Now()), old(shape), |gs| - 1, OfPath) == [] then PathStart
                             else PathLineTo))
      ensures old(pathChunks) <= pathChunks && (!ok ==> StorageFull())
    {
      hide Fits, BoxesOk, Kept, OthersSame, PointsOf, AddPoint;
      SizesFit(Now(), shape);
      HeadPoint(Now(), shape, OfPath);
      ok := AddToPath(OfPath, c, if gs[|gs| - 1].path.head.None? then PathStart else PathLineTo);
      KeptSizes(old(Now()), old(shape), Now(), shape, OfPath);
    }

    /** Three points; an error, and no change, if there is no path to go on from. */
    method CurveTo(c1: Coord, c2: Coord, c3: Coord) returns (ok: bool)
      requires Valid()
      modifies this
      ensures Valid() && Kept(old(Now()), old(shape), Now(), shape, OfPath)
      ensures ok ==>
                var was := PointsOf(old(Now()), old(shape), |gs| - 1, OfPath);
                && was != [] && gs[|gs| - 1].cp == c3
                && PointsOf(Now(), shape, |gs| - 1, OfPath)
                   == was + [Point(c1, PathCurveTo), Point(c2, PathCurveTo), Point(c3, PathCurveTo)]
                && var own := OwnRecord(old(gs)[|gs| - 1].path, was);
                gs[|gs| - 1].path.secret == own.secret
                && gs[|gs| - 1].path.bbox == Widened(Widened(Widened(own.bbox, c1), c2), c3)
      ensures PointsOf(old(Now()), old(shape), |gs| - 1, OfPath) == [] ==>
                !ok && Now() == old(Now()) && shape == old(shape)
      ensures !ok && PointsOf(old(Now()), old(shape), |gs| - 1, OfPath) != [] ==> StorageFull()
      ensures old(pathChunks) <= pathChunks
    {
      hide Fits, BoxesOk, Kept, OthersSame, PointsOf;
      ghost var s0, h0 := Now(), shape;
      SizesFit(Now(), shape);
      HeadPoint(Now(), shape, OfPath);
      SameKept(s0, h0, OfPath);
      if gs[|gs| - 1].path.head.None? { return false; }
      ghost var was := PointsOf(s0, h0, |gs| - 1, OfPath);
      ok := AddToPath(OfPath, c1, PathCurveTo);
      KeptSizes(s0, h0, Now(), shape, OfPath);
      if !ok { return; }
      ghost var s1, h1 := Now(), shape;
      ok := AddToPath(OfPath, c2, PathCurveTo);
      KeptTwice(s0, h0, s1, h1, Now(), shape, OfPath);
      KeptSizes(s0, h0, Now(), shape, OfPath);
      if !ok { return; }
      ghost var s2, h2 := Now(), shape;
      ok := AddToPath(OfPath, c3, PathCurveTo);
      KeptTwice(s0, h0, s2, h2, Now(), shape, OfPath);
      KeptSizes(s0, h0, Now(), shape, OfPath);
      if ok {
        assert was + [Point(c1, PathCurveTo)] + [Point(c2, PathCurveTo)] + [Point(c3, PathCurveTo)]
            == was + [Point(c1, PathCurveTo), Point(c2, PathCurveTo), Point(c3, PathCurveTo)];
      }
    }

    /** Back to where the current subpath began; nothing if there is no path or it has just been closed. */
    method ClosePath() returns (ok: bool)
      requires Valid()
      modifies this
      ensures Valid() && Kept(old(Now()), old(shape), Now(), shape, OfPath)
      ensures var was := PointsOf(old(Now()), old(shape), |gs| - 1, OfPath);
              if was == [] || was[|was| - 1].tag.PathClose? then ok && Now() == old(Now()) && shape == old(shape)
              else ok ==> Drawn(old(Now()), old(shape), Now(), shape, Point(StartOf(was), PathClose))
      ensures old(pathChunks) <= pathChunks && (!ok ==> StorageFull())
    {
      hide Fits, BoxesOk, Kept, OthersSame, PointsOf, AddPoint, StartOf;
      ghost var s0, h0 := Now(), shape;
      SizesFit(s0, h0);
      SameKept(s0, h0, OfPath);
      TailPoint(s0, h0, OfPath);
      var p := gs[|gs| - 1].path;
      if p.tail.None? || elmts[p.tail.value].tag.PathClose? { return true; }
      StartAt(s0, h0, OfPath);
      ghost var was := PointsOf(s0, h0, |gs| - 1, OfPath);
      ok := AddToPath(OfPath, elmts[p.start.value].coord, PathClose);
      KeptSizes(s0, h0, Now(), shape, OfPath);
      if ok {
        ghost var s1, h1 := Now(), shape;
        ClosedStart(was);
        ClosedFits(s1, h1);
        var g := gs[|gs| - 1];
        gs := gs[|gs| - 1 := g.(path := g.path.(start := g.path.tail))];
        SameBox(s1, h1, Now(), shape, OfPath);
        KeptTwice(s0, h0, s1, h1, Now(), shape, OfPath);
      }
    }

    /** The branch of clip for a path inside a rectangular clip: the path is copied into the clip. */
    method ClipToPath() returns (ok: bool)
      requires Valid()
      modifies this
      ensures Valid() && Kept(old(Now()), old(shape), Now(), shape, OfClip)
      ensures ok ==> PointsOf(Now(), shape, |gs| - 1, OfClip) == PointsOf(old(Now()), old(shape), |gs| - 1, OfPath)
      ensures ok ==> gs[|gs| - 1].clip.secret == gs[|gs| - 1].path.secret
      ensures old(pathChunks) <= pathChunks && (!ok ==> StorageFull())
    {
      hide Fits, BoxesOk, OthersSame, PointsOf;
      ghost var s0, h0 := Now(), shape;
      SizesFit(s0, h0);
      FreePath(OfClip);
      ghost var s1, h1 := Now(), shape;
      KeptSource(s0, h0, s1, h1, OfClip, |gs| - 1, OfPath);
      ok := AppendCopyToPath(gs[|gs| - 1].path.head, OfClip, |gs| - 1, OfPath);
      KeptTwice(s0, h0, s1, h1, Now(), shape, OfClip);
      if !ok { return; }
      ghost var s2, h2 := Now(), shape;
      MarkClip();
      KeptTwice(s0, h0, s2, h2, Now(), shape, OfClip);
    }

    /** The clip takes over the mark of the path. */
    method MarkClip()
      requires Valid()
      modifies `gs
      ensures Valid() && Kept(old(Now()), shape, Now(), shape, OfClip)
      ensures PointsOf(Now(), shape, |gs| - 1, OfClip) == PointsOf(old(Now()), shape, |gs| - 1, OfClip)
      ensures gs[|gs| - 1].path == old(gs)[|gs| - 1].path
      ensures gs[|gs| - 1].clip.secret == (old(gs)[|gs| - 1].clip.secret || gs[|gs| - 1].path.secret)
    {
      hide Fits, BoxesOk, OthersSame, PointsOf;
      SizesFit(Now(), shape);
      ghost var s := Now();
      var g := gs[|gs| - 1];
      SecretFits(Now(), shape, g.clip.secret || g.path.secret);
      gs := gs[|gs| - 1 := g.(clip := g.clip.(secret := g.clip.secret || g.path.secret))];
      SameBox(s, shape, Now(), shape, OfClip);
    }

    method GSave() returns (ok: bool)
      requires Valid()
      modifies `gs, `shape
      ensures Valid() && (ok <==> |old(gs)| < GS_SAVE_MAX)
      ensures !ok ==> Now() == old(Now()) && shape == old(shape)
      ensures ok ==> gs == Saved(old(Now())).gs
                     && View(Now(), shape)
                       == View(old(Now()), old(shape)) + [View(old(Now()), old(shape))[|old(gs)| - 1]]
    {
      hide Fits, BoxesOk, PointsOf;
      SizesFit(Now(), shape);
      if |gs| >= GS_SAVE_MAX { return false; }
      SaveFits(Now(), shape);
      SavedBoxes(Now(), shape);
      var g := gs[|gs| - 1];
      gs := gs + [g.(path := g.path.(copy := true), clip := g.clip.(copy := true))];
      shape := SavedShape(shape);
      SizesFit(Now(), shape);
      ok := true;
    }

    method GRestore() returns (ok: bool)
      requires Valid()
      modifies this
      ensures Valid() && (ok <==> |old(gs)| > 1)
      ensures !ok ==> Now() == old(Now()) && shape == old(shape)
      ensures ok ==> gs == old(gs)[..|old(gs)| - 1]
                     && View(Now(), shape) == View(old(Now()), old(shape))[..|old(gs)| - 1]
      ensures pathChunks == old(pathChunks)
    {
      hide Fits, BoxesOk, PointsOf, Kept, OthersSame;
      ghost var s0, h0 := Now(), shape;
      SizesFit(s0, h0);
      if |gs| == 1 { return false; }
      FreePath(OfPath);
      ghost var s1, h1 := Now(), shape;
      FreePath(OfClip);
      ghost var s2, h2 := Now(), shape;
      Emptied(s0, h0, s1, h1, s2, h2);
      DropFits(s2, h2);
      DroppedBoxes(s2, h2);
      gs := gs[..|gs| - 1];
      shape := shape.(lists := shape.lists[..|gs|]);
      SizesFit(Now(), shape);
      ok := true;
    }
  }

  /** p has been added to the path of the top, and is the current point. */
  ghost predicate Drawn(s: Store, h: Shape, s': Store, h': Shape, p: Point) {
    && |h.lists| == |h'.lists| == |s'.gs| >= 1 && s'.gs[|s'.gs| - 1].cp == p.coord
    && |s.gs| == |h.lists|
    && var was := PointsOf(s, h, |h.lists| - 1, OfPath);
    && PointsOf(s', h', |s'.gs| - 1, OfPath) == AddPoint(was, p)
    && !s'.gs[|s'.gs| - 1].path.copy
    && Added(OwnRecord(s.gs[|s.gs| - 1].path, was), was, s'.gs[|s'.gs| - 1].path, p.coord)
  }

  // ---------------------------------------------------------------- the boxes

  /** One path of the top has changed, and comes from added points again. */
  lemma BoxesKept(s: Store, h: Shape, s': Store, h': Shape, kind: Kind)
    requires BoxesOk(s, h) && Kept(s, h, s', h', kind)
    requires |s'.gs| == |h'.lists| >= 1
    requires ComesFrom(PointsOf(s', h', |s'.gs| - 1, kind), Of(s'.gs[|s'.gs| - 1], kind).bbox)
    ensures BoxesOk(s', h')
  {
    hide ComesFrom, PointsOf;
    forall l, k | 0 <= l < |s'.gs| ensures ComesFrom(PointsOf(s', h', l, k), Of(s'.gs[l], k).bbox) {
      if l != |s.gs| - 1 || k != kind {
        KeptSource(s, h, s', h', kind, l, k);
      }
    }
  }

  lemma AddedBox(s: Store, h: Shape, s': Store, h': Shape, kind: Kind, p: Point)
    requires BoxesOk(s, h) && Kept(s, h, s', h', kind)
    requires |s.gs| == |h.lists| == |s'.gs| == |h'.lists| >= 1
    requires var was := PointsOf(s, h, |s.gs| - 1, kind);
             && PointsOf(s', h', |s'.gs| - 1, kind) == AddPoint(was, p)
             && Added(Of(s.gs[|s.gs| - 1], kind), was, Of(s'.gs[|s'.gs| - 1], kind), p.coord)
    ensures BoxesOk(s', h')
  {
    hide Kept, PointsOf, ComesFrom, AddPoint, Boxed;
    StillComesFrom(PointsOf(s, h, |s.gs| - 1, kind), Of(s.gs[|s.gs| - 1], kind).bbox, p);
    BoxesKept(s, h, s', h', kind);
  }

  lemma SameBox(s: Store, h: Shape, s': Store, h': Shape, kind: Kind)
    requires BoxesOk(s, h) && Kept(s, h, s', h', kind)
    requires |s.gs| == |h.lists| == |s'.gs| == |h'.lists| >= 1
    requires PointsOf(s', h', |s'.gs| - 1, kind) == PointsOf(s, h, |s.gs| - 1, kind)
    requires Of(s'.gs[|s'.gs| - 1], kind).bbox == Of(s.gs[|s.gs| - 1], kind).bbox
    ensures BoxesOk(s', h')
  {
    hide Kept, PointsOf, ComesFrom;
    BoxesKept(s, h, s', h', kind);
  }

  lemma EmptyBox(s: Store, h: Shape, s': Store, h': Shape, kind: Kind)
    requires BoxesOk(s, h) && Kept(s, h, s', h', kind)
    requires |s.gs| == |h.lists| == |s'.gs| == |h'.lists| >= 1
    requires PointsOf(s', h', |s'.gs| - 1, kind) == [] && Of(s'.gs[|s'.gs| - 1], kind).bbox == EMPTY.bbox
    ensures BoxesOk(s', h')
  {
    hide Kept, PointsOf, ComesFrom;
    EmptyComesFrom();
    BoxesKept(s, h, s', h', kind);
  }

  lemma SameBoxes(s: Store, h: Shape, s': Store, h': Shape)
    requires BoxesOk(s, h) && s'.gs == s.gs && h'.lists == h.lists
    requires forall l, k :: 0 <= l < |s.gs| ==> PointsOf(s', h', l, k) == PointsOf(s, h, l, k)
    ensures BoxesOk(s', h')
  {
    hide ComesFrom, PointsOf;
  }

  lemma SavedBoxes(s: Store, h: Shape)
    requires BoxesOk(s, h) && |s.gs| >= 1
    requires forall l, k :: 0 <= l < |s.gs| ==> PointsOf(Saved(s), SavedShape(h), l, k) == PointsOf(s, h, l, k)
    requires forall k :: PointsOf(Saved(s), SavedShape(h), |s.gs|, k) == PointsOf(s, h, |s.gs| - 1, k)
    ensures BoxesOk(Saved(s), SavedShape(h))
  {
    hide ComesFrom, PointsOf;
    var s', h' := Saved(s), SavedShape(h);
    forall l, k | 0 <= l < |s'.gs| ensures ComesFrom(PointsOf(s', h', l, k), Of(s'.gs[l], k).bbox) {
      var m := if l < |s.gs| then l else |s.gs| - 1;
      assert ComesFrom(PointsOf(s, h, m, k), Of(s.gs[m], k).bbox);
      assert if l < |s.gs| then PointsOf(s', h', l, k) == PointsOf(s, h, l, k)
             else PointsOf(s', h', |s.gs|, k) == PointsOf(s, h, |s.gs| - 1, k);
      assert Of(s'.gs[l], k).bbox == Of(s.gs[m], k).bbox;
    }
  }

  lemma DroppedBoxes(s: Store, h: Shape)
    requires BoxesOk(s, h) && |s.gs| > 1
    ensures BoxesOk(s.(gs := s.gs[..|s.gs| - 1]), h.(lists := h.lists[..|s.gs| - 1]))
  {
    hide ComesFrom;
    var s', h' := s.(gs := s.gs[..|s.gs| - 1]), h.(lists := h.lists[..|s.gs| - 1]);
    forall l, k | 0 <= l < |s'.gs| ensures ComesFrom(PointsOf(s', h', l, k), Of(s'.gs[l], k).bbox) {
      assert PointsOf(s', h', l, k) == PointsOf(s, h, l, k);
    }
  }

  /** The box after one more point of the source. */
  lemma FirstBoxed(points: seq<Point>, i: nat, b: BBox)
    requires i < |points| && (i > 0 ==> b == BoxOf(points[..i]))
    ensures Boxed(b, points[..i], points[i].coord) == BoxOf(points[..i + 1])
  {
    assert points[..i + 1][..i] == points[..i];
  }

  /** The box of an empty path does not matter. */
  lemma BoxUnused(points: seq<Point>, c: Coord)
    ensures points == [] ==> forall b, b' :: Boxed(b, points, c) == Boxed(b', points, c)
  {
  }

  lemma KeptSizes(s: Store, h: Shape, s': Store, h': Shape, kind: Kind)
    requires Kept(s, h, s', h', kind)
    ensures |s.gs| == |h.lists| == |s'.gs| == |h'.lists| >= 1
  {
  }

  lemma LinkKept(el: seq<Elmt>, el': seq<Elmt>, span: seq<nat>, free: nat, lo: nat)
    requires free < |el| == |el'| && el' == el[free := el'[free]]
    requires forall i: nat :: lo <= i < |span| ==> Link(el, span, i) && span[i] != free
    ensures forall i: nat :: lo <= i < |span| ==> Link(el', span, i)
  {
  }

  lemma TailPoint(s: Store, h: Shape, kind: Kind)
    requires Fits(s, h)
    ensures var t := Of(s.gs[|s.gs| - 1], kind).tail;
            var ps := PointsOf(s, h, |s.gs| - 1, kind);
            && Formed(ps)
            && (t.None? <==> ps == [])
            && (t.Some? ==> t.value < |s.elmts| && ps[|ps| - 1] == PointAt(s.elmts, t.value))
  {
    assert PathOk(s, h, |s.gs| - 1, kind);
  }

  lemma ReplaceKeeps(s: Store, h: Shape, kind: Kind, coord: Coord)
    requires s.gs != [] && |s.gs| == |h.lists|
    requires Of(s.gs[|s.gs| - 1], kind).tail.Some? && Of(s.gs[|s.gs| - 1], kind).tail.value < |s.elmts|
    requires OthersSame(s, h, Replaced(s, kind, coord), h, kind)
    ensures Kept(s, h, Replaced(s, kind, coord), h, kind)
  {
  }

  lemma StorageKeeps(s: Store, h: Shape, s': Store, h': Shape, kind: Kind)
    requires |s.gs| == |h.lists| >= 1 && s'.gs == s.gs && h'.lists == h.lists
    requires forall l, k :: 0 <= l < |s.gs| ==> PointsOf(s', h', l, k) == PointsOf(s, h, l, k)
    ensures Kept(s, h, s', h', kind)
  {
  }

  lemma AppendKeeps(s: Store, h: Shape, kind: Kind, coord: Coord, tag: Tag)
    requires Fits(s, h) && s.free.Some? && h.freeNodes != [] && h.freeNodes[0] < |h.home| && s.free.value < |s.elmts|
    requires var t := Of(s.gs[|s.gs| - 1], kind).tail; t.Some? ==> t.value < |s.elmts|
    requires OthersSame(s, h, Appended(s, kind, coord, tag), AppendedShape(h, kind), kind)
    ensures Kept(s, h, Appended(s, kind, coord, tag), AppendedShape(h, kind), kind)
  {
    hide FreeOk, PathOk;
  }

  lemma CpFits(s: Store, h: Shape, coord: Coord)
    requires Fits(s, h)
    ensures var top := |s.gs| - 1; var s' := s.(gs := s.gs[top := s.gs[top].(cp := coord)]);
            && Fits(s', h) && Kept(s, h, s', h, OfPath)
            && forall l, k :: 0 <= l < |s.gs| ==> PointsOf(s', h, l, k) == PointsOf(s, h, l, k)
  {
    hide FreeOk, Describes;
    var top := |s.gs| - 1;
    var s' := s.(gs := s.gs[top := s.gs[top].(cp := coord)]);
    FreeKept(s, h, s', h);
    forall l, k | 0 <= l < |s.gs| ensures PathOk(s', h, l, k) {
      assert PathOk(s, h, l, k);
    }
  }

  lemma CharPathFits(s: Store, h: Shape, on: bool)
    requires Fits(s, h) && BoxesOk(s, h)
    ensures var top := |s.gs| - 1; var s' := s.(gs := s.gs[top := s.gs[top].(isCharPath := on)]);
            && Fits(s', h) && BoxesOk(s', h)
            && forall l, k :: 0 <= l < |s.gs| ==> PointsOf(s', h, l, k) == PointsOf(s, h, l, k)
  {
    hide FreeOk, Describes, ComesFrom;
    var top := |s.gs| - 1;
    var s' := s.(gs := s.gs[top := s.gs[top].(isCharPath := on)]);
    FreeKept(s, h, s', h);
    forall l, k | 0 <= l < |s.gs| ensures PathOk(s', h, l, k) {
      assert PathOk(s, h, l, k);
    }
    forall l, k | 0 <= l < |s.gs| ensures ComesFrom(PointsOf(s', h, l, k), Of(s'.gs[l], k).bbox) {
      assert ComesFrom(PointsOf(s, h, l, k), Of(s.gs[l], k).bbox);
    }
  }

  lemma SecretFits(s: Store, h: Shape, secret: bool)
    requires Fits(s, h)
    ensures var top := |s.gs| - 1;
            var s' := s.(gs := s.gs[top := s.gs[top].(clip := s.gs[top].clip.(secret := secret))]);
            Fits(s', h) && Kept(s, h, s', h, OfClip) && PointsOf(s', h, top, OfClip) == PointsOf(s, h, top, OfClip)
  {
    hide FreeOk, Describes;
    var top := |s.gs| - 1;
    var s' := s.(gs := s.gs[top := s.gs[top].(clip := s.gs[top].clip.(secret := secret))]);
    FreeKept(s, h, s', h);
    forall l, k | 0 <= l < |s.gs| ensures PathOk(s', h, l, k) {
      assert PathOk(s, h, l, k);
      SecretDescribes(s.elmts, Of(s.gs[l], k), In(h.lists[l], k), secret);
    }
  }

  lemma SecretDescribes(elmts: seq<Elmt>, p: Path, ns: seq<nat>, secret: bool)
    requires Describes(elmts, p, ns)
    ensures Describes(elmts, p.(secret := secret), ns)
  {
  }

  lemma AppendFormed(points: seq<Point>, p: Point)
    requires Formed(points) && (points == [] ==> p.tag.PathStart?)
    requires p.tag.PathStart? && points != [] ==> !points[|points| - 1].tag.PathStart?
    ensures Formed(points + [p]) && AddPoint(points, p) == points + [p]
  {
  }

  lemma AppendIsAdd(points: seq<Point>, p: Point)
    requires Formed(points + [p])
    ensures AddPoint(points, p) == points + [p]
  {
    if points != [] && p.tag.PathStart? {
      var both := points + [p];
      assert both[|points|] == p && both[|points| - 1] == points[|points| - 1];
    }
  }

  lemma SameKept(s: Store, h: Shape, kind: Kind)
    requires |s.gs| == |h.lists| >= 1
    ensures Kept(s, h, s, h, kind)
  {
  }

  /** The elements of a path, one after the other. */
  lemma SourceAt(s: Store, h: Shape, l: nat, k: Kind, i: nat)
    requires Fits(s, h) && l < |s.gs|
    ensures |In(h.lists[l], k)| == |PointsOf(s, h, l, k)| && Formed(PointsOf(s, h, l, k))
    ensures Of(s.gs[l], k).head == if In(h.lists[l], k) == [] then None else Some(In(h.lists[l], k)[0])
    ensures i < |In(h.lists[l], k)| ==>
              var ns := In(h.lists[l], k);
              && ns[i] < |s.elmts| && PointsOf(s, h, l, k)[i] == Point(s.elmts[ns[i]].coord, s.elmts[ns[i]].tag)
              && s.elmts[ns[i]].next == if i + 1 < |ns| then Some(ns[i + 1]) else None
  {
    hide FreeOk, Formed;
    assert PathOk(s, h, l, k);
    if i < |In(h.lists[l], k)| {
      assert Link(s.elmts, In(h.lists[l], k), i);
    }
  }

  lemma KeptSource(s: Store, h: Shape, s': Store, h': Shape, kind: Kind, l: nat, k: Kind)
    requires Kept(s, h, s', h', kind) && l < |s.gs| && (l != |s.gs| - 1 || k != kind)
    ensures In(h'.lists[l], k) == In(h.lists[l], k) && PointsOf(s', h', l, k) == PointsOf(s, h, l, k)
    ensures Of(s'.gs[l], k) == Of(s.gs[l], k)
  {
  }

  lemma PrefixFormed(points: seq<Point>, i: nat)
    requires Formed(points) && i < |points|
    ensures AddPoint(points[..i], points[i]) == points[..i + 1]
    ensures i == 0 ==> points[i].tag.PathStart?
  {
  }

  /** A copy has the points of the path under it, and the same first element. */
  lemma CopyBelow(s: Store, h: Shape, kind: Kind)
    requires Fits(s, h) && Of(s.gs[|s.gs| - 1], kind).copy
    ensures |s.gs| > 1 && PointsOf(s, h, |s.gs| - 1, kind) == PointsOf(s, h, |s.gs| - 2, kind)
    ensures Of(s.gs[|s.gs| - 1], kind).head == Of(s.gs[|s.gs| - 2], kind).head
  {
    hide FreeOk;
    assert PathOk(s, h, |s.gs| - 1, kind) && PathOk(s, h, |s.gs| - 2, kind);
  }

  lemma ClearKeeps(s: Store, h: Shape, kind: Kind, secret: bool)
    requires |s.gs| == |h.lists| >= 1
    requires var top := |s.gs| - 1;
             OthersSame(s, h, s.(gs := s.gs[top := With(s.gs[top], kind, EMPTY.(secret := secret))]),
                        h.(lists := h.lists[top := Put(h.lists[top], kind, [])]), kind)
    ensures var top := |s.gs| - 1;
            Kept(s, h, s.(gs := s.gs[top := With(s.gs[top], kind, EMPTY.(secret := secret))]),
                 h.(lists := h.lists[top := Put(h.lists[top], kind, [])]), kind)
  {
  }

  lemma OwnNodes(s: Store, h: Shape, kind: Kind)
    requires Fits(s, h) && !Of(s.gs[|s.gs| - 1], kind).copy
    ensures var ns := In(h.lists[|s.gs| - 1], kind);
            && Chain(s.elmts, Of(s.gs[|s.gs| - 1], kind).head, ns) && Distinct(ns)
            && Of(s.gs[|s.gs| - 1], kind).head == (if ns == [] then None else Some(ns[0]))
            && forall e :: e in ns ==> e !in h.freeNodes
    ensures Chain(s.elmts, s.free, h.freeNodes) && Distinct(h.freeNodes)
  {
    assert PathOk(s, h, |s.gs| - 1, kind);
  }

  lemma NodeAt(elmts: seq<Elmt>, ns: seq<nat>, i: nat)
    requires i < |ns| && Distinct(ns) && exists head :: Chain(elmts, head, ns)
    ensures ns[i] < |elmts| && ns[i] !in ns[..i]
    ensures elmts[ns[i]].next == if i + 1 < |ns| then Some(ns[i + 1]) else None
  {
    assert Link(elmts, ns, i);
  }

  lemma PushChain(elmts: seq<Elmt>, free: Option<nat>, fs: seq<nat>, e: nat)
    requires Chain(elmts, free, fs) && Distinct(fs) && e < |elmts| && e !in fs
    ensures Chain(elmts[e := elmts[e].(next := free)], Some(e), [e] + fs) && Distinct([e] + fs)
  {
    var el := elmts[e := elmts[e].(next := free)];
    forall i: nat | i < |fs| + 1 ensures Link(el, [e] + fs, i) {
      if i > 0 {
        assert Link(elmts, fs, i - 1) && fs[i - 1] in fs;
      }
    }
  }

  lemma ReleasedFits(s: Store, h: Shape, kind: Kind, elmts: seq<Elmt>, free: Option<nat>, fs: seq<nat>)
    requires Fits(s, h) && !Of(s.gs[|s.gs| - 1], kind).copy && |elmts| == |s.elmts|
    requires forall e :: 0 <= e < |s.elmts| && e !in In(h.lists[|s.gs| - 1], kind) ==> elmts[e] == s.elmts[e]
    requires Chain(elmts, free, fs) && Distinct(fs)
    requires forall e: nat :: e in fs <==> e in h.freeNodes || e in In(h.lists[|s.gs| - 1], kind)
    ensures var s' := Store(elmts, free, s.gs[|s.gs| - 1 := With(s.gs[|s.gs| - 1], kind, EMPTY)]);
            var h' := ReleasedShape(h, kind, fs);
            Fits(s', h') && Kept(s, h, s', h', kind) && PointsOf(s', h', |s.gs| - 1, kind) == []
  {
    hide Fits, Chain, Distinct, OthersSame, PointsOf;
    SizesFit(s, h);
    ReleaseFits(s, h, kind, Store(elmts, free, s.gs[|s.gs| - 1 := With(s.gs[|s.gs| - 1], kind, EMPTY)]), fs);
  }

  lemma HeadPoint(s: Store, h: Shape, kind: Kind)
    requires Fits(s, h)
    ensures Of(s.gs[|s.gs| - 1], kind).head.None? <==> PointsOf(s, h, |s.gs| - 1, kind) == []
  {
    assert PathOk(s, h, |s.gs| - 1, kind);
  }

  lemma StartAt(s: Store, h: Shape, kind: Kind)
    requires Fits(s, h) && PointsOf(s, h, |s.gs| - 1, kind) != []
    ensures var p := Of(s.gs[|s.gs| - 1], kind);
            p.start.Some? && p.start.value < |s.elmts|
              && s.elmts[p.start.value].coord == StartOf(PointsOf(s, h, |s.gs| - 1, kind))
  {
    hide StartOf, Formed, FreeOk;
    assert PathOk(s, h, |s.gs| - 1, kind);
  }

  lemma ClosedStart(points: seq<Point>)
    requires points != []
    ensures var ps := AddPoint(points, Point(StartOf(points), PathClose));
            ps != [] && ps[|ps| - 1].coord == StartOf(ps)
  {
  }

  /** The closing element is where the current subpath began, and may stand for its start. */
  lemma ClosedFits(s: Store, h: Shape)
    requires Fits(s, h) && PointsOf(s, h, |s.gs| - 1, OfPath) != [] && !s.gs[|s.gs| - 1].path.copy
    requires var ps := PointsOf(s, h, |s.gs| - 1, OfPath); ps[|ps| - 1].coord == StartOf(ps)
    ensures var top := |s.gs| - 1; var g := s.gs[top];
            var s' := s.(gs := s.gs[top := g.(path := g.path.(start := g.path.tail))]);
            Fits(s', h) && Kept(s, h, s', h, OfPath) && PointsOf(s', h, top, OfPath) == PointsOf(s, h, top, OfPath)
  {
    hide StartOf, Formed, FreeOk, PathOk, Describes, OthersOk;
    var top := |s.gs| - 1;
    var g := s.gs[top];
    var s' := s.(gs := s.gs[top := g.(path := g.path.(start := g.path.tail))]);
    assert PathOk(s, h, top, OfPath);
    FreeKept(s, h, s', h);
    assert h.lists[top := Put(h.lists[top], OfPath, In(h.lists[top], OfPath))] == h.lists;
    OthersFit(s, h, s', h, OfPath);
    ClosedOk(s, h, s');
    Assembled(s', h, OfPath);
  }

  lemma ClosedDescribes(elmts: seq<Elmt>, p: Path, ns: seq<nat>)
    requires Describes(elmts, p, ns) && ns != []
    requires Points(elmts, ns)[|ns| - 1].coord == StartOf(Points(elmts, ns))
    ensures Describes(elmts, p.(start := p.tail), ns)
  {
    hide StartOf, Formed, Chain, Encloses;
    assert InRange(ns, |elmts|) by { DescribesRange(elmts, p, ns); }
    assert ns[|ns| - 1] in ns;
  }

  lemma ClosedOk(s: Store, h: Shape, s': Store)
    requires s.gs != [] && PathOk(s, h, |s.gs| - 1, OfPath) && |s'.gs| == |s.gs| && s'.elmts == s.elmts
    requires PointsOf(s, h, |s.gs| - 1, OfPath) != []
    requires var ps := PointsOf(s, h, |s.gs| - 1, OfPath); ps[|ps| - 1].coord == StartOf(ps)
    requires var p := s.gs[|s.gs| - 1].path; s'.gs[|s.gs| - 1].path == p.(start := p.tail)
    ensures PathOk(s', h, |s.gs| - 1, OfPath)
  {
    hide StartOf, Describes;
    ClosedDescribes(s.elmts, s.gs[|s.gs| - 1].path, In(h.lists[|s.gs| - 1], OfPath));
  }

  lemma Emptied(s0: Store, h0: Shape, s1: Store, h1: Shape, s2: Store, h2: Shape)
    requires Kept(s0, h0, s1, h1, OfPath) && Kept(s1, h1, s2, h2, OfClip) && Fits(s2, h2)
    requires In(h1.lists[|s1.gs| - 1], OfPath) == [] && In(h2.lists[|s2.gs| - 1], OfClip) == []
    requires !Of(s1.gs[|s1.gs| - 1], OfPath).copy && !Of(s2.gs[|s2.gs| - 1], OfClip).copy
    ensures |s2.gs| == |s0.gs| == |h2.lists| == |h0.lists| >= 1
    ensures var top := |s2.gs| - 1; forall kind :: !Of(s2.gs[top], kind).copy && In(h2.lists[top], kind) == []
    ensures forall l :: 0 <= l < |s0.gs| - 1 ==> s2.gs[l] == s0.gs[l] && PictureOf(s2, h2, l) == PictureOf(s0, h0, l)
  {
    hide PointsOf, Fits;
    KeptSource(s1, h1, s2, h2, OfClip, |s1.gs| - 1, OfPath);
    assert forall kind: Kind :: kind.OfPath? || kind.OfClip?;
    forall l | 0 <= l < |s0.gs| - 1 ensures s2.gs[l] == s0.gs[l] && PictureOf(s2, h2, l) == PictureOf(s0, h0, l) {
      KeptSource(s0, h0, s1, h1, OfPath, l, OfPath);
      KeptSource(s0, h0, s1, h1, OfPath, l, OfClip);
      KeptSource(s1, h1, s2, h2, OfClip, l, OfPath);
      KeptSource(s1, h1, s2, h2, OfClip, l, OfClip);
    }
  }

  /** The elements are shared out: each is free, or in exactly one path that is not a copy. */
  lemma Partition(s: Store, h: Shape, e: nat)
    requires Fits(s, h) && e < |s.elmts|
    ensures e in h.freeNodes || exists l, k :: 0 <= l < |s.gs| && !Of(s.gs[l], k).copy && e in In(h.lists[l], k)
    ensures forall l, k :: 0 <= l < |s.gs| && !Of(s.gs[l], k).copy && e in In(h.lists[l], k) ==>
              e !in h.freeNodes
              && forall l', k' :: 0 <= l' < |s.gs| && !Of(s.gs[l'], k').copy && e in In(h.lists[l'], k') ==>
                l' == l && k' == k
  {
    hide Describes;
    forall l, k | 0 <= l < |s.gs| && !Of(s.gs[l], k).copy && e in In(h.lists[l], k) ensures h.home[e] == Held(l, k) {
      assert PathOk(s, h, l, k);
    }
    if h.home[e].Held? {
      assert PathOk(s, h, h.home[e].level, h.home[e].kind);
    }
  }
}
