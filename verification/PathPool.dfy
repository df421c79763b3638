/**
  Paths and their storage (PostScript/Adobe/path.c, graphics.c).

  Path elements live in chunks of a thousand and are linked through their next fields, either into the path of a
  graphics state or into one free list.  gsave shares the elements of the paths and marks the shares as copies; the
  first element added to a copy makes it a path of its own.  Here a state of the storage is a value, with a ghost
  shape that says which elements are where, and the lemmas say what a single change of the storage keeps.
 */
module PathPool {
  import opened Wrappers

  datatype Coord = Coord(x: real, y: real)

  datatype Tag = PathStart | PathLineTo | PathCurveTo | PathClose

  /** A path element as such. */
  datatype Point = Point(coord: Coord, tag: Tag)

  /** A path element in the storage. */
  datatype Elmt = Elmt(coord: Coord, tag: Tag, next: Option<nat>)

  datatype BBox = BBox(bl: Coord, tr: Coord)

  datatype Path = Path(head: Option<nat>, tail: Option<nat>, start: Option<nat>, bbox: BBox, copy: bool, secret: bool)

  datatype GState = GState(path: Path, clip: Path, cp: Coord, isCharPath: bool)

  datatype Kind = OfPath | OfClip

  const ORIGIN := Coord(0.0, 0.0)
  const EMPTY := Path(None, None, None, BBox(ORIGIN, ORIGIN), false, false)

  function Of(g: GState, kind: Kind): Path {
    if kind.OfPath? then g.path else g.clip
  }

  function With(g: GState, kind: Kind, p: Path): GState {
    if kind.OfPath? then g.(path := p) else g.(clip := p)
  }

  // ---------------------------------------------------------------- paths as values

  /** AddToPath as it acts on a path of its own: a moveto right after a moveto replaces it. */
  function AddPoint(points: seq<Point>, p: Point): seq<Point> {
    if p.tag.PathStart? && points != [] && points[|points| - 1].tag.PathStart? then points[..|points| - 1] + [p]
    else points + [p]
  }

  /** A path begins with a moveto and has no two in a row. */
  predicate Formed(points: seq<Point>) {
    (points != [] ==> points[0].tag.PathStart?)
    && forall i :: 0 < i < |points| ==> !(points[i - 1].tag.PathStart? && points[i].tag.PathStart?)
  }

  /** Where the current subpath began. */
  function StartOf(points: seq<Point>): Coord
    requires points != []
    decreases |points|
  {
    var last := points[|points| - 1];
    if last.tag.PathStart? || |points| == 1 then last.coord else StartOf(points[..|points| - 1])
  }

  lemma StartAppended(points: seq<Point>, p: Point)
    ensures StartOf(points + [p]) == if p.tag.PathStart? then p.coord else if points == [] then p.coord
              else StartOf(points)
  {
  }

  // ---------------------------------------------------------------- the shape of the storage

  /** The elements of the two paths of a graphics state. */
  datatype Nodes = Nodes(path: seq<nat>, clip: seq<nat>)

  function In(n: Nodes, kind: Kind): seq<nat> {
    if kind.OfPath? then n.path else n.clip
  }

  function Put(n: Nodes, kind: Kind, ns: seq<nat>): Nodes {
    if kind.OfPath? then n.(path := ns) else n.(clip := ns)
  }

  datatype Home = Free | Held(level: nat, kind: Kind)

  ghost predicate InRange(ns: seq<nat>, size: nat) {
    forall i :: 0 <= i < |ns| ==> ns[i] < size
  }

  ghost predicate Distinct(ns: seq<nat>) {
    forall i, j :: 0 <= i < j < |ns| ==> ns[i] != ns[j]
  }

  /** The element ns[i] is linked to the next of ns. */
  predicate Link(elmts: seq<Elmt>, ns: seq<nat>, i: nat) {
    i < |ns| && ns[i] < |elmts| && elmts[ns[i]].next == if i + 1 < |ns| then Some(ns[i + 1]) else None
  }

  /** ns are the elements linked from head on. */
  ghost predicate Chain(elmts: seq<Elmt>, head: Option<nat>, ns: seq<nat>) {
    && InRange(ns, |elmts|)
    && head == (if ns == [] then None else Some(ns[0]))
    && forall i: nat :: i < |ns| ==> Link(elmts, ns, i)
  }

  /** The element e as such. */
  function PointAt(elmts: seq<Elmt>, e: nat): Point {
    if e < |elmts| then Point(elmts[e].coord, elmts[e].tag) else Point(ORIGIN, PathStart)
  }

  function Points(elmts: seq<Elmt>, ns: seq<nat>): (ps: seq<Point>)
    ensures |ps| == |ns|
    ensures forall i :: 0 <= i < |ps| ==> ps[i] == PointAt(elmts, ns[i])
  {
    seq(|ns|, i requires 0 <= i < |ns| => PointAt(elmts, ns[i]))
  }

  predicate Encloses(b: BBox, c: Coord) {
    b.bl.x <= c.x <= b.tr.x && b.bl.y <= c.y <= b.tr.y
  }

  /** The record p describes the path with the elements ns. */
  ghost predicate Describes(elmts: seq<Elmt>, p: Path, ns: seq<nat>) {
    && Chain(elmts, p.head, ns)
    && p.tail == (if ns == [] then None else Some(ns[|ns| - 1]))
    && Formed(Points(elmts, ns))
    && (ns != [] ==> p.start.Some? && p.start.value in ns
                     && elmts[p.start.value].coord == StartOf(Points(elmts, ns)))
    && (forall i :: 0 <= i < |ns| ==> Encloses(p.bbox, elmts[ns[i]].coord))
  }

  /** The storage: its elements, the free list, and the stack of graphics states with its top last. */
  datatype Store = Store(elmts: seq<Elmt>, free: Option<nat>, gs: seq<GState>)

  /** Which elements are free, which are in which path, and where every single element is at home. */
  datatype Shape = Shape(freeNodes: seq<nat>, lists: seq<Nodes>, home: seq<Home>)

  ghost predicate FreeOk(s: Store, h: Shape) {
    && |h.home| == |s.elmts| && Chain(s.elmts, s.free, h.freeNodes) && Distinct(h.freeNodes)
    && forall e :: 0 <= e < |s.elmts| ==> (h.home[e].Free? <==> e in h.freeNodes)
  }

  /** At home in a path of the given kind, at the level l or below. */
  predicate HomedBy(home: Home, l: nat, kind: Kind) {
    home.Held? && home.kind == kind && home.level <= l
  }

  /** A path of its own holds exactly the elements at home there; a copy shares the path of the state below. */
  ghost predicate PathOk(s: Store, h: Shape, l: nat, kind: Kind) {
    && l < |s.gs| == |h.lists| && |h.home| == |s.elmts|
    && var p, ns := Of(s.gs[l], kind), In(h.lists[l], kind);
    && Describes(s.elmts, p, ns) && Distinct(ns)
    && (forall e :: e in ns ==> e < |h.home| && HomedBy(h.home[e], l, kind))
    && (if p.copy then l > 0 && ns == In(h.lists[l - 1], kind) else forall e :: e in ns ==> h.home[e] == Held(l, kind))
    && (forall e :: 0 <= e < |s.elmts| && h.home[e] == Held(l, kind) ==> !p.copy && e in ns)
  }

  /** No element is at home above the top. */
  ghost predicate HomesOk(h: Shape, levels: nat) {
    forall e :: 0 <= e < |h.home| && h.home[e].Held? ==> h.home[e].level < levels
  }

  ghost predicate Fits(s: Store, h: Shape) {
    && |s.gs| == |h.lists| >= 1 && |h.home| == |s.elmts|
    && HomesOk(h, |s.gs|)
    && FreeOk(s, h)
    && (forall l, kind :: 0 <= l < |s.gs| ==> PathOk(s, h, l, kind))
  }

  function PointsOf(s: Store, h: Shape, l: nat, kind: Kind): seq<Point>
    requires l < |h.lists|
  {
    Points(s.elmts, In(h.lists[l], kind))
  }

  // ---------------------------------------------------------------- what a change of the storage keeps

  lemma DescribesKept(elmts: seq<Elmt>, elmts': seq<Elmt>, p: Path, ns: seq<nat>)
    requires Describes(elmts, p, ns) && |elmts| <= |elmts'|
    requires forall i :: 0 <= i < |ns| ==> elmts'[ns[i]] == elmts[ns[i]]
    ensures Describes(elmts', p, ns) && Points(elmts', ns) == Points(elmts, ns)
  {
    hide StartOf, Formed;
    assert Points(elmts', ns) == Points(elmts, ns);
    forall i: nat | i < |ns| ensures Link(elmts', ns, i) {
      assert Link(elmts, ns, i) && elmts'[ns[i]] == elmts[ns[i]];
    }
    assert forall i :: 0 <= i < |ns| ==> Encloses(p.bbox, elmts'[ns[i]].coord);
    if ns != [] {
      var i :| 0 <= i < |ns| && ns[i] == p.start.value;
      assert elmts'[ns[i]] == elmts[ns[i]];
    }
  }

  /** A path is as it was when its record and its elements are, and no element has come home to it or left it. */
  lemma PathKept(s: Store, h: Shape, s': Store, h': Shape, l: nat, kind: Kind)
    requires l < |s.gs| == |h.lists| && l < |s'.gs| == |h'.lists| && |h.home| == |s.elmts| <= |s'.elmts| == |h'.home|
    requires PathOk(s, h, l, kind)
    requires Of(s'.gs[l], kind) == Of(s.gs[l], kind) && In(h'.lists[l], kind) == In(h.lists[l], kind)
    requires l > 0 && Of(s.gs[l], kind).copy ==> In(h'.lists[l - 1], kind) == In(h.lists[l - 1], kind)
    requires forall e :: 0 <= e < |s.elmts| && h.home[e].Held? && h.home[e].level <= l && h.home[e].kind == kind ==>
               s'.elmts[e] == s.elmts[e] && h'.home[e] == h.home[e]
    requires forall e :: 0 <= e < |s'.elmts| && h'.home[e] == Held(l, kind) ==>
               e < |s.elmts| && h.home[e] == Held(l, kind)
    ensures PathOk(s', h', l, kind)
    ensures PointsOf(s', h', l, kind) == PointsOf(s, h, l, kind)
  {
    hide Describes;
    var ns := In(h.lists[l], kind);
    DescribesRange(s.elmts, Of(s.gs[l], kind), ns);
    DescribesKept(s.elmts, s'.elmts, Of(s.gs[l], kind), ns);
  }

  lemma SizesFit(s: Store, h: Shape)
    requires Fits(s, h)
    ensures |s.gs| == |h.lists| >= 1 && |h.home| == |s.elmts| && HomesOk(h, |s.gs|)
    ensures var top := |s.gs| - 1; forall kind :: PathOk(s, h, top, kind)
  {
  }

  lemma DescribesRange(elmts: seq<Elmt>, p: Path, ns: seq<nat>)
    requires Describes(elmts, p, ns)
    ensures InRange(ns, |elmts|)
  {
  }

  /** gsave: the top is doubled, and the paths of the new top are copies. */
  function Saved(s: Store): Store
    requires s.gs != []
  {
    var g := s.gs[|s.gs| - 1];
    s.(gs := s.gs + [g.(path := g.path.(copy := true), clip := g.clip.(copy := true))])
  }

  function SavedShape(h: Shape): Shape
    requires h.lists != []
  {
    h.(lists := h.lists + [h.lists[|h.lists| - 1]])
  }

  lemma SaveFits(s: Store, h: Shape)
    requires Fits(s, h)
    ensures Fits(Saved(s), SavedShape(h))
    ensures forall l, kind :: 0 <= l < |s.gs| ==> PointsOf(Saved(s), SavedShape(h), l, kind) == PointsOf(s, h, l, kind)
    ensures forall kind :: PointsOf(Saved(s), SavedShape(h), |s.gs|, kind) == PointsOf(s, h, |s.gs| - 1, kind)
  {
    hide Describes, FreeOk;
    var s', h' := Saved(s), SavedShape(h);
    FreeKept(s, h, s', h');
    var top := |s.gs| - 1;
    forall l, kind | 0 <= l < |s'.gs| ensures PathOk(s', h', l, kind) {
      if l <= top {
        PathKept(s, h, s', h', l, kind);
      } else {
        assert PathOk(s, h, top, kind);
        CopyDescribes(s.elmts, Of(s.gs[top], kind), In(h.lists[top], kind));
      }
    }
  }

  lemma CopyDescribes(elmts: seq<Elmt>, p: Path, ns: seq<nat>)
    requires Describes(elmts, p, ns)
    ensures Describes(elmts, p.(copy := true), ns)
  {
  }

  /** The record of a path is cleared: a copy is let go, or the path has no elements left. */
  lemma ClearFits(s: Store, h: Shape, kind: Kind, secret: bool)
    requires Fits(s, h)
    requires var top := |s.gs| - 1; Of(s.gs[top], kind).copy || In(h.lists[top], kind) == []
    ensures var top := |s.gs| - 1;
            var s' := s.(gs := s.gs[top := With(s.gs[top], kind, EMPTY.(secret := secret))]);
            var h' := h.(lists := h.lists[top := Put(h.lists[top], kind, [])]);
            Fits(s', h') && OthersSame(s, h, s', h', kind) && PointsOf(s', h', top, kind) == []
  {
    hide Describes, FreeOk;
    var top := |s.gs| - 1;
    var s' := s.(gs := s.gs[top := With(s.gs[top], kind, EMPTY.(secret := secret))]);
    var h' := h.(lists := h.lists[top := Put(h.lists[top], kind, [])]);
    FreeKept(s, h, s', h');
    assert PathOk(s, h, top, kind);
    EmptyDescribes(s.elmts, secret);
    OthersFit(s, h, s', h', kind);
    Assembled(s', h', kind);
  }

  lemma EmptyDescribes(elmts: seq<Elmt>, secret: bool)
    ensures Describes(elmts, EMPTY.(secret := secret), [])
  {
  }

  /** The end of grestore: the top goes, its paths being empty. */
  lemma DropFits(s: Store, h: Shape)
    requires Fits(s, h) && |s.gs| > 1
    requires var top := |s.gs| - 1; forall kind :: !Of(s.gs[top], kind).copy && In(h.lists[top], kind) == []
    ensures var s', h' := s.(gs := s.gs[..|s.gs| - 1]), h.(lists := h.lists[..|s.gs| - 1]);
            Fits(s', h') && forall l, kind :: 0 <= l < |s'.gs| ==> PointsOf(s', h', l, kind) == PointsOf(s, h, l, kind)
  {
    hide Describes, FreeOk, PathOk;
    var top := |s.gs| - 1;
    var s', h' := s.(gs := s.gs[..top]), h.(lists := h.lists[..top]);
    FreeKept(s, h, s', h');
    NoneAtHome(s, h, OfPath);
    NoneAtHome(s, h, OfClip);
    assert forall kind: Kind :: kind.OfPath? || kind.OfClip?;
    forall l, kind | 0 <= l < top ensures PathOk(s', h', l, kind) {
      assert PathOk(s, h, l, kind);
      PathKept(s, h, s', h', l, kind);
    }
  }

  lemma NoneAtHome(s: Store, h: Shape, kind: Kind)
    requires Fits(s, h) && In(h.lists[|s.gs| - 1], kind) == []
    ensures forall e :: 0 <= e < |s.elmts| ==> h.home[e] != Held(|s.gs| - 1, kind)
  {
    assert PathOk(s, h, |s.gs| - 1, kind);
  }

  /** A change touches one path of the top, and elements that are free or at home in that path. */
  ghost predicate ChangesOnly(s: Store, h: Shape, s': Store, h': Shape, kind: Kind) {
    && |s'.gs| == |s.gs| == |h.lists| == |h'.lists| >= 1 && |h.home| == |s.elmts| <= |s'.elmts| == |h'.home|
    && var top := |s.gs| - 1;
    && s'.gs == s.gs[top := With(s.gs[top], kind, Of(s'.gs[top], kind))]
    && h'.lists == h.lists[top := Put(h.lists[top], kind, In(h'.lists[top], kind))]
    && (forall e :: 0 <= e < |s.elmts| && h.home[e].Held? && !AtHomeIn(h.home[e], top, kind) ==>
          s'.elmts[e] == s.elmts[e] && h'.home[e] == h.home[e])
    && (forall e :: 0 <= e < |s'.elmts| && h'.home[e].Held? && !AtHomeIn(h'.home[e], top, kind) ==>
          e < |s.elmts| && h.home[e] == h'.home[e])
  }

  predicate AtHomeIn(home: Home, l: int, kind: Kind) {
    home.Held? && home.level == l && home.kind == kind
  }

  /** All paths but one of the top hold the points they held. */
  ghost predicate OthersSame(s: Store, h: Shape, s': Store, h': Shape, kind: Kind) {
    |h'.lists| == |h.lists| && forall l, k :: 0 <= l < |h.lists| && (l != |h.lists| - 1 || k != kind) ==>
      PointsOf(s', h', l, k) == PointsOf(s, h, l, k)
  }

  ghost predicate OthersOk(s: Store, h: Shape, kind: Kind) {
    forall l, k :: 0 <= l < |s.gs| && (l != |s.gs| - 1 || k != kind) ==> PathOk(s, h, l, k)
  }

  lemma Assembled(s: Store, h: Shape, kind: Kind)
    requires |s.gs| == |h.lists| >= 1 && |h.home| == |s.elmts| && FreeOk(s, h)
    requires HomesOk(h, |s.gs|) && OthersOk(s, h, kind) && PathOk(s, h, |s.gs| - 1, kind)
    ensures Fits(s, h)
  {
    hide PathOk, FreeOk;
  }

  /** A change of one path at the top, and of free elements, keeps all other paths. */
  lemma OthersFit(s: Store, h: Shape, s': Store, h': Shape, kind: Kind)
    requires Fits(s, h) && ChangesOnly(s, h, s', h', kind)
    ensures OthersOk(s', h', kind) && OthersSame(s, h, s', h', kind)
  {
    hide Describes, FreeOk, PathOk;
    forall l, k | 0 <= l < |s.gs| && (l != |s.gs| - 1 || k != kind)
      ensures PathOk(s', h', l, k) && PointsOf(s', h', l, k) == PointsOf(s, h, l, k)
    {
      assert PathOk(s, h, l, k);
      PathKept(s, h, s', h', l, k);
    }
  }

  function Widened(b: BBox, c: Coord): BBox {
    BBox(Coord(if b.bl.x > c.x then c.x else b.bl.x, if b.bl.y > c.y then c.y else b.bl.y),
         Coord(if b.bl.x > c.x then b.tr.x else if b.tr.x < c.x then c.x else b.tr.x,
               if b.bl.y > c.y then b.tr.y else if b.tr.y < c.y then c.y else b.tr.y))
  }

  /** The record after e has become the last element. */
  function Extended(p: Path, e: nat, coord: Coord, tag: Tag): Path {
    Path(if p.tail.None? then Some(e) else p.head, Some(e), if tag.PathStart? then Some(e) else p.start,
         if p.tail.None? then BBox(coord, coord) else Widened(p.bbox, coord), p.copy, p.secret)
  }

  /** The elements after e has been taken and linked behind tail. */
  function Linked(elmts: seq<Elmt>, tail: Option<nat>, e: nat, coord: Coord, tag: Tag): seq<Elmt>
    requires e < |elmts| && (tail.Some? ==> tail.value < |elmts|)
  {
    var el := elmts[e := Elmt(coord, tag, None)];
    if tail.Some? && tail.value != e then el[tail.value := el[tail.value].(next := Some(e))] else el
  }

  lemma AppendDescribes(elmts: seq<Elmt>, p: Path, ns: seq<nat>, e: nat, coord: Coord, tag: Tag)
    requires Describes(elmts, p, ns) && Distinct(ns) && e < |elmts| && e !in ns
    requires Formed(Points(elmts, ns) + [Point(coord, tag)])
    ensures Describes(Linked(elmts, p.tail, e, coord, tag), Extended(p, e, coord, tag), ns + [e])
    ensures Points(Linked(elmts, p.tail, e, coord, tag), ns + [e]) == Points(elmts, ns) + [Point(coord, tag)]
  {
    hide Formed, StartOf, Chain;
    DescribesRange(elmts, p, ns);
    var el := Linked(elmts, p.tail, e, coord, tag);
    AppendChains(elmts, p, ns, e, coord, tag);
    assert Points(el, ns + [e]) == Points(elmts, ns) + [Point(coord, tag)];
    StartAppended(Points(elmts, ns), Point(coord, tag));
    if ns == [] {
      FirstIsStart(Points(elmts, ns), Point(coord, tag));
    }
  }

  lemma AppendChains(elmts: seq<Elmt>, p: Path, ns: seq<nat>, e: nat, coord: Coord, tag: Tag)
    requires Chain(elmts, p.head, ns) && p.tail == (if ns == [] then None else Some(ns[|ns| - 1]))
    requires Distinct(ns) && e < |elmts| && e !in ns
    ensures InRange(ns, |elmts|)
    ensures Chain(Linked(elmts, p.tail, e, coord, tag), Extended(p, e, coord, tag).head, ns + [e])
    ensures var el := Linked(elmts, p.tail, e, coord, tag);
            forall i :: 0 <= i < |ns| ==> el[ns[i]].coord == elmts[ns[i]].coord && el[ns[i]].tag == elmts[ns[i]].tag
  {
    var el := Linked(elmts, p.tail, e, coord, tag);
    forall i: nat | i < |ns| + 1 ensures Link(el, ns + [e], i) {
      if i < |ns| {
        assert Link(elmts, ns, i);
      }
    }
  }

  lemma FirstIsStart(points: seq<Point>, p: Point)
    requires points == [] && Formed(points + [p])
    ensures p.tag.PathStart?
  {
  }

  lemma ReplaceDescribes(elmts: seq<Elmt>, p: Path, ns: seq<nat>, coord: Coord)
    requires Describes(elmts, p, ns) && Distinct(ns) && ns != [] && PointAt(elmts, ns[|ns| - 1]).tag.PathStart?
    ensures InRange(ns, |elmts|)
    ensures var e := ns[|ns| - 1];
            var el := Linked(elmts, p.tail, e, coord, PathStart);
            Describes(el, Extended(p, e, coord, PathStart), ns)
            && Points(el, ns) == AddPoint(Points(elmts, ns), Point(coord, PathStart))
  {
    hide Formed, StartOf;
    var n := |ns| - 1;
    var e := ns[n];
    var el := Linked(elmts, p.tail, e, coord, PathStart);
    assert forall i :: 0 <= i < n ==> ns[i] != e;
    forall i: nat | i < |ns| ensures Link(el, ns, i) {
      assert Link(elmts, ns, i);
    }
    var ps := Points(elmts, ns);
    assert Points(el, ns) == ps[..n] + [Point(coord, PathStart)];
    ReplacedStart(ps, Point(coord, PathStart));
  }

  lemma ReplacedStart(points: seq<Point>, p: Point)
    requires Formed(points) && points != [] && points[|points| - 1].tag.PathStart? && p.tag.PathStart?
    ensures Formed(points[..|points| - 1] + [p]) && StartOf(points[..|points| - 1] + [p]) == p.coord
  {
  }

  /** The store after the head of the free list has become the last element of a path of the top. */
  function Appended(s: Store, kind: Kind, coord: Coord, tag: Tag): Store
    requires s.gs != [] && s.free.Some? && s.free.value < |s.elmts|
    requires var t := Of(s.gs[|s.gs| - 1], kind).tail; t.Some? ==> t.value < |s.elmts|
  {
    var top, e := |s.gs| - 1, s.free.value;
    var p := Of(s.gs[top], kind);
    Store(Linked(s.elmts, p.tail, e, coord, tag), s.elmts[e].next,
      s.gs[top := With(s.gs[top], kind, Extended(p, e, coord, tag))])
  }

  function AppendedShape(h: Shape, kind: Kind): Shape
    requires h.lists != [] && h.freeNodes != [] && h.freeNodes[0] < |h.home|
  {
    var top, e := |h.lists| - 1, h.freeNodes[0];
    Shape(h.freeNodes[1..], h.lists[top := Put(h.lists[top], kind, In(h.lists[top], kind) + [e])],
      h.home[e := Held(top, kind)])
  }

  lemma FreeHead(s: Store, h: Shape)
    requires Fits(s, h) && s.free.Some?
    ensures h.freeNodes != [] && s.free.value == h.freeNodes[0] < |s.elmts| && h.home[s.free.value].Free?
  {
  }

  lemma TailInRange(s: Store, h: Shape, kind: Kind)
    requires Fits(s, h)
    ensures var t := Of(s.gs[|s.gs| - 1], kind).tail;
            t.Some? ==> t.value < |s.elmts| && In(h.lists[|s.gs| - 1], kind) != []
                        && t.value == In(h.lists[|s.gs| - 1], kind)[|In(h.lists[|s.gs| - 1], kind)| - 1]
  {
    assert PathOk(s, h, |s.gs| - 1, kind);
  }

  lemma AppendFits(s: Store, h: Shape, kind: Kind, coord: Coord, tag: Tag)
    requires Fits(s, h) && s.free.Some? && !Of(s.gs[|s.gs| - 1], kind).copy
    requires Formed(PointsOf(s, h, |s.gs| - 1, kind) + [Point(coord, tag)])
    ensures h.freeNodes != [] && s.free.value == h.freeNodes[0] < |s.elmts|
    ensures var t := Of(s.gs[|s.gs| - 1], kind).tail; t.Some? ==> t.value < |s.elmts|
    ensures Fits(Appended(s, kind, coord, tag), AppendedShape(h, kind))
    ensures OthersSame(s, h, Appended(s, kind, coord, tag), AppendedShape(h, kind), kind)
    ensures PointsOf(Appended(s, kind, coord, tag), AppendedShape(h, kind), |s.gs| - 1, kind)
            == PointsOf(s, h, |s.gs| - 1, kind) + [Point(coord, tag)]
  {
    hide Describes, FreeOk, Chain, Formed, PathOk, Points, OthersSame, OthersOk, ChangesOnly, Fits, HomesOk;
    hide Linked, Extended;
    SizesFit(s, h);
    FreeHead(s, h);
    TailInRange(s, h, kind);
    var top := |s.gs| - 1;
    var s', h' := Appended(s, kind, coord, tag), AppendedShape(h, kind);
    var p, ns := Of(s.gs[top], kind), In(h.lists[top], kind);
    OwnFacts(s, h, kind);
    assert s.free.value !in ns;
    AppendDescribes(s.elmts, p, ns, s.free.value, coord, tag);
    AppendChanges(s, h, kind, coord, tag);
    OthersFit(s, h, s', h', kind);
    AppendFree(s, h, kind, coord, tag);
    OwnAppended(s, h, s', h', kind);
    Assembled(s', h', kind);
  }

  lemma AppendChanges(s: Store, h: Shape, kind: Kind, coord: Coord, tag: Tag)
    requires |s.gs| == |h.lists| >= 1 && |h.home| == |s.elmts| && HomesOk(h, |s.gs|)
    requires h.freeNodes != [] && s.free == Some(h.freeNodes[0]) && s.free.value < |s.elmts|
               && h.home[s.free.value].Free?
    requires var t := Of(s.gs[|s.gs| - 1], kind).tail;
             t.Some? ==> t.value < |s.elmts| && AtHomeIn(h.home[t.value], |s.gs| - 1, kind)
    ensures ChangesOnly(s, h, Appended(s, kind, coord, tag), AppendedShape(h, kind), kind)
    ensures HomesOk(AppendedShape(h, kind), |s.gs|)
    ensures |Appended(s, kind, coord, tag).elmts| == |s.elmts|
    ensures Of(Appended(s, kind, coord, tag).gs[|s.gs| - 1], kind).copy == Of(s.gs[|s.gs| - 1], kind).copy
  {
    hide Linked;
    LinkedElsewhere(s.elmts, Of(s.gs[|s.gs| - 1], kind).tail, s.free.value, coord, tag);
  }

  lemma OwnFacts(s: Store, h: Shape, kind: Kind)
    requires s.gs != [] && PathOk(s, h, |s.gs| - 1, kind)
    ensures var top := |s.gs| - 1; var p, ns := Of(s.gs[top], kind), In(h.lists[top], kind);
            && Describes(s.elmts, p, ns) && Distinct(ns) && InRange(ns, |s.elmts|)
            && (!p.copy ==> forall e :: e in ns ==> h.home[e] == Held(top, kind))
  {
  }

  lemma OwnAppended(s: Store, h: Shape, s': Store, h': Shape, kind: Kind)
    requires s.gs != [] && PathOk(s, h, |s.gs| - 1, kind) && !Of(s.gs[|s.gs| - 1], kind).copy
    requires h.freeNodes != [] && h.freeNodes[0] < |h.home| && h.home[h.freeNodes[0]].Free?
    requires h' == AppendedShape(h, kind) && |s'.gs| == |s.gs| && |s'.elmts| == |s.elmts|
    requires !Of(s'.gs[|s.gs| - 1], kind).copy
    requires Describes(s'.elmts, Of(s'.gs[|s.gs| - 1], kind), In(h'.lists[|s.gs| - 1], kind))
    ensures PathOk(s', h', |s.gs| - 1, kind)
  {
    hide Describes;
    var top, e := |s.gs| - 1, h.freeNodes[0];
    var ns, ns' := In(h.lists[top], kind), In(h'.lists[top], kind);
    assert ns' == ns + [e];
    DescribesRange(s.elmts, Of(s.gs[top], kind), ns);
    assert e !in ns;
    forall d | 0 <= d < |s'.elmts| && h'.home[d] == Held(top, kind) ensures d in ns' {
      if d != e {
        assert h.home[d] == Held(top, kind);
      }
    }
  }

  lemma AppendFree(s: Store, h: Shape, kind: Kind, coord: Coord, tag: Tag)
    requires Fits(s, h) && s.free.Some?
    ensures h.freeNodes != [] && s.free.value == h.freeNodes[0] < |s.elmts|
    ensures var t := Of(s.gs[|s.gs| - 1], kind).tail; t.Some? ==> t.value < |s.elmts|
    ensures FreeOk(Appended(s, kind, coord, tag), AppendedShape(h, kind))
  {
    hide Describes;
    FreeHead(s, h);
    TailInRange(s, h, kind);
    TailNotFree(s, h, kind);
    var s', h' := Appended(s, kind, coord, tag), AppendedShape(h, kind);
    var fs, e := h.freeNodes, s.free.value;
    assert Link(s.elmts, fs, 0);
    forall i: nat | i < |h'.freeNodes| ensures Link(s'.elmts, h'.freeNodes, i) {
      assert Link(s.elmts, fs, i + 1) && fs[i + 1] in fs && fs[i + 1] != e;
    }
    forall d | 0 <= d < |s.elmts| ensures h'.home[d].Free? <==> d in h'.freeNodes {
      if d in fs && d != e {
        var i :| 0 <= i < |fs| && fs[i] == d;
        assert h'.freeNodes[i - 1] == d;
      }
    }
  }

  lemma TailNotFree(s: Store, h: Shape, kind: Kind)
    requires Fits(s, h)
    ensures var t := Of(s.gs[|s.gs| - 1], kind).tail; t.Some? ==> t.value < |s.elmts| && t.value !in h.freeNodes
  {
    hide Describes;
    TailInRange(s, h, kind);
    assert PathOk(s, h, |s.gs| - 1, kind);
  }

  /** The store after the last element of a path of the top, a moveto, has been overwritten. */
  function Replaced(s: Store, kind: Kind, coord: Coord): Store
    requires s.gs != [] && Of(s.gs[|s.gs| - 1], kind).tail.Some?
    requires Of(s.gs[|s.gs| - 1], kind).tail.value < |s.elmts|
  {
    var top := |s.gs| - 1;
    var p := Of(s.gs[top], kind);
    Store(Linked(s.elmts, p.tail, p.tail.value, coord, PathStart), s.free,
          s.gs[top := With(s.gs[top], kind, Extended(p, p.tail.value, coord, PathStart))])
  }

  lemma ReplaceFits(s: Store, h: Shape, kind: Kind, coord: Coord)
    requires Fits(s, h) && !Of(s.gs[|s.gs| - 1], kind).copy && Of(s.gs[|s.gs| - 1], kind).tail.Some?
    requires PointAt(s.elmts, Of(s.gs[|s.gs| - 1], kind).tail.value).tag.PathStart?
    ensures Of(s.gs[|s.gs| - 1], kind).tail.value < |s.elmts|
    ensures Fits(Replaced(s, kind, coord), h) && OthersSame(s, h, Replaced(s, kind, coord), h, kind)
    ensures PointsOf(Replaced(s, kind, coord), h, |s.gs| - 1, kind)
            == AddPoint(PointsOf(s, h, |s.gs| - 1, kind), Point(coord, PathStart))
  {
    hide Describes, FreeOk, Chain, Formed, PathOk, Points, Distinct, OthersSame, OthersOk, Fits, HomesOk;
    hide Linked, Extended, AddPoint;
    SizesFit(s, h);
    TailInRange(s, h, kind);
    var top := |s.gs| - 1;
    var s' := Replaced(s, kind, coord);
    OwnFacts(s, h, kind);
    ReplaceDescribes(s.elmts, Of(s.gs[top], kind), In(h.lists[top], kind), coord);
    ReplaceOthers(s, h, kind, coord);
    ReplaceFree(s, h, kind, coord);
    SameSize(s.elmts, Of(s.gs[top], kind), coord);
    OwnReplaced(s, h, s', kind);
    Assembled(s', h, kind);
  }

  lemma SameSize(elmts: seq<Elmt>, p: Path, coord: Coord)
    requires p.tail.Some? && p.tail.value < |elmts|
    ensures |Linked(elmts, p.tail, p.tail.value, coord, PathStart)| == |elmts|
    ensures Extended(p, p.tail.value, coord, PathStart).copy == p.copy
  {
  }

  lemma ReplaceOthers(s: Store, h: Shape, kind: Kind, coord: Coord)
    requires Fits(s, h) && Of(s.gs[|s.gs| - 1], kind).tail.Some? && !Of(s.gs[|s.gs| - 1], kind).copy
    ensures Of(s.gs[|s.gs| - 1], kind).tail.value < |s.elmts|
    ensures OthersOk(Replaced(s, kind, coord), h, kind) && OthersSame(s, h, Replaced(s, kind, coord), h, kind)
  {
    hide Describes, FreeOk, Chain, PathOk, Points, Distinct, OthersOk, OthersSame, Fits, HomesOk, Linked;
    hide Extended, ChangesOnly;
    SizesFit(s, h);
    TailInRange(s, h, kind);
    OwnFacts(s, h, kind);
    ReplaceChanges(s, h, kind, coord);
    OthersFit(s, h, Replaced(s, kind, coord), h, kind);
  }

  lemma ReplaceChanges(s: Store, h: Shape, kind: Kind, coord: Coord)
    requires |s.gs| == |h.lists| >= 1 && |h.home| == |s.elmts|
    requires Of(s.gs[|s.gs| - 1], kind).tail.Some? && Of(s.gs[|s.gs| - 1], kind).tail.value < |s.elmts|
    requires AtHomeIn(h.home[Of(s.gs[|s.gs| - 1], kind).tail.value], |s.gs| - 1, kind)
    ensures ChangesOnly(s, h, Replaced(s, kind, coord), h, kind)
  {
    hide Linked, Extended;
    var top := |s.gs| - 1;
    var p := Of(s.gs[top], kind);
    LinkedElsewhere(s.elmts, p.tail, p.tail.value, coord, PathStart);
    assert h.lists[top] == Put(h.lists[top], kind, In(h.lists[top], kind));
  }

  lemma LinkedElsewhere(elmts: seq<Elmt>, tail: Option<nat>, e: nat, coord: Coord, tag: Tag)
    requires e < |elmts| && (tail.Some? ==> tail.value < |elmts|)
    ensures var el := Linked(elmts, tail, e, coord, tag);
            |el| == |elmts| && forall d :: 0 <= d < |el| && d != e && tail != Some(d) ==> el[d] == elmts[d]
  {
  }

  lemma ReplaceFree(s: Store, h: Shape, kind: Kind, coord: Coord)
    requires Fits(s, h) && Of(s.gs[|s.gs| - 1], kind).tail.Some?
    ensures Of(s.gs[|s.gs| - 1], kind).tail.value < |s.elmts|
    ensures FreeOk(Replaced(s, kind, coord), h)
  {
    hide Describes, PathOk;
    TailInRange(s, h, kind);
    TailNotFree(s, h, kind);
    FreeKept(s, h, Replaced(s, kind, coord), h);
  }

  lemma OwnReplaced(s: Store, h: Shape, s': Store, kind: Kind)
    requires s.gs != [] && PathOk(s, h, |s.gs| - 1, kind) && !Of(s.gs[|s.gs| - 1], kind).copy
    requires |s'.gs| == |s.gs| && |s'.elmts| == |s.elmts| && !Of(s'.gs[|s.gs| - 1], kind).copy
    requires Describes(s'.elmts, Of(s'.gs[|s.gs| - 1], kind), In(h.lists[|s.gs| - 1], kind))
    ensures PathOk(s', h, |s.gs| - 1, kind)
  {
  }

  lemma FreeKept(s: Store, h: Shape, s': Store, h': Shape)
    requires FreeOk(s, h) && s'.free == s.free && h'.freeNodes == h.freeNodes && h'.home == h.home
               && |s'.elmts| == |s.elmts|
    requires forall e :: 0 <= e < |s.elmts| && h.home[e].Free? ==> s'.elmts[e] == s.elmts[e]
    ensures FreeOk(s', h')
  {
    forall i: nat | i < |h.freeNodes| ensures Link(s'.elmts, h.freeNodes, i) {
      assert Link(s.elmts, h.freeNodes, i) && h.freeNodes[i] in h.freeNodes;
    }
  }

  const PATH_ELMTS_PER_CHUNK := 1000

  /** The numbers from lo to hi - 1. */
  function Span(lo: nat, hi: nat): (r: seq<nat>)
    requires lo <= hi
    ensures |r| == hi - lo && forall i :: 0 <= i < |r| ==> r[i] == lo + i
  {
    seq(hi - lo, i => lo + i)
  }

  function GrownShape(h: Shape, size: nat): Shape {
    Shape(Span(size, size + PATH_ELMTS_PER_CHUNK), h.lists, h.home + seq(PATH_ELMTS_PER_CHUNK, _ => Free))
  }

  /** A new chunk becomes the free list when there was none. */
  lemma GrowFits(s: Store, h: Shape, s': Store)
    requires Fits(s, h) && s.free.None? && s'.gs == s.gs && s'.free == Some(|s.elmts|)
    requires |s'.elmts| == |s.elmts| + PATH_ELMTS_PER_CHUNK && s'.elmts[..|s.elmts|] == s.elmts
    requires forall i: nat :: i < PATH_ELMTS_PER_CHUNK ==> Link(s'.elmts, Span(|s.elmts|, |s'.elmts|), i)
    ensures Fits(s', GrownShape(h, |s.elmts|))
    ensures forall l, k :: 0 <= l < |s.gs| ==> PointsOf(s', GrownShape(h, |s.elmts|), l, k) == PointsOf(s, h, l, k)
  {
    hide Describes, PathOk;
    var h' := GrownShape(h, |s.elmts|);
    var n := |s.elmts|;
    assert forall e :: 0 <= e < n ==> s'.elmts[e] == s.elmts[e] && h'.home[e] == h.home[e];
    forall l, k | 0 <= l < |s.gs| ensures PathOk(s', h', l, k) && PointsOf(s', h', l, k) == PointsOf(s, h, l, k) {
      assert PathOk(s, h, l, k);
      PathKept(s, h, s', h', l, k);
    }
    GrowFree(s, h, s');
  }

  lemma GrowFree(s: Store, h: Shape, s': Store)
    requires FreeOk(s, h) && s.free.None? && s'.free == Some(|s.elmts|)
    requires |s'.elmts| == |s.elmts| + PATH_ELMTS_PER_CHUNK
    requires forall i: nat :: i < PATH_ELMTS_PER_CHUNK ==> Link(s'.elmts, Span(|s.elmts|, |s'.elmts|), i)
    ensures FreeOk(s', GrownShape(h, |s.elmts|))
  {
    var h' := GrownShape(h, |s.elmts|);
    var n := |s.elmts|;
    forall e | 0 <= e < |s'.elmts| ensures h'.home[e].Free? <==> e in h'.freeNodes {
      if e >= n {
        assert h'.freeNodes[e - n] == e;
      }
    }
  }

  function ReleasedShape(h: Shape, kind: Kind, freeNodes: seq<nat>): Shape
    requires h.lists != []
  {
    var top := |h.lists| - 1;
    var ns := In(h.lists[top], kind);
    Shape(freeNodes, h.lists[top := Put(h.lists[top], kind, [])],
          seq(|h.home|, e requires 0 <= e < |h.home| => if e in ns then Free else h.home[e]))
  }

  /** The elements of a path of the top have gone to the free list, and its record has been cleared. */
  lemma ReleaseFits(s: Store, h: Shape, kind: Kind, s': Store, freeNodes: seq<nat>)
    requires Fits(s, h) && !Of(s.gs[|s.gs| - 1], kind).copy && |s'.elmts| == |s.elmts|
    requires s'.gs == s.gs[|s.gs| - 1 := With(s.gs[|s.gs| - 1], kind, EMPTY)]
    requires forall e :: 0 <= e < |s.elmts| && e !in In(h.lists[|s.gs| - 1], kind) ==> s'.elmts[e] == s.elmts[e]
    requires Chain(s'.elmts, s'.free, freeNodes) && Distinct(freeNodes)
    requires forall e: nat :: e in freeNodes <==> e in h.freeNodes || e in In(h.lists[|s.gs| - 1], kind)
    ensures Fits(s', ReleasedShape(h, kind, freeNodes))
    ensures OthersSame(s, h, s', ReleasedShape(h, kind, freeNodes), kind)
    ensures PointsOf(s', ReleasedShape(h, kind, freeNodes), |s.gs| - 1, kind) == []
  {
    hide Describes, PathOk, Chain, Distinct, OthersSame, OthersOk;
    var top := |s.gs| - 1;
    var h' := ReleasedShape(h, kind, freeNodes);
    assert PathOk(s, h, top, kind);
    OwnFacts(s, h, kind);
    EmptyDescribes(s'.elmts, false);
    OthersFit(s, h, s', h', kind);
    OwnReleased(s, h, s', h', kind);
    Assembled(s', h', kind);
  }

  lemma OwnReleased(s: Store, h: Shape, s': Store, h': Shape, kind: Kind)
    requires s.gs != [] && PathOk(s, h, |s.gs| - 1, kind) && !Of(s.gs[|s.gs| - 1], kind).copy && |s'.elmts| == |s.elmts|
    requires |s'.gs| == |s.gs| && Of(s'.gs[|s.gs| - 1], kind) == EMPTY && Describes(s'.elmts, EMPTY, [])
    requires h' == ReleasedShape(h, kind, h'.freeNodes)
    ensures PathOk(s', h', |s.gs| - 1, kind)
  {
    hide Describes;
  }
}
