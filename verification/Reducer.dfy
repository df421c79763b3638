/**
  The reducer at work (PostScript/Adobe/reducer.c): points become edges, and edges become trapezoids that cover, on the
  upper line of every band, exactly the inside of the figure; and on the others as well if the edges keep their order.
 */
module Reducer {
  import opened ReducerEdges

  /** A trapezoid in fixed point: two levels, and left and right on each. */
  datatype Trap = Trap(yt: int, yb: int, xtl: int, xtr: int, xbl: int, xbr: int)

  predicate Covers(trap: Trap, t: real, x: real) {
    Between(trap.xtl, trap.xbl, t) < x < Between(trap.xtr, trap.xbr, t)
  }

  /** Some trapezoid of the band covers x on the line. */
  predicate Covered(traps: seq<Trap>, line: Line, x: real) {
    exists i :: 0 <= i < |traps| && Hits(traps[i], line, x)
  }

  predicate Hits(trap: Trap, line: Line, x: real) {
    trap.yt == line.yU * ONE && Covers(trap, line.t, x)
  }

  /** No two trapezoids of the band cover x on the line. */
  predicate CoveredOnce(traps: seq<Trap>, line: Line, x: real) {
    forall i, j :: 0 <= i < j < |traps| ==> !(Hits(traps[i], line, x) && Hits(traps[j], line, x))
  }

  /** Both sides of the trapezoid run along edges that go through the band. */
  ghost predicate AlongEdges(t: Trap, edges: seq<Edge>, yU: int, yL: int) {
    exists a, b :: 0 <= a < |edges| && 0 <= b < |edges| && Spans(edges[a], yU, yL) && Spans(edges[b], yU, yL)
      && t.yt == yU * ONE && t.yb == yL * ONE
      && t.xtl == EdgeX(edges[a], yU) && t.xbl == EdgeX(edges[a], yL)
      && t.xtr == EdgeX(edges[b], yU) && t.xbr == EdgeX(edges[b], yL)
  }

  function TrapOf(a: Edge, b: Edge, yU: int, yL: int): Trap {
    Trap(yU * ONE, yL * ONE, EdgeX(a, yU), EdgeX(b, yU), EdgeX(a, yL), EdgeX(b, yL))
  }

  // ---------------------------------------------------------------- sorting

  /** The element to be inserted passes the last one, and tail is what it has passed before. */
  lemma InsertPasses(key: int -> int, p: seq<int>, tail: seq<int>, tmp: int)
    requires p != [] && key(p[|p| - 1]) > key(tmp)
    ensures Insert(key, p, tmp) + tail == Insert(key, p[..|p| - 1], tmp) + ([p[|p| - 1]] + tail)
  {
  }

  /** The inner loop of the insertion sorts: a[i] goes to its place among those before it. */
  method InsertLast(a: array<int>, i: nat, key: int -> int)
    requires i < a.Length
    modifies a
    ensures a[..i + 1] == Insert(key, old(a[..i]), old(a[i]))
    ensures forall k :: i < k < a.Length ==> a[k] == old(a[k])
  {
    hide Insert;
    var tmp := a[i];
    ghost var p, tail: seq<int> := a[..i], [];
    var j := i - 1;
    while j >= 0 && key(a[j]) > key(tmp)
      invariant -1 <= j < i && |p| == j + 1 && |tail| == i - 1 - j
      invariant forall k :: 0 <= k <= j ==> a[k] == p[k]
      invariant forall k :: 0 <= k < |tail| ==> a[j + 2 + k] == tail[k]
      invariant forall k :: i < k < a.Length ==> a[k] == old(a[k])
      invariant Insert(key, old(a[..i]), tmp) == Insert(key, p, tmp) + tail
    {
      InsertPasses(key, p, tail, tmp);
      p, tail := p[..j], [p[j]] + tail;
      a[j + 1] := a[j];
      j := j - 1;
    }
    a[j + 1] := tmp;
    InsertHere(key, p, tmp);
    assert a[..i + 1] == p + [tmp] + tail;
  }

  lemma InsertHere(key: int -> int, p: seq<int>, tmp: int)
    requires p == [] || key(p[|p| - 1]) <= key(tmp)
    ensures Insert(key, p, tmp) == p + [tmp]
  {
  }

  /** The insertion sorts of levels, with their negatives for keys, and of edges, with their positions. */
  method SortBy(a: array<int>, n: nat, key: int -> int)
    requires n <= a.Length
    modifies a
    ensures a[..n] == Sorted(key, old(a[..n])) && a[n..] == old(a[n..])
  {
    ghost var s := a[..];
    if n == 0 { return; }
    var i := 1;
    assert s[..1][..0] == [];
    while i < n
      invariant 1 <= i <= n
      invariant a[..i] == Sorted(key, s[..i])
      invariant forall k :: i <= k < a.Length ==> a[k] == s[k]
    {
      InsertLast(a, i, key);
      assert s[..i + 1][..i] == s[..i];
      i := i + 1;
    }
  }

  ghost predicate Descending(s: seq<int>) {
    forall i, j :: 0 <= i < j < |s| ==> s[i] > s[j]
  }

  /** Repeated levels are dropped in place. */
  method DropRepeats(a: array<int>) returns (n: nat)
    requires a.Length > 0 && forall i, j :: 0 <= i < j < a.Length ==> a[i] >= a[j]
    modifies a
    ensures 0 < n <= a.Length && Descending(a[..n])
    ensures forall v :: v in a[..n] <==> v in old(a[..])
  {
    ghost var s := a[..];
    var prev := a[0];
    n := 1;
    var i := 1;
    while i < a.Length
      invariant 1 <= n <= i <= a.Length && prev == a[n - 1]
      invariant forall k :: i <= k < a.Length ==> a[k] == s[k]
      invariant prev == s[i - 1]
      invariant forall j, k :: 0 <= j < k < n ==> a[j] > a[k]
      invariant forall v :: v in a[..n] <==> v in s[..i]
    {
      assert s[..i + 1] == s[..i] + [s[i]];
      ghost var was := a[..n];
      if a[i] != prev {
        a[n] := a[i];
        n := n + 1;
        prev := a[n - 1];
        assert a[..n] == was + [s[i]];
      } else {
        assert s[i] in was by { assert was[n - 1] == s[i]; }
      }
      i := i + 1;
    }
    assert s[..i] == s;
  }

  // ---------------------------------------------------------------- one band

  /** Winding numbers of the first g edges of a list make an inside. */
  predicate FilledAfter(edges: seq<Edge>, list: seq<int>, g: nat, clipflag: bool, evenOdd: bool)
    requires g <= |list|
  {
    Filled(Sum(edges, list[..g], false, Everywhere), Sum(edges, list[..g], true, Everywhere), clipflag, evenOdd)
  }

  /** Spans of a list: from just after one edge to just before another, both in the list. */
  ghost predicate SpansOk(spans: seq<(nat, nat)>, bound: nat) {
    forall m :: 0 <= m < |spans| ==> spans[m].0 < spans[m].1 < bound
  }

  /** Each span ends before the next begins. */
  ghost predicate Apart(spans: seq<(nat, nat)>) {
    forall m, n :: 0 <= m < n < |spans| ==> spans[m].1 < spans[n].0
  }

  /** The gap after the first g edges is in some span. */
  ghost predicate GapCovered(spans: seq<(nat, nat)>, g: nat) {
    exists m :: 0 <= m < |spans| && spans[m].0 < g <= spans[m].1
  }

  /** The trapezoids are those of the spans. */
  ghost predicate Match(traps: seq<Trap>, spans: seq<(nat, nat)>, edges: seq<Edge>, list: seq<int>, yU: int, yL: int)
    requires forall j :: 0 <= j < |list| ==> 0 <= list[j] < |edges|
  {
    && |traps| == |spans| && SpansOk(spans, |list|) && Apart(spans)
    && forall m :: 0 <= m < |traps| ==> traps[m] == TrapOf(edges[list[spans[m].0]], edges[list[spans[m].1]], yU, yL)
  }

  ghost predicate FromList(t: Trap, edges: seq<Edge>, list: seq<int>, yU: int, yL: int)
    requires forall j :: 0 <= j < |list| ==> 0 <= list[j] < |edges|
  {
    exists i, j :: 0 <= i < |list| && 0 <= j < |list| && t == TrapOf(edges[list[i]], edges[list[j]], yU, yL)
  }

  /** With an edge lost the end of the list can be inside: the last trapezoid reaches from start to the last edge. */
  ghost predicate OpenEnd(traps: seq<Trap>, spans: seq<(nat, nat)>, start: nat, edges: seq<Edge>, list: seq<int>,
                          yU: int, yL: int, clipflag: bool, evenOdd: bool)
    requires forall j :: 0 <= j < |list| ==> 0 <= list[j] < |edges|
  {
    && start < |list| && traps != [] && Match(traps[..|traps| - 1], spans, edges, list, yU, yL)
    && traps[|traps| - 1] == TrapOf(edges[list[start]], edges[list[|list| - 1]], yU, yL)
    && (forall g :: 0 <= g <= start ==> (GapCovered(spans, g) <==> FilledAfter(edges, list, g, clipflag, evenOdd)))
    && forall g :: start < g <= |list| ==> FilledAfter(edges, list, g, clipflag, evenOdd) && !GapCovered(spans, g)
  }

  lemma LastTrap(traps: seq<Trap>, spans: seq<(nat, nat)>, start: nat, edges: seq<Edge>, list: seq<int>,
                 yU: int, yL: int, clipflag: bool, evenOdd: bool)
    requires forall j :: 0 <= j < |list| ==> 0 <= list[j] < |edges|
    requires start < |list| && Match(traps, spans, edges, list, yU, yL)
    requires forall g :: 0 <= g <= start ==>
               (GapCovered(spans, g) <==> FilledAfter(edges, list, g, clipflag, evenOdd))
    requires forall g :: start < g <= |list| ==>
               FilledAfter(edges, list, g, clipflag, evenOdd) && !GapCovered(spans, g)
    ensures OpenEnd(traps + [TrapOf(edges[list[start]], edges[list[|list| - 1]], yU, yL)], spans, start,
                    edges, list, yU, yL, clipflag, evenOdd)
  {
    var last := TrapOf(edges[list[start]], edges[list[|list| - 1]], yU, yL);
    assert (traps + [last])[..|traps|] == traps;
  }

  /** The winding loop over the sorted edges of a band. */
  method EmitSpans(edges: seq<Edge>, list: seq<int>, yU: int, yL: int, clipflag: bool, evenOdd: bool)
    returns (traps: seq<Trap>, ghost spans: seq<(nat, nat)>)
    requires yU > yL && forall j :: 0 <= j < |list| ==> 0 <= list[j] < |edges|
    ensures !FilledAfter(edges, list, |list|, clipflag, evenOdd) ==>
              && Match(traps, spans, edges, list, yU, yL)
              && forall g :: 0 <= g <= |list| ==>
                (GapCovered(spans, g) <==> FilledAfter(edges, list, g, clipflag, evenOdd))
    ensures FilledAfter(edges, list, |list|, clipflag, evenOdd) ==>
              exists start: nat :: OpenEnd(traps, spans, start, edges, list, yU, yL, clipflag, evenOdd)
    ensures forall m :: 0 <= m < |traps| ==> FromList(traps[m], edges, list, yU, yL)
  {
    hide OpenEnd;
    hide Sum, EdgeX, Filled, GapCovered, Match, SpansOk, FromList, TrapOf;
    traps, spans := [], [];
    NoSpans(edges, list, yU, yL);
    assert list[..0] == [] && Sum(edges, [], false, Everywhere) == 0 == Sum(edges, [], true, Everywhere)
           && !Filled(0, 0, clipflag, evenOdd) by { EmptySum(edges, clipflag, evenOdd); }
    var figWind, clipWind := 0, 0;
    var prevFilled, spanStart := false, 0;
    var i := 0;
    while i < |list|
      invariant 0 <= i <= |list|
      invariant figWind == Sum(edges, list[..i], false, Everywhere)
      invariant clipWind == Sum(edges, list[..i], true, Everywhere)
      invariant prevFilled == FilledAfter(edges, list, i, clipflag, evenOdd)
      invariant prevFilled ==> 0 <= spanStart < i && SpansOk(spans, spanStart)
      invariant forall m :: 0 <= m < |traps| ==> FromList(traps[m], edges, list, yU, yL)
      invariant Match(traps, spans, edges, list, yU, yL) && (forall k: nat :: i <= k ==> SpansOk(spans, k))
      invariant forall g :: 0 <= g <= (if prevFilled then spanStart else i) ==>
                  (GapCovered(spans, g) <==> FilledAfter(edges, list, g, clipflag, evenOdd))
      invariant prevFilled ==> forall g :: spanStart < g <= i ==>
                  FilledAfter(edges, list, g, clipflag, evenOdd) && !GapCovered(spans, g)
    {
      var e := edges[list[i]];
      NextSum(edges, list, i);
      NotYet(spans, i);
      if e.isClip { clipWind := clipWind + e.wind; } else { figWind := figWind + e.wind; }
      var filled := Filled(figWind, clipWind, clipflag, evenOdd);
      if !prevFilled && filled {
        spanStart := i;
      } else if prevFilled && !filled {
        MoreCovered(spans, (spanStart, i));
        MoreTraps(traps, spans, edges, list, yU, yL, spanStart, i);
        traps := traps + [TrapOf(edges[list[spanStart]], e, yU, yL)];
        spans := spans + [(spanStart, i)];
      }
      prevFilled := filled;
      i := i + 1;
    }
    assert list[..|list|] == list;
    if prevFilled {
      OneMoreTrap(edges, list, yU, yL, spanStart, |list| - 1);
      LastTrap(traps, spans, spanStart, edges, list, yU, yL, clipflag, evenOdd);
      traps := traps + [TrapOf(edges[list[spanStart]], edges[list[|list| - 1]], yU, yL)];
      assert OpenEnd(traps, spans, spanStart, edges, list, yU, yL, clipflag, evenOdd);
    }
  }

  lemma NotYet(spans: seq<(nat, nat)>, bound: nat)
    requires SpansOk(spans, bound)
    ensures forall g: nat :: bound <= g ==> !GapCovered(spans, g)
  {
  }

  lemma EmptySum(edges: seq<Edge>, clipflag: bool, evenOdd: bool)
    ensures Sum(edges, [], false, Everywhere) == 0 == Sum(edges, [], true, Everywhere)
    ensures !Filled(0, 0, clipflag, evenOdd)
  {
  }

  lemma NoSpans(edges: seq<Edge>, list: seq<int>, yU: int, yL: int)
    requires forall j :: 0 <= j < |list| ==> 0 <= list[j] < |edges|
    ensures Match([], [], edges, list, yU, yL) && (forall k: nat :: SpansOk([], k))
              && forall g: nat :: !GapCovered([], g)
  {
  }

  lemma OneMoreTrap(edges: seq<Edge>, list: seq<int>, yU: int, yL: int, a: nat, b: nat)
    requires forall j :: 0 <= j < |list| ==> 0 <= list[j] < |edges|
    requires a < |list| && b < |list|
    ensures FromList(TrapOf(edges[list[a]], edges[list[b]], yU, yL), edges, list, yU, yL)
  {
  }

  lemma MoreTraps(traps: seq<Trap>, spans: seq<(nat, nat)>, edges: seq<Edge>, list: seq<int>, yU: int, yL: int,
                  a: nat, b: nat)
    requires forall j :: 0 <= j < |list| ==> 0 <= list[j] < |edges|
    requires Match(traps, spans, edges, list, yU, yL) && SpansOk(spans, a) && a < b < |list|
    ensures Match(traps + [TrapOf(edges[list[a]], edges[list[b]], yU, yL)], spans + [(a, b)], edges, list, yU, yL)
    ensures forall k: nat :: b < k ==> SpansOk(spans + [(a, b)], k)
    ensures FromList(TrapOf(edges[list[a]], edges[list[b]], yU, yL), edges, list, yU, yL)
  {
  }

  lemma NextSum(edges: seq<Edge>, list: seq<int>, i: nat)
    requires i < |list| && 0 <= list[i] < |edges|
    ensures forall kind :: Sum(edges, list[..i + 1], kind, Everywhere)
              == Sum(edges, list[..i], kind, Everywhere)
                 + if edges[list[i]].isClip == kind then edges[list[i]].wind else 0
  {
    assert list[..i + 1][..i] == list[..i];
  }

  lemma MoreCovered(spans: seq<(nat, nat)>, span: (nat, nat))
    ensures forall g: nat :: GapCovered(spans + [span], g) <==> GapCovered(spans, g) || span.0 < g <= span.1
  {
    forall g: nat ensures GapCovered(spans + [span], g) <==> GapCovered(spans, g) || span.0 < g <= span.1 {
      if GapCovered(spans, g) {
        var m :| 0 <= m < |spans| && spans[m].0 < g <= spans[m].1;
        assert (spans + [span])[m] == spans[m];
      }
      if span.0 < g <= span.1 {
        assert (spans + [span])[|spans|] == span;
      }
    }
  }

  /** The position of an edge, by its number. */
  function KeyAt(edges: seq<Edge>, yU: int): int -> int {
    n => if 0 <= n < |edges| then EdgeX(edges[n], yU) else 0
  }

  /** The numbers of the edges of a band in the order of their positions on its top line. */
  function BandList(edges: seq<Edge>, yU: int, yL: int): seq<int> {
    Sorted(KeyAt(edges, yU), Active(edges, yU, yL))
  }

  lemma BandListOk(edges: seq<Edge>, yU: int, yL: int)
    ensures forall j :: 0 <= j < |BandList(edges, yU, yL)| ==>
              0 <= BandList(edges, yU, yL)[j] < |edges| && Spans(edges[BandList(edges, yU, yL)[j]], yU, yL)
    ensures Ascending(KeyAt(edges, yU), BandList(edges, yU, yL))
    ensures forall i :: 0 <= i < |edges| && Spans(edges[i], yU, yL) ==> i in BandList(edges, yU, yL)
  {
    hide Sorted, Active;
    var list := BandList(edges, yU, yL);
    SortedMeaning(KeyAt(edges, yU), Active(edges, yU, yL));
    forall i | 0 <= i < |edges| && Spans(edges[i], yU, yL) ensures i in list {
      ActiveComplete(edges, yU, yL, i);
      var k :| 0 <= k < |Active(edges, yU, yL)| && Active(edges, yU, yL)[k] == i;
    }
    forall j | 0 <= j < |list| ensures 0 <= list[j] < |edges| && Spans(edges[list[j]], yU, yL) {
      assert list[j] in list;
      var k :| 0 <= k < |Active(edges, yU, yL)| && Active(edges, yU, yL)[k] == list[j];
    }
  }

  /** The edges are listed from left to right, as they are on the line. */
  ghost predicate OrderedOn(edges: seq<Edge>, list: seq<int>, line: Line) {
    && (forall j :: 0 <= j < |list| ==> 0 <= list[j] < |edges|)
    && forall i, j :: 0 <= i < j < |list| ==> PosAt(edges[list[i]], line) <= PosAt(edges[list[j]], line)
  }

  /** In the order of their positions on the top line, the edges are in order on the bottom line too. */
  ghost predicate KeepsOrder(edges: seq<Edge>, yU: int, yL: int) {
    Ascending(KeyAt(edges, yL), BandList(edges, yU, yL))
  }

  /** The top line, or any other if the edges keep their order. */
  ghost predicate Orderly(edges: seq<Edge>, line: Line) {
    0.0 <= line.t <= 1.0 && (line.t == 0.0 || KeepsOrder(edges, line.yU, line.yL))
  }

  lemma OrderOnLine(edges: seq<Edge>, line: Line)
    requires Orderly(edges, line)
    ensures OrderedOn(edges, BandList(edges, line.yU, line.yL), line)
  {
    hide BandList, EdgeX, Between;
    var list := BandList(edges, line.yU, line.yL);
    BandListOk(edges, line.yU, line.yL);
    forall i, j | 0 <= i < j < |list| ensures PosAt(edges[list[i]], line) <= PosAt(edges[list[j]], line) {
      var e, f := edges[list[i]], edges[list[j]];
      assert KeyAt(edges, line.yU)(list[i]) <= KeyAt(edges, line.yU)(list[j]);
      assert line.t != 0.0 ==> KeyAt(edges, line.yL)(list[i]) <= KeyAt(edges, line.yL)(list[j]);
      BetweenOrdered(EdgeX(e, line.yU), EdgeX(e, line.yL), EdgeX(f, line.yU), EdgeX(f, line.yL), line.t);
    }
  }

  /** Where x falls in a list that is in order. */
  lemma {:induction false} SplitAt(edges: seq<Edge>, list: seq<int>, line: Line, x: real) returns (g: nat)
    requires OrderedOn(edges, list, line)
    ensures g <= |list| && (forall j :: 0 <= j < g ==> PosAt(edges[list[j]], line) < x)
    ensures forall j :: g <= j < |list| ==> PosAt(edges[list[j]], line) >= x
    decreases |list|
  {
    hide PosAt;
    if list == [] || PosAt(edges[list[|list| - 1]], line) < x {
      g := |list|;
    } else {
      g := SplitAt(edges, list[..|list| - 1], line, x);
    }
  }

  /** Off the edges, x is inside just when the winding numbers of the edges before it say so. */
  lemma InsideAt(edges: seq<Edge>, line: Line, x: real, clipflag: bool, evenOdd: bool) returns (g: nat)
    requires Orderly(edges, line) && OffEdges(edges, line, x)
    ensures var list := BandList(edges, line.yU, line.yL);
            && g <= |list|
            && (forall j :: 0 <= j < |list| ==> 0 <= list[j] < |edges|)
            && (forall j :: 0 <= j < g ==> PosAt(edges[list[j]], line) < x)
            && (forall j :: g <= j < |list| ==> PosAt(edges[list[j]], line) > x)
            && (Inside(edges, line, x, clipflag, evenOdd) <==> FilledAfter(edges, list, g, clipflag, evenOdd))
  {
    hide Sum, WindingLeft, PosAt, Active, Sorted, Orderly;
    var list := BandList(edges, line.yU, line.yL);
    BandListOk(edges, line.yU, line.yL);
    OrderOnLine(edges, line);
    g := SplitAt(edges, list, line, x);
    forall kind: bool
      ensures WindingLeft(edges, line.yU, line.yL, kind, Before(line, x)) == Sum(edges, list[..g], kind, Everywhere)
    {
      ListSum(edges, line.yU, line.yL, kind, Before(line, x));
      SumSplit(edges, list, g, kind, line, x);
    }
  }

  /** The sums over the list of a band are the winding numbers. */
  lemma ListSum(edges: seq<Edge>, yU: int, yL: int, kind: bool, limit: Limit)
    ensures Sum(edges, BandList(edges, yU, yL), kind, limit) == WindingLeft(edges, yU, yL, kind, limit)
  {
    hide Sum, WindingLeft, Active, Sorted;
    ActiveSum(edges, yU, yL, kind, limit);
    SortedSum(KeyAt(edges, yU), Active(edges, yU, yL), edges, kind, limit);
  }

  /** All edges of a band together do not wind, when every subpath is closed. */
  lemma NotFilledAtEnd(edges: seq<Edge>, yU: int, yL: int, clipflag: bool, evenOdd: bool)
    requires EdgesOk(edges) && Band(edges, yU, yL)
    requires Winding(edges, yL, false) == 0 && Winding(edges, yL, true) == 0
    ensures !FilledAfter(edges, BandList(edges, yU, yL), |BandList(edges, yU, yL)|, clipflag, evenOdd)
  {
    hide Sum, WindingLeft, Winding, Active, Sorted;
    var list := BandList(edges, yU, yL);
    assert list[..|list|] == list;
    forall kind: bool ensures Sum(edges, list, kind, Everywhere) == Winding(edges, yL, kind) {
      BandWinding(edges, yU, yL, kind);
      ListSum(edges, yU, yL, kind, Everywhere);
    }
  }

  /** The loop that collects the edges of a band, up to as many as there is room for. */
  method Collect(edges: seq<Edge>, yU: int, yL: int) returns (act: array<int>, n: nat)
    ensures fresh(act) && act.Length == MAX_ACTIVE && n <= MAX_ACTIVE
    ensures forall j :: 0 <= j < n ==> 0 <= act[j] < |edges| && Spans(edges[act[j]], yU, yL)
    ensures |Active(edges, yU, yL)| <= MAX_ACTIVE ==> act[..n] == Active(edges, yU, yL)
  {
    act := new int[MAX_ACTIVE];
    n := 0;
    var i := 0;
    while i < |edges|
      invariant 0 <= i <= |edges| && 0 <= n < MAX_ACTIVE
      invariant act[..n] == Active(edges[..i], yU, yL)
      invariant forall j :: 0 <= j < n ==> 0 <= act[j] < |edges| && Spans(edges[act[j]], yU, yL)
    {
      assert edges[..i + 1][..i] == edges[..i];
      if edges[i].yTop >= yU && edges[i].yBot <= yL {
        act[n] := i;
        n := n + 1;
        assert act[..n] == Active(edges[..i + 1], yU, yL);
        if n >= MAX_ACTIVE {
          ActiveGrows(edges, i + 1, yU, yL);
          break;
        }
      }
      i := i + 1;
    }
    if n < MAX_ACTIVE { assert edges[..i] == edges; }
  }

  lemma {:induction false} ActiveGrows(edges: seq<Edge>, i: nat, yU: int, yL: int)
    requires i <= |edges|
    ensures |Active(edges[..i], yU, yL)| <= |Active(edges, yU, yL)|
    ensures |Active(edges[..i], yU, yL)| == |Active(edges, yU, yL)| ==>
              Active(edges[..i], yU, yL) == Active(edges, yU, yL)
    decreases |edges| - i
  {
    if i < |edges| {
      ActiveGrows(edges, i + 1, yU, yL);
      assert edges[..i + 1][..i] == edges[..i];
    } else {
      assert edges[..i] == edges;
    }
  }

  /**
    What the trapezoids of a band are for: they cover exactly the inside, on the top line, and on every line if the
    edges keep their order.
   */
  ghost predicate Exact(edges: seq<Edge>, yU: int, yL: int, clipflag: bool, evenOdd: bool, traps: seq<Trap>) {
    forall t, x :: Orderly(edges, Line(yU, yL, t)) ==> ExactAt(edges, Line(yU, yL, t), x, clipflag, evenOdd, traps)
  }

  ghost predicate ExactAt(edges: seq<Edge>, line: Line, x: real, clipflag: bool, evenOdd: bool, traps: seq<Trap>) {
    OffEdges(edges, line, x) ==>
      (Covered(traps, line, x) <==> Inside(edges, line, x, clipflag, evenOdd)) && CoveredOnce(traps, line, x)
  }

  /** The trapezoids are those between the edges where the winding numbers begin and cease to make an inside. */
  ghost predicate OfSpans(edges: seq<Edge>, yU: int, yL: int, clipflag: bool, evenOdd: bool, traps: seq<Trap>,
                          spans: seq<(nat, nat)>) {
    var list := BandList(edges, yU, yL);
    && (forall j :: 0 <= j < |list| ==> 0 <= list[j] < |edges|)
    && Match(traps, spans, edges, list, yU, yL)
    && forall g :: 0 <= g <= |list| ==> (GapCovered(spans, g) <==> FilledAfter(edges, list, g, clipflag, evenOdd))
  }

  lemma SpansExact(edges: seq<Edge>, yU: int, yL: int, clipflag: bool, evenOdd: bool, traps: seq<Trap>,
                   spans: seq<(nat, nat)>)
    requires OfSpans(edges, yU, yL, clipflag, evenOdd, traps, spans)
    ensures Exact(edges, yU, yL, clipflag, evenOdd, traps)
  {
    hide BandList, FilledAfter, Inside, OffEdges, EdgeX, Orderly, Between;
    var list := BandList(edges, yU, yL);
    forall t, x | Orderly(edges, Line(yU, yL, t)) && OffEdges(edges, Line(yU, yL, t), x)
      ensures Covered(traps, Line(yU, yL, t), x) <==> Inside(edges, Line(yU, yL, t), x, clipflag, evenOdd)
      ensures CoveredOnce(traps, Line(yU, yL, t), x)
    {
      var g := InsideAt(edges, Line(yU, yL, t), x, clipflag, evenOdd);
      if GapCovered(spans, g) {
        var m :| 0 <= m < |spans| && spans[m].0 < g <= spans[m].1;
        assert Hits(traps[m], Line(yU, yL, t), x);
      }
      if Covered(traps, Line(yU, yL, t), x) {
        var m :| 0 <= m < |traps| && Hits(traps[m], Line(yU, yL, t), x);
        assert spans[m].0 < g <= spans[m].1;
      }
      forall m, n | 0 <= m < n < |traps|
        ensures !(Hits(traps[m], Line(yU, yL, t), x) && Hits(traps[n], Line(yU, yL, t), x))
      {
        assert spans[m].1 < spans[n].0;
      }
    }
  }

  /** Nothing has been lost for want of room, and all subpaths are closed. */
  ghost predicate Whole(edges: seq<Edge>) {
    && (forall y, kind :: Winding(edges, y, kind) == 0)
    && forall yU, yL :: Band(edges, yU, yL) ==> |Active(edges, yU, yL)| <= MAX_ACTIVE
  }

  /** The body of the loop over the bands. */
  method ReduceBand(edges: seq<Edge>, yU: int, yL: int, clipflag: bool, evenOdd: bool)
    returns (traps: seq<Trap>, ghost spans: seq<(nat, nat)>)
    requires EdgesOk(edges) && Band(edges, yU, yL)
    ensures Whole(edges) ==> OfSpans(edges, yU, yL, clipflag, evenOdd, traps, spans)
    ensures Whole(edges) ==> Exact(edges, yU, yL, clipflag, evenOdd, traps)
    ensures forall m :: 0 <= m < |traps| ==> AlongEdges(traps[m], edges, yU, yL)
  {
    hide Winding, WindingLeft, Active, FilledAfter, EdgeX, Sorted, Exact, Match, TrapOf, Sum, GapCovered;
    hide BandList, EdgesOk, IsLevel;
    var act, n := Collect(edges, yU, yL);
    ghost var was := act[..n];
    SortBy(act, n, KeyAt(edges, yU));
    var list := act[..n];
    SortedMeaning(KeyAt(edges, yU), was);
    forall j | 0 <= j < |list| ensures 0 <= list[j] < |edges| && Spans(edges[list[j]], yU, yL) {
      assert list[j] in list;
      var k :| 0 <= k < |was| && was[k] == list[j];
    }
    traps, spans := EmitSpans(edges, list, yU, yL, clipflag, evenOdd);
    forall m | 0 <= m < |traps| ensures AlongEdges(traps[m], edges, yU, yL) {
      Along(traps[m], edges, list, yU, yL);
    }
    if Whole(edges) {
      assert list == BandList(edges, yU, yL) by { ListOf(edges, yU, yL, list, was); }
      NotFilledAtEnd(edges, yU, yL, clipflag, evenOdd);
      SpansExact(edges, yU, yL, clipflag, evenOdd, traps, spans);
    }
  }

  lemma ListOf(edges: seq<Edge>, yU: int, yL: int, list: seq<int>, was: seq<int>)
    requires list == Sorted(KeyAt(edges, yU), was) && was == Active(edges, yU, yL)
    ensures list == BandList(edges, yU, yL)
  {
  }

  lemma Along(t: Trap, edges: seq<Edge>, list: seq<int>, yU: int, yL: int)
    requires forall j :: 0 <= j < |list| ==> 0 <= list[j] < |edges| && Spans(edges[list[j]], yU, yL)
    requires FromList(t, edges, list, yU, yL)
    ensures AlongEdges(t, edges, yU, yL)
  {
  }

  // ---------------------------------------------------------------- all bands

  /** All levels, from the top down, each once. */
  ghost predicate LevelsOf(levels: seq<int>, edges: seq<Edge>) {
    Descending(levels) && forall y :: y in levels <==> IsLevel(edges, y)
  }

  method Levels(edges: seq<Edge>) returns (levels: seq<int>)
    requires edges != []
    ensures LevelsOf(levels, edges)
  {
    var events := new int[2 * |edges|];
    var nEvents, i := 0, 0;
    while i < |edges|
      invariant 0 <= i <= |edges| && nEvents == 2 * i
      invariant forall k :: 0 <= k < i ==> events[2 * k] == edges[k].yTop && events[2 * k + 1] == edges[k].yBot
    {
      events[nEvents] := edges[i].yTop;
      events[nEvents + 1] := edges[i].yBot;
      nEvents := nEvents + 2;
      i := i + 1;
    }
    ghost var was := events[..];
    assert events[..nEvents] == was;
    SortBy(events, nEvents, v => -v);
    assert events[..nEvents] == events[..];
    SortedMeaning(v => -v, was);
    DescendingKeys(events[..]);
    ghost var mid := events[..];
    var n := DropRepeats(events);
    levels := events[..n];
    forall y ensures y in levels <==> IsLevel(edges, y) {
      assert y in levels <==> y in was;
      Endpoints(edges, was, y);
    }
  }

  lemma DescendingKeys(s: seq<int>)
    requires Ascending(v => -v, s)
    ensures forall i, j :: 0 <= i < j < |s| ==> s[i] >= s[j]
  {
  }

  lemma Endpoints(edges: seq<Edge>, ends: seq<int>, y: int)
    requires |ends| == 2 * |edges|
    requires forall k :: 0 <= k < |edges| ==> ends[2 * k] == edges[k].yTop && ends[2 * k + 1] == edges[k].yBot
    ensures y in ends <==> IsLevel(edges, y)
  {
    if y in ends {
      var j :| 0 <= j < |ends| && ends[j] == y;
      assert j == 2 * (j / 2) || j == 2 * (j / 2) + 1;
      assert edges[j / 2].yTop == y || edges[j / 2].yBot == y;
    }
    if IsLevel(edges, y) {
      var i :| 0 <= i < |edges| && (edges[i].yTop == y || edges[i].yBot == y);
      assert ends[2 * i] in ends && ends[2 * i + 1] in ends;
    }
  }

  /** Neighbouring levels make a band. */
  lemma LevelsBand(levels: seq<int>, edges: seq<Edge>, k: nat)
    requires LevelsOf(levels, edges) && k + 1 < |levels|
    ensures Band(edges, levels[k], levels[k + 1])
  {
    assert levels[k] in levels && levels[k + 1] in levels;
    forall y | IsLevel(edges, y) ensures !(levels[k + 1] < y < levels[k]) {
      var j :| 0 <= j < |levels| && levels[j] == y;
    }
    forall i | 0 <= i < |edges| ensures IsLevel(edges, edges[i].yTop) && IsLevel(edges, edges[i].yBot) {
    }
  }

  /** And every band is made by neighbours. */
  lemma BandLevels(levels: seq<int>, edges: seq<Edge>, yU: int, yL: int) returns (k: nat)
    requires LevelsOf(levels, edges) && Band(edges, yU, yL)
    ensures k + 1 < |levels| && levels[k] == yU && levels[k + 1] == yL
  {
    assert yU in levels && yL in levels;
    k :| 0 <= k < |levels| && levels[k] == yU;
    var j :| 0 <= j < |levels| && levels[j] == yL;
    if j > k + 1 {
      assert levels[k + 1] in levels;
      var i :| 0 <= i < |edges| && (edges[i].yTop == levels[k + 1] || edges[i].yBot == levels[k + 1]);
    }
  }

  /** The trapezoids of the first bands do what they are for. */
  ghost predicate DoneTo(levels: seq<int>, k: nat, edges: seq<Edge>, clipflag: bool, evenOdd: bool, traps: seq<Trap>) {
    forall j: nat :: j < k && j + 1 < |levels| ==> Exact(edges, levels[j], levels[j + 1], clipflag, evenOdd, traps)
  }

  /** Every trapezoid belongs to one of the first bands. */
  ghost predicate FromBands(levels: seq<int>, k: nat, edges: seq<Edge>, traps: seq<Trap>) {
    forall m :: 0 <= m < |traps| ==> InBand(levels, k, edges, traps[m])
  }

  ghost predicate InBand(levels: seq<int>, k: nat, edges: seq<Edge>, t: Trap) {
    exists j: nat :: j < k && j + 1 < |levels| && AlongEdges(t, edges, levels[j], levels[j + 1])
  }

  /** Adding the trapezoids of another band changes nothing for the bands before. */
  lemma NextBand(levels: seq<int>, k: nat, edges: seq<Edge>, clipflag: bool, evenOdd: bool, traps: seq<Trap>,
                 more: seq<Trap>)
    requires Descending(levels) && k + 1 < |levels|
    requires FromBands(levels, k, edges, traps)
    requires forall m :: 0 <= m < |more| ==> AlongEdges(more[m], edges, levels[k], levels[k + 1])
    ensures FromBands(levels, k + 1, edges, traps + more)
    ensures DoneTo(levels, k, edges, clipflag, evenOdd, traps)
              && Exact(edges, levels[k], levels[k + 1], clipflag, evenOdd, more)
            ==> DoneTo(levels, k + 1, edges, clipflag, evenOdd, traps + more)
  {
    hide Inside, OffEdges, EdgeX, Orderly, Covered;
    forall m | 0 <= m < |traps + more| ensures InBand(levels, k + 1, edges, (traps + more)[m]) {
      if m < |traps| {
        assert InBand(levels, k, edges, traps[m]);
      } else {
        assert AlongEdges(more[m - |traps|], edges, levels[k], levels[k + 1]);
      }
    }
    if DoneTo(levels, k, edges, clipflag, evenOdd, traps)
         && Exact(edges, levels[k], levels[k + 1], clipflag, evenOdd, more) {
      forall j: nat | j < k + 1 ensures Exact(edges, levels[j], levels[j + 1], clipflag, evenOdd, traps + more) {
        var yU, yL, all := levels[j], levels[j + 1], traps + more;
        assert j < k ==> Exact(edges, yU, yL, clipflag, evenOdd, traps);
        forall t, x | Orderly(edges, Line(yU, yL, t))
          ensures ExactAt(edges, Line(yU, yL, t), x, clipflag, evenOdd, all)
        {
          var line := Line(yU, yL, t);
          CoveredApart(levels, k, edges, traps, more, j, line, x);
          assert ExactAt(edges, line, x, clipflag, evenOdd, if j < k then traps else more);
        }
      }
    }
  }

  lemma CoveredApart(levels: seq<int>, k: nat, edges: seq<Edge>, traps: seq<Trap>, more: seq<Trap>, j: nat,
                     line: Line, x: real)
    requires Descending(levels) && k + 1 < |levels| && j <= k && line.yU == levels[j]
    requires FromBands(levels, k, edges, traps)
    requires forall m :: 0 <= m < |more| ==> AlongEdges(more[m], edges, levels[k], levels[k + 1])
    ensures Covered(traps + more, line, x) <==> if j < k then Covered(traps, line, x) else Covered(more, line, x)
    ensures CoveredOnce(traps + more, line, x)
       <==> if j < k then CoveredOnce(traps, line, x) else CoveredOnce(more, line, x)
  {
    hide EdgeX, Covered, FromBands, AlongEdges, InBand;
    CoveredEither(traps, more, line, x);
    forall m | 0 <= m < |traps| ensures traps[m].yt != levels[k] * ONE {
      EarlierBand(levels, k, edges, traps, m);
    }
    forall m | 0 <= m < |more| ensures more[m].yt == levels[k] * ONE {
      AtBand(more[m], edges, levels[k], levels[k + 1]);
    }
    if j == k { NoneCovered(traps, line, x); }
    if j < k { NoneCovered(more, line, x); }
    OnceEither(traps, more, line, x);
  }

  lemma CoveredEither(traps: seq<Trap>, more: seq<Trap>, line: Line, x: real)
    ensures Covered(traps + more, line, x) <==> Covered(traps, line, x) || Covered(more, line, x)
  {
    hide Covers;
    var all := traps + more;
    if Covered(traps, line, x) {
      var m :| 0 <= m < |traps| && Hits(traps[m], line, x);
      assert all[m] == traps[m];
    }
    if Covered(more, line, x) {
      var m :| 0 <= m < |more| && Hits(more[m], line, x);
      assert all[|traps| + m] == more[m];
    }
    if Covered(all, line, x) {
      var m :| 0 <= m < |all| && Hits(all[m], line, x);
      assert if m < |traps| then all[m] == traps[m] else all[m] == more[m - |traps|];
    }
  }

  lemma OnceEither(traps: seq<Trap>, more: seq<Trap>, line: Line, x: real)
    ensures !Covered(more, line, x) ==> (CoveredOnce(traps + more, line, x) <==> CoveredOnce(traps, line, x))
    ensures !Covered(traps, line, x) ==> (CoveredOnce(traps + more, line, x) <==> CoveredOnce(more, line, x))
  {
    hide Hits;
    var all := traps + more;
    assert forall m :: 0 <= m < |traps| ==> all[m] == traps[m];
    assert forall m :: 0 <= m < |more| ==> all[|traps| + m] == more[m];
    assert forall m :: |traps| <= m < |all| ==> all[m] == more[m - |traps|];
  }

  lemma NoneCovered(traps: seq<Trap>, line: Line, x: real)
    requires forall m :: 0 <= m < |traps| ==> traps[m].yt != line.yU * ONE
    ensures !Covered(traps, line, x)
  {
  }

  lemma AtBand(t: Trap, edges: seq<Edge>, yU: int, yL: int)
    requires AlongEdges(t, edges, yU, yL)
    ensures t.yt == yU * ONE
  {
  }

  lemma EarlierBand(levels: seq<int>, k: nat, edges: seq<Edge>, traps: seq<Trap>, m: nat)
    requires Descending(levels) && k + 1 < |levels| && FromBands(levels, k, edges, traps) && m < |traps|
    ensures traps[m].yt != levels[k] * ONE
  {
  }

  /** Closed subpaths do not wind; an open one winds by where it starts and where it has got to. */
  ghost predicate Balanced(edges: seq<Edge>, open: bool, sp: Pt, cp: Pt, clipSubpath: bool) {
    forall y, kind ::
      Winding(edges, y, kind) == if open && kind == clipSubpath then AsInt(Above(sp, y)) - AsInt(Above(cp, y)) else 0
  }

  class Path {
    var edges: seq<Edge>
    var cp: Pt
    var sp: Pt
    var hasCP: bool
    var clipSubpath: bool
    /** An edge has been dropped because there was no room for it. */
    ghost var lost: bool

    ghost predicate Valid()
      reads this
    {
      && EdgesOk(edges) && |edges| <= MAX_EDGES
      && (lost ==> |edges| == MAX_EDGES)
      && (!lost ==> Balanced(edges, hasCP, sp, cp, clipSubpath))
    }

    /** ResetReducer. */
    constructor ()
      ensures Valid() && edges == [] && !hasCP && !clipSubpath && !lost
    {
      edges, hasCP, clipSubpath, lost := [], false, false, false;
      cp, sp := Pt(0, 0), Pt(0, 0);
    }

    method AddEdge(p: Pt, q: Pt)
      modifies `edges, `lost
      ensures p.y == q.y ==> edges == old(edges) && lost == old(lost)
      ensures p.y != q.y && |old(edges)| < MAX_EDGES ==>
                edges == old(edges) + [EdgeOf(p, q, clipSubpath)] && lost == old(lost)
      ensures p.y != q.y && |old(edges)| >= MAX_EDGES ==> edges == old(edges) && lost
    {
      if p.y == q.y { return; }
      if |edges| >= MAX_EDGES {
        lost := true;
        return;
      }
      if p.y > q.y {
        edges := edges + [Edge(p.y, q.y, p.x, q.x, 1, clipSubpath)];
      } else {
        edges := edges + [Edge(q.y, p.y, q.x, p.x, -1, clipSubpath)];
      }
    }

    method NewPoint(p: Pt)
      requires Valid()
      modifies this
      ensures Valid() && hasCP && cp == p && clipSubpath == old(clipSubpath)
      ensures sp == if old(hasCP) then old(sp) else p
      ensures old(hasCP) && old(cp).y != p.y && |old(edges)| < MAX_EDGES ==>
                edges == old(edges) + [EdgeOf(old(cp), p, clipSubpath)]
      ensures !old(hasCP) || old(cp).y == p.y || |old(edges)| >= MAX_EDGES ==> edges == old(edges)
    {
      hide Winding, Balanced;
      if !hasCP {
        StartBalances(edges, p, clipSubpath, sp, cp);
        cp, sp, hasCP := p, p, true;
        return;
      }
      StepBalances(edges, sp, cp, p, clipSubpath);
      AddEdge(cp, p);
      cp := p;
    }

    method ReducerClosePath()
      requires Valid()
      modifies this
      ensures Valid() && !hasCP && clipSubpath == old(clipSubpath)
      ensures old(hasCP) && old(cp).y != old(sp).y && |old(edges)| < MAX_EDGES ==>
                edges == old(edges) + [EdgeOf(old(cp), old(sp), clipSubpath)]
      ensures !old(hasCP) || old(cp).y == old(sp).y || |old(edges)| >= MAX_EDGES ==> edges == old(edges)
    {
      hide Winding, Balanced;
      if hasCP {
        StepBalances(edges, sp, cp, sp, clipSubpath);
        AddEdge(cp, sp);
        hasCP := false;
      }
    }

    method NewPathIsClip(flag: bool)
      requires Valid()
      modifies this
      ensures Valid() && !hasCP && clipSubpath == flag
      ensures old(hasCP) && old(cp).y != old(sp).y && |old(edges)| < MAX_EDGES ==>
                edges == old(edges) + [EdgeOf(old(cp), old(sp), old(clipSubpath))]
      ensures !old(hasCP) || old(cp).y == old(sp).y || |old(edges)| >= MAX_EDGES ==> edges == old(edges)
    {
      if hasCP { ReducerClosePath(); }
      clipSubpath := flag;
    }

    /**
      Reduce.  When every subpath is closed and there was room for everything, the trapezoids of every band cover on
      its top line exactly what the winding rule calls inside, at every position that is not on an edge; and so they
      do on all its lines if the edges keep their order.
     */
    method Reduce(clipflag: bool, evenOdd: bool) returns (traps: seq<Trap>)
      requires Valid()
      ensures !hasCP && !lost && (forall yU, yL :: Band(edges, yU, yL) ==> |Active(edges, yU, yL)| <= MAX_ACTIVE) ==>
                forall yU, yL :: Band(edges, yU, yL) ==> Exact(edges, yU, yL, clipflag, evenOdd, traps)
      ensures forall m :: 0 <= m < |traps| ==> FromSomeBand(edges, traps[m])
    {
      hide Winding, Active, Exact, AlongEdges, Band, LevelsOf, EdgesOk, InBand;
      traps := [];
      if |edges| == 0 {
        NoBands(edges);
        return;
      }
      var levels := Levels(edges);
      LevelsDescend(levels, edges);
      var k := 0;
      while k < |levels| - 1
        invariant 0 <= k <= |levels|
        invariant FromBands(levels, k, edges, traps)
        invariant Whole(edges) ==> DoneTo(levels, k, edges, clipflag, evenOdd, traps)
      {
        LevelsBand(levels, edges, k);
        var more, spans := ReduceBand(edges, levels[k], levels[k + 1], clipflag, evenOdd);
        NextBand(levels, k, edges, clipflag, evenOdd, traps, more);
        traps := traps + more;
        k := k + 1;
      }
      forall yU, yL | Band(edges, yU, yL) && Whole(edges) ensures Exact(edges, yU, yL, clipflag, evenOdd, traps) {
        var j := BandLevels(levels, edges, yU, yL);
      }
      forall m | 0 <= m < |traps| ensures FromSomeBand(edges, traps[m]) {
        assert InBand(levels, k, edges, traps[m]);
        var j := BandOf(levels, k, edges, traps[m]);
        LevelsBand(levels, edges, j);
      }
    }
  }

  lemma StepBalances(edges: seq<Edge>, sp: Pt, cp: Pt, p: Pt, c: bool)
    requires EdgesOk(edges)
    ensures cp.y == p.y && Balanced(edges, true, sp, cp, c) ==> Balanced(edges, true, sp, p, c)
    ensures cp.y != p.y ==> EdgesOk(edges + [EdgeOf(cp, p, c)])
    ensures cp.y != p.y && Balanced(edges, true, sp, cp, c) ==> Balanced(edges + [EdgeOf(cp, p, c)], true, sp, p, c)
    ensures forall e :: p == sp ==> (Balanced(e, true, sp, p, c) <==> Balanced(e, false, sp, cp, c))
  {
  }

  lemma StartBalances(edges: seq<Edge>, p: Pt, c: bool, sp: Pt, cp: Pt)
    ensures Balanced(edges, false, sp, cp, c) ==> Balanced(edges, true, p, p, c)
  {
  }

  ghost predicate FromSomeBand(edges: seq<Edge>, t: Trap) {
    exists yU, yL :: Band(edges, yU, yL) && AlongEdges(t, edges, yU, yL)
  }

  lemma NoBands(edges: seq<Edge>)
    requires edges == []
    ensures forall yU, yL :: !Band(edges, yU, yL)
  {
  }

  lemma LevelsDescend(levels: seq<int>, edges: seq<Edge>)
    requires LevelsOf(levels, edges)
    ensures Descending(levels)
  {
  }

  lemma BandOf(levels: seq<int>, k: nat, edges: seq<Edge>, t: Trap) returns (j: nat)
    requires InBand(levels, k, edges, t)
    ensures j < k && j + 1 < |levels| && AlongEdges(t, edges, levels[j], levels[j + 1])
  {
    j :| j < k && j + 1 < |levels| && AlongEdges(t, edges, levels[j], levels[j + 1]);
  }

  // ---------------------------------------------------------------- edges that change places

  /** The sum over a list of two. */
  lemma PairSum(edges: seq<Edge>, list: seq<int>, kind: bool, limit: Limit)
    requires |list| == 2
    ensures Sum(edges, list, kind, limit) == Term(edges, list[0], kind, limit) + Term(edges, list[1], kind, limit)
  {
    hide Term;
    var first := list[..1];
    assert first[..0] == [] && Sum(edges, [], kind, limit) == 0;
    assert Sum(edges, first, kind, limit) == Term(edges, list[0], kind, limit);
  }

  /** Two edges alone in a band: a figure, whose winding numbers are those of one edge between them. */
  ghost predicate Pair(edges: seq<Edge>, yU: int, yL: int, a: int, b: int) {
    && EdgesOk(edges) && Band(edges, yU, yL)
    && Winding(edges, yL, false) == 0
    && BandList(edges, yU, yL) == [a, b]
    && 0 <= a < |edges| && 0 <= b < |edges| && !edges[a].isClip
  }

  /** If the second is to the left of the first on the bottom line, what is between them there is inside. */
  lemma PairInside(edges: seq<Edge>, yU: int, yL: int, a: int, b: int, x: real, evenOdd: bool)
    requires Pair(edges, yU, yL, a, b)
    requires (EdgeX(edges[b], yL) as real) < x < (EdgeX(edges[a], yL) as real)
    ensures OffEdges(edges, Line(yU, yL, 1.0), x) && Inside(edges, Line(yU, yL, 1.0), x, false, evenOdd)
  {
    hide Sum, WindingLeft, Winding, EdgeX, BandList;
    var line := Line(yU, yL, 1.0);
    BandListOk(edges, yU, yL);
    BandWinding(edges, yU, yL, false);
    ListSum(edges, yU, yL, false, Everywhere);
    PairSum(edges, [a, b], false, Everywhere);
    ListSum(edges, yU, yL, false, Before(line, x));
    PairSum(edges, [a, b], false, Before(line, x));
    LastLine(edges[a], yU, yL);
    LastLine(edges[b], yU, yL);
    assert forall i :: 0 <= i < |edges| && Spans(edges[i], yU, yL) ==> i == a || i == b;
    assert EdgeOk(edges[a]) && EdgeOk(edges[b]) && !edges[b].isClip;
    assert WindingLeft(edges, yU, yL, false, Before(line, x)) == edges[b].wind;
  }

  lemma LastLine(e: Edge, yU: int, yL: int)
    ensures PosAt(e, Line(yU, yL, 1.0)) == EdgeX(e, yL) as real
  {
    hide EdgeX;
  }

  /** But no trapezoid covers it: its left side is to the right of its right side. */
  lemma PairUncovered(edges: seq<Edge>, yU: int, yL: int, a: int, b: int, x: real, evenOdd: bool, traps: seq<Trap>,
                      spans: seq<(nat, nat)>)
    requires BandList(edges, yU, yL) == [a, b] && OfSpans(edges, yU, yL, false, evenOdd, traps, spans)
    requires 0 <= a < |edges| && 0 <= b < |edges|
    requires (EdgeX(edges[b], yL) as real) < x < (EdgeX(edges[a], yL) as real)
    ensures !Covered(traps, Line(yU, yL, 1.0), x)
  {
    hide BandList, EdgeX, FilledAfter;
    LastLine(edges[a], yU, yL);
    LastLine(edges[b], yU, yL);
    forall m | 0 <= m < |traps| ensures traps[m] == TrapOf(edges[a], edges[b], yU, yL) {
      assert spans[m].0 < spans[m].1 < 2;
    }
  }

  lemma PairOrderly(edges: seq<Edge>, yU: int, yL: int, a: int, b: int)
    requires BandList(edges, yU, yL) == [a, b] && 0 <= a < |edges| && 0 <= b < |edges|
    requires EdgeX(edges[a], yL) <= EdgeX(edges[b], yL)
    ensures KeepsOrder(edges, yU, yL)
  {
    hide BandList, EdgeX;
  }

  /** Two edges are filled between them on every line if and only if they keep their order. */
  lemma PairIff(edges: seq<Edge>, yU: int, yL: int, a: int, b: int, evenOdd: bool, traps: seq<Trap>,
                spans: seq<(nat, nat)>)
    requires Pair(edges, yU, yL, a, b) && OfSpans(edges, yU, yL, false, evenOdd, traps, spans)
    ensures (forall t, x :: 0.0 <= t <= 1.0 ==> ExactAt(edges, Line(yU, yL, t), x, false, evenOdd, traps))
       <==> EdgeX(edges[a], yL) <= EdgeX(edges[b], yL)
  {
    hide BandList, EdgeX, OfSpans, KeepsOrder, OffEdges, Inside, Covered, Winding, Band, EdgesOk;
    if EdgeX(edges[a], yL) <= EdgeX(edges[b], yL) {
      PairOrderly(edges, yU, yL, a, b);
      SpansExact(edges, yU, yL, false, evenOdd, traps, spans);
    } else {
      var x := (EdgeX(edges[a], yL) + EdgeX(edges[b], yL)) as real / 2.0;
      PairInside(edges, yU, yL, a, b, x, evenOdd);
      PairUncovered(edges, yU, yL, a, b, x, evenOdd, traps, spans);
      var line := Line(yU, yL, 1.0);
      assert !ExactAt(edges, line, x, false, evenOdd, traps);
    }
  }

  /** The list of two edges that do not come in the wrong order. */
  lemma PairList(e: Edge, f: Edge, yU: int, yL: int)
    requires Spans(e, yU, yL) && Spans(f, yU, yL) && EdgeX(e, yU) <= EdgeX(f, yU)
    ensures BandList([e, f], yU, yL) == [0, 1]
  {
    hide EdgeX;
    var edges := [e, f];
    assert edges[..1] == [e] && [e][..0] == [];
    assert Active([], yU, yL) == [] && Active([e], yU, yL) == [0] && Active(edges, yU, yL) == [0, 1];
    var key := KeyAt(edges, yU);
    var one: seq<int> := [0];
    assert one[..0] == [] && Sorted(key, []) == [];
    assert Sorted(key, one) == [0];
    var both: seq<int> := [0, 1];
    assert both[..1] == one;
  }

  /** A triangle with its top between its other corners, drawn clockwise from the bottom left or the other way round. */
  method Triangle(clockwise: bool) returns (edges: seq<Edge>, traps: seq<Trap>, ghost spans: seq<(nat, nat)>)
    ensures EdgesOk(edges) && Band(edges, 4, 0) && OfSpans(edges, 4, 0, false, false, traps, spans)
    ensures var left, right := Edge(4, 0, 2, 0, if clockwise then -1 else 1, false),
                               Edge(4, 0, 2, 4, if clockwise then 1 else -1, false);
            edges == if clockwise then [left, right] else [right, left]
    ensures Pair(edges, 4, 0, 0, 1)
    ensures (forall t, x :: 0.0 <= t <= 1.0 ==> ExactAt(edges, Line(4, 0, t), x, false, false, traps)) <==> clockwise
  {
    hide Winding, OfSpans, EdgeX, BandList, ExactAt;
    var path := new Path();
    path.NewPoint(Pt(0, 0));
    if clockwise {
      path.NewPoint(Pt(2, 4));
      path.NewPoint(Pt(4, 0));
    } else {
      path.NewPoint(Pt(4, 0));
      path.NewPoint(Pt(2, 4));
    }
    path.ReducerClosePath();
    edges := path.edges;
    var e, f := edges[0], edges[1];
    assert edges == [e, f];
    Ends(e, 4, 0);
    Ends(f, 4, 0);
    PairList(e, f, 4, 0);
    PairWhole(edges);
    assert IsLevel(edges, 4) && IsLevel(edges, 0) by { assert edges[0].yTop == 4 && edges[0].yBot == 0; }
    traps, spans := ReduceBand(edges, 4, 0, false, false);
    PairIff(edges, 4, 0, 0, 1, false, traps, spans);
  }

  /** Two edges that cross between the bottom and the top of the band. */
  method BowTie() returns (edges: seq<Edge>, traps: seq<Trap>, ghost spans: seq<(nat, nat)>)
    ensures EdgesOk(edges) && Band(edges, 4, 0) && OfSpans(edges, 4, 0, false, false, traps, spans)
    ensures edges == [Edge(4, 0, 0, 4, 1, false), Edge(4, 0, 4, 0, -1, false)]
    ensures Inside(edges, Line(4, 0, 1.0), (2 * ONE) as real, false, false)
            && !Covered(traps, Line(4, 0, 1.0), (2 * ONE) as real)
  {
    hide Winding, OfSpans, EdgeX, BandList, Inside, Covered;
    var path := new Path();
    path.NewPoint(Pt(0, 4));
    path.NewPoint(Pt(4, 0));
    path.NewPoint(Pt(0, 0));
    path.NewPoint(Pt(4, 4));
    path.ReducerClosePath();
    edges := path.edges;
    var e, f := edges[0], edges[1];
    assert edges == [e, f];
    Ends(e, 4, 0);
    Ends(f, 4, 0);
    PairList(e, f, 4, 0);
    PairWhole(edges);
    assert IsLevel(edges, 4) && IsLevel(edges, 0) by { assert edges[0].yTop == 4 && edges[0].yBot == 0; }
    traps, spans := ReduceBand(edges, 4, 0, false, false);
    PairInside(edges, 4, 0, 0, 1, (2 * ONE) as real, false);
    PairUncovered(edges, 4, 0, 0, 1, (2 * ONE) as real, false, traps, spans);
  }

  lemma Ends(e: Edge, yTop: int, yBot: int)
    requires EdgeOk(e) && e.yTop == yTop && e.yBot == yBot
    ensures EdgeX(e, yTop) == e.xTop * ONE && EdgeX(e, yBot) == e.xBot * ONE
  {
    EdgeXAtEnds(e);
  }

  lemma PairWhole(edges: seq<Edge>)
    requires |edges| == 2 && forall y, kind :: Winding(edges, y, kind) == 0
    ensures Whole(edges)
  {
    forall yU, yL ensures |Active(edges, yU, yL)| <= MAX_ACTIVE {
      ActiveBound(edges, yU, yL);
    }
  }

  // ---------------------------------------------------------------- figures with a clip, and figures in each other

  /** Adding an edge adds its direction to the windings to its right, in the bands that it goes through. */
  lemma WindingMore(edges: seq<Edge>, e: Edge, line: Line, x: real, kind: bool)
    ensures WindingLeft(edges + [e], line.yU, line.yL, kind, Before(line, x))
            == WindingLeft(edges, line.yU, line.yL, kind, Before(line, x))
               + if e.isClip == kind && Spans(e, line.yU, line.yL) && PosAt(e, line) < x then e.wind else 0
  {
    hide PosAt;
    assert (edges + [e])[..|edges|] == edges;
  }

  /** An upright edge is where it is on every line. */
  lemma Upright(e: Edge, yU: int, yL: int)
    requires EdgeOk(e) && e.xTop == e.xBot
    ensures PosAt(e, Line(yU, yL, 0.0)) == (e.xTop * ONE) as real
  {
    QuotientExact(0, e.yTop - e.yBot);
    assert EdgeX(e, yU) == e.xTop * ONE && EdgeX(e, yL) == e.xTop * ONE;
  }

  /** The left and the right side of a rectangle that is drawn up on the left. */
  function Sides(x0: int, y0: int, x1: int, y1: int, isClip: bool): seq<Edge> {
    [Edge(y1, y0, x0, x0, -1, isClip), Edge(y1, y0, x1, x1, 1, isClip)]
  }

  method Rectangle(path: Path, x0: int, y0: int, x1: int, y1: int)
    requires path.Valid() && !path.hasCP && |path.edges| <= 100 && x0 < x1 && y0 < y1
    modifies path
    ensures path.Valid() && !path.hasCP && path.clipSubpath == old(path.clipSubpath)
    ensures path.edges == old(path.edges) + Sides(x0, y0, x1, y1, path.clipSubpath)
  {
    path.NewPoint(Pt(x0, y0));
    path.NewPoint(Pt(x0, y1));
    path.NewPoint(Pt(x1, y1));
    path.NewPoint(Pt(x1, y0));
    path.ReducerClosePath();
  }

  /** The windings of two rectangles on the top line of a band that all their sides go through, or only the first's. */
  lemma TwoWindings(a: seq<Edge>, b: seq<Edge>, edges: seq<Edge>, yU: int, yL: int, x: int, kind: bool)
    requires |a| == 2 && |b| == 2 && edges == a + b && EdgesOk(edges)
    requires forall e :: e in edges ==> e.xTop == e.xBot && Spans(e, yU, yL)
    ensures WindingLeft(edges, yU, yL, kind, Before(Line(yU, yL, 0.0), (x * ONE) as real))
            == SideAt(a[0], x, kind) + SideAt(a[1], x, kind) + SideAt(b[0], x, kind) + SideAt(b[1], x, kind)
    ensures (forall e :: e in edges ==> e.xTop != x) ==> OffEdges(edges, Line(yU, yL, 0.0), (x * ONE) as real)
  {
    hide WindingLeft, PosAt;
    var line, at := Line(yU, yL, 0.0), (x * ONE) as real;
    forall i | 0 <= i < |edges| ensures PosAt(edges[i], line) == (edges[i].xTop * ONE) as real {
      assert edges[i] in edges && EdgeOk(edges[i]);
      Upright(edges[i], yU, yL);
    }
    var e1, e2, e3 := [edges[0]], [edges[0], edges[1]], [edges[0], edges[1], edges[2]];
    assert [] + [edges[0]] == e1 && e1 + [edges[1]] == e2 && e2 + [edges[2]] == e3 && e3 + [edges[3]] == edges;
    assert edges[0] in edges && edges[1] in edges && edges[2] in edges && edges[3] in edges;
    WindingNone(yU, yL, kind, Before(line, at));
    WindingMore([], edges[0], line, at, kind);
    WindingMore(e1, edges[1], line, at, kind);
    WindingMore(e2, edges[2], line, at, kind);
    WindingMore(e3, edges[3], line, at, kind);
    forall i | 0 <= i < |edges| && edges[i].xTop != x ensures PosAt(edges[i], line) != at {
    }
  }

  lemma WindingNone(yU: int, yL: int, kind: bool, limit: Limit)
    ensures WindingLeft([], yU, yL, kind, limit) == 0
  {
  }

  /** What a side contributes to the winding at x. */
  function SideAt(e: Edge, x: int, kind: bool): int {
    if e.isClip == kind && e.xTop < x then e.wind else 0
  }

  lemma FewWhole(edges: seq<Edge>)
    requires |edges| <= MAX_ACTIVE
    ensures forall yU, yL :: Band(edges, yU, yL) ==> |Active(edges, yU, yL)| <= MAX_ACTIVE
  {
    forall yU, yL ensures |Active(edges, yU, yL)| <= MAX_ACTIVE {
      ActiveBound(edges, yU, yL);
    }
  }

  /** x is covered on the top line of the band. */
  ghost predicate OnTop(traps: seq<Trap>, yU: int, yL: int, x: int) {
    Covered(traps, Line(yU, yL, 0.0), (x * ONE) as real)
  }

  /** What is covered in a band of two rectangles that all sides go through. */
  lemma TwoCovered(a: seq<Edge>, b: seq<Edge>, edges: seq<Edge>, yU: int, yL: int, x: int,
                   clipflag: bool, evenOdd: bool,
                   traps: seq<Trap>)
    requires |a| == 2 && |b| == 2 && edges == a + b && EdgesOk(edges) && yU > yL
    requires forall e :: e in edges ==> e.xTop == e.xBot && e.xTop != x && Spans(e, yU, yL)
    requires Exact(edges, yU, yL, clipflag, evenOdd, traps)
    ensures var fig := SideAt(a[0], x, false) + SideAt(a[1], x, false)
                       + SideAt(b[0], x, false) + SideAt(b[1], x, false);
            var clip := SideAt(a[0], x, true) + SideAt(a[1], x, true) + SideAt(b[0], x, true) + SideAt(b[1], x, true);
            OnTop(traps, yU, yL, x)
            <==> if evenOdd then fig % 2 == 1 && (clipflag ==> clip % 2 == 1) else fig != 0 && (clipflag ==> clip != 0)
  {
    hide WindingLeft, Covered, CoveredOnce, OffEdges;
    var line := Line(yU, yL, 0.0);
    TwoWindings(a, b, edges, yU, yL, x, false);
    TwoWindings(a, b, edges, yU, yL, x, true);
    assert Orderly(edges, line);
    assert ExactAt(edges, line, (x * ONE) as real, clipflag, evenOdd, traps);
  }

  /**
    A square of four units with a clip from its middle on: with the clip only its right half is covered, without it the
    whole, and nothing beyond, under either rule.
   */
  method HalfClipped(clipflag: bool, evenOdd: bool) returns (traps: seq<Trap>)
    ensures OnTop(traps, 4, 0, 1) <==> !clipflag
    ensures OnTop(traps, 4, 0, 3) && !OnTop(traps, 4, 0, 5) && !OnTop(traps, 4, 0, -1)
  {
    hide Exact, OnTop, FromSomeBand, Balanced, Active;
    var path := new Path();
    Rectangle(path, 0, 0, 4, 4);
    path.NewPathIsClip(true);
    Rectangle(path, 2, 0, 6, 4);
    var edges := path.edges;
    FewWhole(edges);
    assert edges[0].yTop == 4 && edges[0].yBot == 0;
    assert Band(edges, 4, 0);
    traps := path.Reduce(clipflag, evenOdd);
    var a, b := Sides(0, 0, 4, 4, false), Sides(2, 0, 6, 4, true);
    TwoCovered(a, b, edges, 4, 0, -1, clipflag, evenOdd, traps);
    TwoCovered(a, b, edges, 4, 0, 1, clipflag, evenOdd, traps);
    TwoCovered(a, b, edges, 4, 0, 3, clipflag, evenOdd, traps);
    TwoCovered(a, b, edges, 4, 0, 5, clipflag, evenOdd, traps);
  }

  /** A square within a square, drawn the same way round: covered all over, or a ring under the even-odd rule. */
  method SquareInSquare(evenOdd: bool) returns (traps: seq<Trap>)
    ensures OnTop(traps, 4, 2, 1) && OnTop(traps, 4, 2, 5) && (OnTop(traps, 4, 2, 3) <==> !evenOdd)
    ensures !OnTop(traps, 4, 2, 7)
  {
    hide Exact, OnTop, FromSomeBand, Balanced, Active;
    var path := new Path();
    Rectangle(path, 0, 0, 6, 6);
    Rectangle(path, 2, 2, 4, 4);
    var edges := path.edges;
    FewWhole(edges);
    assert edges[2].yTop == 4 && edges[2].yBot == 2;
    assert Band(edges, 4, 2);
    traps := path.Reduce(false, evenOdd);
    var a, b := Sides(0, 0, 6, 6, false), Sides(2, 2, 4, 4, false);
    TwoCovered(a, b, edges, 4, 2, 1, false, evenOdd, traps);
    TwoCovered(a, b, edges, 4, 2, 3, false, evenOdd, traps);
    TwoCovered(a, b, edges, 4, 2, 5, false, evenOdd, traps);
    TwoCovered(a, b, edges, 4, 2, 7, false, evenOdd, traps);
  }
}
