/**
  The scan-line reducer (PostScript/Adobe/reducer.c): edges, and the winding numbers that they give.

  Closed subpaths are turned into edges with a direction; between two neighbouring levels at which edges begin or end
  the figure is cut into trapezoids by its edges, sorted along the upper level.
 */
module ReducerEdges {

  const MAX_EDGES := 4000
  const MAX_ACTIVE := 500
  /** One pixel in fixed point. */
  const ONE := 65536

  /** An edge from its top down, with the direction in which the path ran. */
  datatype Edge = Edge(yTop: int, yBot: int, xTop: int, xBot: int, wind: int, isClip: bool)

  datatype Pt = Pt(x: int, y: int)

  ghost predicate EdgeOk(e: Edge) {
    e.yTop > e.yBot && (e.wind == 1 || e.wind == -1)
  }

  ghost predicate EdgesOk(edges: seq<Edge>) {
    forall i :: 0 <= i < |edges| ==> EdgeOk(edges[i])
  }

  // ---------------------------------------------------------------- where an edge is

  /** The quotient that C computes: truncated towards zero. */
  function Quotient(a: int, b: int): (q: int)
    requires b > 0
    ensures 0 <= a ==> q * b <= a < (q + 1) * b
    ensures a < 0 ==> (q - 1) * b < a <= q * b
  {
    if a >= 0 then a / b else -((-a) / b)
  }

  /** edgeXFixed. */
  function EdgeX(e: Edge, y: int): int {
    var dy := e.yTop - e.yBot;
    if dy <= 0 then e.xTop * ONE else e.xBot * ONE + Quotient((e.xTop - e.xBot) * (y - e.yBot) * ONE, dy)
  }

  lemma QuotientExact(q: int, b: int)
    requires b > 0
    ensures Quotient(q * b, b) == q
  {
    var r := Quotient(q * b, b);
    if q * b >= 0 {
      OnlyQuotient(q * b, b, r, q);
    } else {
      assert (-(q * b)) == (-q) * b;
      OnlyQuotient(-(q * b), b, (-(q * b)) / b, -q);
    }
  }

  lemma OnlyQuotient(a: int, b: int, q: int, q': int)
    requires b > 0 && q * b <= a < (q + 1) * b && q' * b <= a < (q' + 1) * b
    ensures q == q'
  {
    NextMultiple(q, q', b);
    NextMultiple(q', q, b);
  }

  lemma NextMultiple(q: int, q': int, b: int)
    requires b > 0
    ensures q < q' ==> (q + 1) * b <= q' * b
  {
  }

  lemma QuotientNear(a: int, b: int)
    requires b > 0
    ensures -b < Quotient(a, b) * b - a < b
  {
    var q := Quotient(a, b);
    assert (q + 1) * b == q * b + b && (q - 1) * b == q * b - b;
  }

  /** The computed position is exact at both ends of an edge. */
  lemma EdgeXAtEnds(e: Edge)
    requires EdgeOk(e)
    ensures EdgeX(e, e.yTop) == e.xTop * ONE && EdgeX(e, e.yBot) == e.xBot * ONE
  {
    hide Quotient;
    var dx, dy := e.xTop - e.xBot, e.yTop - e.yBot;
    QuotientExact(dx * ONE, dy);
    assert dx * dy * ONE == dx * ONE * dy by { Regroup(dx, dy); }
    QuotientExact(0, dy);
    assert dx * (e.yBot - e.yBot) * ONE == 0 * dy;
  }

  lemma Regroup(a: int, b: int)
    ensures a * b * ONE == a * ONE * b
  {
  }

  /** In between it is less than one unit off the straight line, which is stated without the division by the height. */
  lemma EdgeXAccuracy(e: Edge, y: int)
    requires EdgeOk(e)
    ensures var dy := e.yTop - e.yBot;
            -dy < EdgeX(e, y) * dy - (e.xBot * ONE * dy + (e.xTop - e.xBot) * (y - e.yBot) * ONE) < dy
  {
    hide Quotient;
    var dy := e.yTop - e.yBot;
    var a := (e.xTop - e.xBot) * (y - e.yBot) * ONE;
    QuotientNear(a, dy);
    Distribute(e.xBot * ONE, Quotient(a, dy), dy);
  }

  lemma Distribute(a: int, b: int, c: int)
    ensures (a + b) * c == a * c + b * c
  {
  }

  // ---------------------------------------------------------------- winding numbers

  /** The edge crosses the level just above y. */
  predicate Crosses(e: Edge, y: int) {
    e.yTop > y >= e.yBot
  }

  /** The edges of one kind that cross the level just above y, counted with their directions. */
  function Winding(edges: seq<Edge>, y: int, isClip: bool): int {
    if edges == [] then 0
    else
      var e := edges[|edges| - 1];
      Winding(edges[..|edges| - 1], y, isClip) + if e.isClip == isClip && Crosses(e, y) then e.wind else 0
  }

  predicate Above(p: Pt, y: int) {
    p.y > y
  }

  function AsInt(b: bool): int {
    if b then 1 else 0
  }

  /** The edge that addEdge makes of a step from p to q. */
  function EdgeOf(p: Pt, q: Pt, isClip: bool): Edge
    requires p.y != q.y
  {
    if p.y > q.y then Edge(p.y, q.y, p.x, q.x, 1, isClip) else Edge(q.y, p.y, q.x, p.x, -1, isClip)
  }

  /** A step changes the winding number by whether it starts and ends above the level. */
  lemma StepWinding(edges: seq<Edge>, p: Pt, q: Pt, isClip: bool, y: int, kind: bool)
    ensures p.y != q.y ==> EdgeOk(EdgeOf(p, q, isClip))
                           && Winding(edges + [EdgeOf(p, q, isClip)], y, kind)
                              == Winding(edges, y, kind)
                                 + if kind == isClip then AsInt(Above(p, y)) - AsInt(Above(q, y)) else 0
    ensures p.y == q.y ==> Above(p, y) == Above(q, y)
  {
    if p.y != q.y {
      assert (edges + [EdgeOf(p, q, isClip)])[..|edges|] == edges;
    }
  }

  // ---------------------------------------------------------------- bands

  predicate IsLevel(edges: seq<Edge>, y: int) {
    exists i :: 0 <= i < |edges| && (edges[i].yTop == y || edges[i].yBot == y)
  }

  /** Two neighbouring levels at which edges begin or end. */
  ghost predicate Band(edges: seq<Edge>, yU: int, yL: int) {
    && yU > yL && IsLevel(edges, yU) && IsLevel(edges, yL)
    && forall i :: 0 <= i < |edges| ==> !(yL < edges[i].yTop < yU) && !(yL < edges[i].yBot < yU)
  }

  /** The edge goes all the way through the band. */
  predicate Spans(e: Edge, yU: int, yL: int) {
    e.yTop >= yU && e.yBot <= yL
  }

  /**
    A line of a band, at the part t of the way down.  What the trapezoids know of an edge is where it is on the first
    and on the last line; in between it is straight.
   */
  datatype Line = Line(yU: int, yL: int, t: real)

  function Share(t: real, x: int): real {
    t * (x as real)
  }

  function Between(top: int, bottom: int, t: real): real {
    Share(1.0 - t, top) + Share(t, bottom)
  }

  function PosAt(e: Edge, line: Line): real {
    Between(EdgeX(e, line.yU), EdgeX(e, line.yL), line.t)
  }

  lemma ShareOrdered(t: real, a: int, b: int)
    requires t >= 0.0 && (t == 0.0 || a <= b)
    ensures Share(t, a) <= Share(t, b)
  {
    assert t * (b as real) - t * (a as real) == t * ((b - a) as real);
  }

  /** What is no further left on the first and on the last line is no further left on any. */
  lemma BetweenOrdered(top: int, bottom: int, top': int, bottom': int, t: real)
    requires 0.0 <= t <= 1.0 && top <= top' && (t == 0.0 || bottom <= bottom')
    ensures Between(top, bottom, t) <= Between(top', bottom', t)
  {
    hide Share;
    ShareOrdered(1.0 - t, top, top');
    ShareOrdered(t, bottom, bottom');
  }

  datatype Limit = Everywhere | Before(line: Line, x: real)

  predicate LeftOf(e: Edge, limit: Limit) {
    limit.Before? ==> PosAt(e, limit.line) < limit.x
  }

  /** The edges of one kind that go through the band, and are to the left of a place on a line, if one is given. */
  function WindingLeft(edges: seq<Edge>, yU: int, yL: int, isClip: bool, x: Limit): int {
    if edges == [] then 0
    else
      var e := edges[|edges| - 1];
      WindingLeft(edges[..|edges| - 1], yU, yL, isClip, x)
      + if e.isClip == isClip && Spans(e, yU, yL) && LeftOf(e, x) then e.wind else 0
  }

  /** In a band the edges that go through it are those that cross a level in it. */
  lemma {:induction false} BandWinding(edges: seq<Edge>, yU: int, yL: int, isClip: bool)
    requires forall i :: 0 <= i < |edges| ==>
               EdgeOk(edges[i]) && !(yL < edges[i].yTop < yU) && !(yL < edges[i].yBot < yU)
    requires yU > yL
    ensures WindingLeft(edges, yU, yL, isClip, Everywhere) == Winding(edges, yL, isClip)
  {
    if edges != [] {
      BandWinding(edges[..|edges| - 1], yU, yL, isClip);
    }
  }

  /** The rule by which winding numbers make an inside. */
  predicate Filled(fig: int, clip: int, clipflag: bool, evenOdd: bool) {
    if evenOdd then fig % 2 != 0 && (clipflag ==> clip % 2 != 0) else fig != 0 && (clipflag ==> clip != 0)
  }

  /**
    x is inside on the line: the figure winds around it, and so does the clip if there is one; for the even-odd rule, an
    odd number of times.
   */
  predicate Inside(edges: seq<Edge>, line: Line, x: real, clipflag: bool, evenOdd: bool) {
    var fig := WindingLeft(edges, line.yU, line.yL, false, Before(line, x));
    var clip := WindingLeft(edges, line.yU, line.yL, true, Before(line, x));
    if evenOdd then Odd(fig) && (clipflag ==> Odd(clip)) else fig != 0 && (clipflag ==> clip != 0)
  }

  predicate Odd(n: int) {
    n % 2 == 1
  }

  /** No edge through the band meets the line at x. */
  predicate OffEdges(edges: seq<Edge>, line: Line, x: real) {
    forall i :: 0 <= i < |edges| && Spans(edges[i], line.yU, line.yL) ==> PosAt(edges[i], line) != x
  }

  // ---------------------------------------------------------------- lists of edges

  /** The same sums over a list of edge numbers. */
  function Sum(edges: seq<Edge>, list: seq<int>, isClip: bool, limit: Limit): int {
    if list == [] then 0
    else Sum(edges, list[..|list| - 1], isClip, limit) + Term(edges, list[|list| - 1], isClip, limit)
  }

  function Term(edges: seq<Edge>, n: int, isClip: bool, limit: Limit): int {
    if 0 <= n < |edges| && edges[n].isClip == isClip && LeftOf(edges[n], limit) then edges[n].wind else 0
  }

  /** The numbers of the edges through the band, as Reduce collects them. */
  function Active(edges: seq<Edge>, yU: int, yL: int): (list: seq<nat>)
    ensures forall j :: 0 <= j < |list| ==> list[j] < |edges| && Spans(edges[list[j]], yU, yL)
  {
    if edges == [] then []
    else
      var n := |edges| - 1;
      var rest := Active(edges[..n], yU, yL);
      if Spans(edges[n], yU, yL) then rest + [n] else rest
  }

  lemma {:induction false} ActiveComplete(edges: seq<Edge>, yU: int, yL: int, i: nat)
    requires i < |edges| && Spans(edges[i], yU, yL)
    ensures i in Active(edges, yU, yL)
  {
    if i < |edges| - 1 {
      ActiveComplete(edges[..|edges| - 1], yU, yL, i);
    }
  }

  lemma {:induction false} ActiveBound(edges: seq<Edge>, yU: int, yL: int)
    ensures |Active(edges, yU, yL)| <= |edges|
  {
    if edges != [] {
      ActiveBound(edges[..|edges| - 1], yU, yL);
    }
  }

  lemma {:induction false} SumPrefix(edges: seq<Edge>, more: seq<Edge>, list: seq<int>, isClip: bool,
                                     limit: Limit)
    requires forall j :: 0 <= j < |list| ==> 0 <= list[j] < |edges|
    ensures Sum(edges + more, list, isClip, limit) == Sum(edges, list, isClip, limit)
  {
    if list != [] {
      SumPrefix(edges, more, list[..|list| - 1], isClip, limit);
    }
  }

  lemma {:induction false} ActiveSum(edges: seq<Edge>, yU: int, yL: int, isClip: bool, limit: Limit)
    ensures Sum(edges, Active(edges, yU, yL), isClip, limit) == WindingLeft(edges, yU, yL, isClip, limit)
  {
    hide EdgeX, Sum, LeftOf;
    EmptySum(edges, isClip, limit);
    if edges != [] {
      var n := |edges| - 1;
      var rest := Active(edges[..n], yU, yL);
      ActiveSum(edges[..n], yU, yL, isClip, limit);
      assert edges[..n] + [edges[n]] == edges;
      SumPrefix(edges[..n], [edges[n]], rest, isClip, limit);
      SumAppend(edges, rest, n, isClip, limit);
    }
  }

  lemma EmptySum(edges: seq<Edge>, isClip: bool, limit: Limit)
    ensures Sum(edges, [], isClip, limit) == 0
  {
  }

  lemma SumAppend(edges: seq<Edge>, list: seq<int>, n: int, isClip: bool, limit: Limit)
    ensures Sum(edges, list + [n], isClip, limit)
              == Sum(edges, list, isClip, limit) + Term(edges, n, isClip, limit)
  {
    assert (list + [n])[..|list|] == list;
  }

  /** A prefix of the list that lies to the left of x, with the rest to the right. */
  lemma {:induction false} SumSplit(edges: seq<Edge>, list: seq<int>, g: nat, isClip: bool, line: Line, x: real)
    requires g <= |list| && forall j :: 0 <= j < |list| ==> 0 <= list[j] < |edges|
    requires forall j :: 0 <= j < g ==> PosAt(edges[list[j]], line) < x
    requires forall j :: g <= j < |list| ==> PosAt(edges[list[j]], line) >= x
    ensures Sum(edges, list, isClip, Before(line, x)) == Sum(edges, list[..g], isClip, Everywhere)
    decreases |list|
  {
    hide PosAt;
    if list != [] {
      var n := |list| - 1;
      if g == |list| {
        assert list[..g] == list;
        SumSplit(edges, list[..n], n, isClip, line, x);
        assert list[..n][..n] == list[..n];
      } else {
        SumSplit(edges, list[..n], g, isClip, line, x);
        assert list[..n][..g] == list[..g];
      }
    }
  }

  // ---------------------------------------------------------------- insertion sort

  /** x goes before those at the end whose keys are greater. */
  function Insert(key: int -> int, s: seq<int>, x: int): (r: seq<int>)
    ensures |r| == |s| + 1
  {
    if s != [] && key(s[|s| - 1]) > key(x) then Insert(key, s[..|s| - 1], x) + [s[|s| - 1]] else s + [x]
  }

  function Sorted(key: int -> int, s: seq<int>): (r: seq<int>)
    ensures |r| == |s|
  {
    if s == [] then [] else Insert(key, Sorted(key, s[..|s| - 1]), s[|s| - 1])
  }

  predicate Ascending(key: int -> int, s: seq<int>) {
    forall i, j :: 0 <= i < j < |s| ==> key(s[i]) <= key(s[j])
  }

  lemma {:induction false} InsertMeaning(key: int -> int, s: seq<int>, x: int)
    requires Ascending(key, s)
    ensures Ascending(key, Insert(key, s, x))
    ensures forall v :: v in Insert(key, s, x) <==> v in s || v == x
  {
    hide Ascending;
    if s != [] && key(s[|s| - 1]) > key(x) {
      var n := |s| - 1;
      assert s == s[..n] + [s[n]];
      AscendingPrefix(key, s);
      InsertMeaning(key, s[..n], x);
      AscendingAppend(key, Insert(key, s[..n], x), s[n]);
    } else {
      AscendingLast(key, s, x);
    }
  }

  /** Without its last element, which is the greatest. */
  lemma AscendingPrefix(key: int -> int, s: seq<int>)
    requires Ascending(key, s) && s != []
    ensures Ascending(key, s[..|s| - 1]) && forall v :: v in s[..|s| - 1] ==> key(v) <= key(s[|s| - 1])
  {
  }

  lemma AscendingAppend(key: int -> int, s: seq<int>, last: int)
    requires Ascending(key, s) && forall v :: v in s ==> key(v) <= key(last)
    ensures Ascending(key, s + [last])
  {
    var r := s + [last];
    forall i, j | 0 <= i < j < |r| ensures key(r[i]) <= key(r[j]) {
      if j < |s| {
        assert key(s[i]) <= key(s[j]);
      } else {
        var v := s[i];
        assert v in s && r[i] == v && r[j] == last;
      }
    }
  }

  lemma AscendingLast(key: int -> int, s: seq<int>, x: int)
    requires Ascending(key, s) && (s == [] || key(s[|s| - 1]) <= key(x))
    ensures Ascending(key, s + [x])
  {
  }

  lemma {:induction false} SortedMeaning(key: int -> int, s: seq<int>)
    ensures Ascending(key, Sorted(key, s))
    ensures forall v :: v in Sorted(key, s) <==> v in s
  {
    if s != [] {
      var n := |s| - 1;
      SortedMeaning(key, s[..n]);
      InsertMeaning(key, Sorted(key, s[..n]), s[n]);
      assert s == s[..n] + [s[n]];
    }
  }

  /** Sorting a list of edges does not change its sums. */
  lemma {:induction false} InsertSum(key: int -> int, s: seq<int>, n: int, edges: seq<Edge>, isClip: bool,
                                     limit: Limit)
    ensures Sum(edges, Insert(key, s, n), isClip, limit)
            == Sum(edges, s, isClip, limit) + Term(edges, n, isClip, limit)
  {
    if s != [] && key(s[|s| - 1]) > key(n) {
      var m := |s| - 1;
      InsertSum(key, s[..m], n, edges, isClip, limit);
      assert Insert(key, s, n)[..|s|] == Insert(key, s[..m], n);
    } else {
      assert (s + [n])[..|s|] == s;
    }
  }

  lemma {:induction false} SortedSum(key: int -> int, s: seq<int>, edges: seq<Edge>, isClip: bool,
                                     limit: Limit)
    ensures Sum(edges, Sorted(key, s), isClip, limit) == Sum(edges, s, isClip, limit)
  {
    if s != [] {
      SortedSum(key, s[..|s| - 1], edges, isClip, limit);
      InsertSum(key, Sorted(key, s[..|s| - 1]), s[|s| - 1], edges, isClip, limit);
    }
  }
}
