/**
  The heap of character bitmaps (PostScript/Adobe/fontcache.c): blocks with a tag and a length in front lie one after
  the other, from a sentinel block at 0 to a scratch block at the end.
 */
module BitmapHeap {
  import opened Wrappers

  /** What stands at the start of a block. */
  datatype Header = Header(used: bool, length: nat)

  // ---------------------------------------------------------------- blocks in memory

  /** Where the block after offs[i] starts, or where the heap ends. */
  function End(offs: seq<nat>, i: nat, size: nat): nat {
    if i + 1 < |offs| then offs[i + 1] else size
  }

  ghost predicate BlockAt(mem: seq<Header>, offs: seq<nat>, i: nat, overhead: nat) {
    i < |offs| && offs[i] < |mem| && mem[offs[i]].length >= overhead > 0
    && offs[i] + mem[offs[i]].length == End(offs, i, |mem|)
  }

  /** The blocks at offs lie one after the other and fill the heap. */
  ghost predicate Tiled(mem: seq<Header>, offs: seq<nat>, overhead: nat) {
    offs != [] && offs[0] == 0 && forall i: nat :: i < |offs| ==> BlockAt(mem, offs, i, overhead)
  }

  /** The blocks are in the order of their addresses. */
  lemma {:induction false} Ordered(mem: seq<Header>, offs: seq<nat>, overhead: nat, i: nat, j: nat)
    requires Tiled(mem, offs, overhead) && i < j < |offs|
    ensures offs[i] < |mem| && offs[i] + mem[offs[i]].length <= offs[j]
    decreases j
  {
    assert BlockAt(mem, offs, i, overhead);
    if i + 1 < j {
      Ordered(mem, offs, overhead, i, j - 1);
      assert BlockAt(mem, offs, j - 1, overhead);
    }
  }

  function LengthIf(mem: seq<Header>, o: nat, used: bool): nat {
    if o < |mem| && mem[o].used == used then mem[o].length else 0
  }

  /** The lengths of the used blocks, or of the free ones. */
  function Sum(mem: seq<Header>, offs: seq<nat>, used: bool): nat {
    if offs == [] then 0 else Sum(mem, offs[..|offs| - 1], used) + LengthIf(mem, offs[|offs| - 1], used)
  }

  lemma {:induction false} SumFrame(mem: seq<Header>, mem': seq<Header>, offs: seq<nat>, used: bool)
    requires forall i :: 0 <= i < |offs| ==> LengthIf(mem, offs[i], used) == LengthIf(mem', offs[i], used)
    ensures Sum(mem, offs, used) == Sum(mem', offs, used)
  {
    if offs != [] {
      SumFrame(mem, mem', offs[..|offs| - 1], used);
    }
  }

  lemma {:induction false} SumConcat(mem: seq<Header>, a: seq<nat>, b: seq<nat>, used: bool)
    ensures Sum(mem, a + b, used) == Sum(mem, a, used) + Sum(mem, b, used)
  {
    if b == [] {
      assert a + b == a;
    } else {
      assert (a + b)[..|a + b| - 1] == a + b[..|b| - 1];
      SumConcat(mem, a, b[..|b| - 1], used);
    }
  }

  lemma SumAt(mem: seq<Header>, offs: seq<nat>, i: nat, used: bool)
    requires i < |offs|
    ensures Sum(mem, offs, used)
              == Sum(mem, offs[..i], used) + LengthIf(mem, offs[i], used) + Sum(mem, offs[i + 1..], used)
  {
    assert offs == offs[..i] + [offs[i]] + offs[i + 1..];
    SumConcat(mem, offs[..i] + [offs[i]], offs[i + 1..], used);
    SumConcat(mem, offs[..i], [offs[i]], used);
  }

  /** Used and free lengths make up the heap. */
  lemma {:induction false} SumTo(mem: seq<Header>, offs: seq<nat>, overhead: nat, i: nat)
    requires Tiled(mem, offs, overhead) && i < |offs|
    ensures Sum(mem, offs[..i + 1], true) + Sum(mem, offs[..i + 1], false) == End(offs, i, |mem|)
  {
    assert BlockAt(mem, offs, i, overhead);
    assert offs[..i + 1][..i] == offs[..i];
    if i > 0 {
      SumTo(mem, offs, overhead, i - 1);
    } else {
      assert offs[..0] == [];
    }
  }

  lemma SumAll(mem: seq<Header>, offs: seq<nat>, overhead: nat)
    requires Tiled(mem, offs, overhead)
    ensures Sum(mem, offs, true) + Sum(mem, offs, false) == |mem|
  {
    SumTo(mem, offs, overhead, |offs| - 1);
    assert offs[..|offs|] == offs;
  }

  // ---------------------------------------------------------------- changes

  /** The used blocks are the same before and after, but for those at the offsets in change. */
  ghost predicate SameUsed(mem: seq<Header>, offs: seq<nat>, mem': seq<Header>, offs': seq<nat>, change: set<nat>) {
    forall o: nat :: o !in change ==>
      (IsUsed(mem, offs, o) <==> IsUsed(mem', offs', o)) && (IsUsed(mem, offs, o) ==> mem'[o] == mem[o])
  }

  predicate IsUsed(mem: seq<Header>, offs: seq<nat>, o: nat) {
    o in offs && o < |mem| && mem[o].used
  }

  /** A free block offs[i] is taken whole. */
  lemma TakeWhole(mem: seq<Header>, offs: seq<nat>, overhead: nat, i: nat)
    requires Tiled(mem, offs, overhead) && i < |offs| && offs[i] < |mem| && !mem[offs[i]].used
    ensures var mem' := mem[offs[i] := mem[offs[i]].(used := true)];
            && Tiled(mem', offs, overhead) && SameUsed(mem, offs, mem', offs, {offs[i]})
            && Sum(mem', offs, true) == Sum(mem, offs, true) + mem[offs[i]].length
  {
    var o := offs[i];
    var mem' := mem[o := mem[o].(used := true)];
    Retagged(mem, mem', offs, overhead, i);
    Resummed(mem, mem', offs, overhead, i);
  }

  /** A used block offs[i] is given back. */
  lemma GiveBack(mem: seq<Header>, offs: seq<nat>, overhead: nat, i: nat)
    requires Tiled(mem, offs, overhead) && i < |offs| && offs[i] < |mem| && mem[offs[i]].used
    ensures var mem' := mem[offs[i] := mem[offs[i]].(used := false)];
            && Tiled(mem', offs, overhead) && SameUsed(mem, offs, mem', offs, {offs[i]})
            && Sum(mem', offs, true) == Sum(mem, offs, true) - mem[offs[i]].length
  {
    var o := offs[i];
    var mem' := mem[o := mem[o].(used := false)];
    Retagged(mem, mem', offs, overhead, i);
    Resummed(mem, mem', offs, overhead, i);
  }

  lemma Retagged(mem: seq<Header>, mem': seq<Header>, offs: seq<nat>, overhead: nat, i: nat)
    requires Tiled(mem, offs, overhead) && i < |offs| && offs[i] < |mem|
    requires |mem'| == |mem| && mem' == mem[offs[i] := mem'[offs[i]]] && mem'[offs[i]].length == mem[offs[i]].length
    ensures Tiled(mem', offs, overhead)
  {
    forall j: nat | j < |offs| ensures BlockAt(mem', offs, j, overhead) {
      assert BlockAt(mem, offs, j, overhead);
    }
  }

  /** A change at one block shows in the sums at that block only. */
  lemma Resummed(mem: seq<Header>, mem': seq<Header>, offs: seq<nat>, overhead: nat, i: nat)
    requires Tiled(mem, offs, overhead) && i < |offs| && offs[i] < |mem| == |mem'|
    requires forall o :: 0 <= o < |mem| && o != offs[i] ==> mem'[o] == mem[o]
    ensures Sum(mem', offs, true) + LengthIf(mem, offs[i], true) == Sum(mem, offs, true) + LengthIf(mem', offs[i], true)
  {
    SumAt(mem, offs, i, true);
    SumAt(mem', offs, i, true);
    Apart(mem, offs, overhead, i);
    SumFrame(mem, mem', offs[..i], true);
    SumFrame(mem, mem', offs[i + 1..], true);
  }

  lemma Apart(mem: seq<Header>, offs: seq<nat>, overhead: nat, i: nat)
    requires Tiled(mem, offs, overhead) && i < |offs|
    ensures forall j :: 0 <= j < |offs| && j != i ==> offs[j] != offs[i]
  {
    forall j | 0 <= j < |offs| && j != i ensures offs[j] != offs[i] {
      assert BlockAt(mem, offs, j, overhead) && BlockAt(mem, offs, i, overhead);
      if j < i { Ordered(mem, offs, overhead, j, i); } else { Ordered(mem, offs, overhead, i, j); }
    }
  }

  /** A free block offs[i] is cut: its first n bytes are used, and the rest is a free block of its own. */
  lemma Cut(mem: seq<Header>, offs: seq<nat>, overhead: nat, i: nat, n: nat)
    requires Tiled(mem, offs, overhead) && i < |offs| && offs[i] < |mem| && !mem[offs[i]].used
    requires n >= overhead && mem[offs[i]].length > n + overhead
    ensures offs[i] + n < |mem|
    ensures var o, f := offs[i], offs[i] + n;
            var mem' := mem[f := Header(false, mem[o].length - n)][o := Header(true, n)];
            var offs' := offs[..i + 1] + [f] + offs[i + 1..];
            && Tiled(mem', offs', overhead) && SameUsed(mem, offs, mem', offs', {o})
            && Sum(mem', offs', true) == Sum(mem, offs, true) + n
            && f !in offs
  {
    assert BlockAt(mem, offs, i, overhead);
    EndsInside(mem, offs, overhead, i);
    var o, f := offs[i], offs[i] + n;
    var mem' := mem[f := Header(false, mem[o].length - n)][o := Header(true, n)];
    var offs' := offs[..i + 1] + [f] + offs[i + 1..];
    NotABlock(mem, offs, overhead, i, f);
    Apart(mem, offs, overhead, i);
    forall j: nat | j < |offs'| ensures BlockAt(mem', offs', j, overhead) {
      if j < i {
        assert BlockAt(mem, offs, j, overhead);
      } else if j > i + 1 {
        assert BlockAt(mem, offs, j - 1, overhead);
      }
    }
    CutUsed(mem, offs, i, n);
    CutSum(mem, offs, i, n);
  }

  lemma CutUsed(mem: seq<Header>, offs: seq<nat>, i: nat, n: nat)
    requires i < |offs| && offs[i] < |mem| && !mem[offs[i]].used && n > 0 && offs[i] + n < |mem| && offs[i] + n !in offs
    ensures forall length: nat :: SameUsed(mem, offs,
              mem[offs[i] + n := Header(false, length)][offs[i] := Header(true, n)],
                                           offs[..i + 1] + [offs[i] + n] + offs[i + 1..], {offs[i]})
  {
  }

  lemma CutSum(mem: seq<Header>, offs: seq<nat>, i: nat, n: nat)
    requires i < |offs| && offs[i] < |mem| && !mem[offs[i]].used && n > 0 && offs[i] + n < |mem| && offs[i] + n !in offs
    requires forall j :: 0 <= j < |offs| && j != i ==> offs[j] != offs[i]
    ensures forall length: nat ::
              Sum(mem[offs[i] + n := Header(false, length)][offs[i] := Header(true, n)],
                  offs[..i + 1] + [offs[i] + n] + offs[i + 1..], true) == Sum(mem, offs, true) + n
  {
    var o, f := offs[i], offs[i] + n;
    var offs' := offs[..i + 1] + [f] + offs[i + 1..];
    assert offs'[..i] == offs[..i] && offs'[i + 1..] == [f] + offs[i + 1..] && [f][..0] == [];
    SumAt(mem, offs, i, true);
    forall length: nat
      ensures Sum(mem[f := Header(false, length)][o := Header(true, n)], offs', true) == Sum(mem, offs, true) + n
    {
      var mem' := mem[f := Header(false, length)][o := Header(true, n)];
      SumAt(mem', offs', i, true);
      SumConcat(mem', [f], offs[i + 1..], true);
      SumFrame(mem, mem', offs[..i], true);
      SumFrame(mem, mem', offs[i + 1..], true);
    }
  }

  lemma EndsInside(mem: seq<Header>, offs: seq<nat>, overhead: nat, i: nat)
    requires Tiled(mem, offs, overhead) && i < |offs|
    ensures offs[i] < |mem| && offs[i] + mem[offs[i]].length <= |mem|
  {
    assert BlockAt(mem, offs, i, overhead);
    if i + 1 < |offs| {
      assert BlockAt(mem, offs, i + 1, overhead);
    }
  }

  /** Inside a block no other starts. */
  lemma NotABlock(mem: seq<Header>, offs: seq<nat>, overhead: nat, i: nat, f: nat)
    requires Tiled(mem, offs, overhead) && i < |offs| && offs[i] < |mem| && offs[i] < f < offs[i] + mem[offs[i]].length
    ensures f !in offs
  {
    forall j | 0 <= j < |offs| ensures offs[j] != f {
      assert BlockAt(mem, offs, j, overhead);
      if j < i { Ordered(mem, offs, overhead, j, i); }
      if i < j { Ordered(mem, offs, overhead, i, j); }
    }
  }

  ghost predicate NoFreePair(mem: seq<Header>, offs: seq<nat>) {
    forall i :: 0 <= i && i + 1 < |offs| ==> BlockUsed(mem, offs, i) || BlockUsed(mem, offs, i + 1)
  }

  predicate BlockUsed(mem: seq<Header>, offs: seq<nat>, i: int) {
    0 <= i < |offs| && offs[i] < |mem| && mem[offs[i]].used
  }

  /** The run of free blocks at offs[i..k] becomes one block. */
  lemma Merge(mem: seq<Header>, before: seq<nat>, rest: seq<nat>, k: nat, overhead: nat)
    requires Tiled(mem, before + rest, overhead) && 1 <= k < |rest|
    requires forall j :: 0 <= j < k ==> rest[j] < |mem| && !mem[rest[j]].used
    ensures rest[0] < rest[k] <= |mem|
    ensures var mem' := mem[rest[0] := Header(false, rest[k] - rest[0])];
            var offs, offs' := before + rest, before + [rest[0]] + rest[k..];
            && Tiled(mem', offs', overhead) && SameUsed(mem, offs, mem', offs', {})
            && Sum(mem', offs', true) == Sum(mem, offs, true)
  {
    hide Tiled, Sum, SameUsed;
    MergeTiles(mem, before, rest, k, overhead);
    MergeUsed(mem, before, rest, k, mem[rest[0] := Header(false, rest[k] - rest[0])]);
    MergeSum(mem, before, rest, k, overhead);
  }

  lemma MergeTiles(mem: seq<Header>, before: seq<nat>, rest: seq<nat>, k: nat, overhead: nat)
    requires Tiled(mem, before + rest, overhead) && 1 <= k < |rest|
    requires forall j :: 0 <= j < k ==> rest[j] < |mem| && !mem[rest[j]].used
    ensures rest[0] < rest[k] <= |mem|
    ensures Tiled(mem[rest[0] := Header(false, rest[k] - rest[0])], before + [rest[0]] + rest[k..], overhead)
  {
    var offs, offs' := before + rest, before + [rest[0]] + rest[k..];
    var b := |before|;
    assert offs[b] == rest[0] && offs[b + k] == rest[k];
    assert BlockAt(mem, offs, b, overhead) && BlockAt(mem, offs, b + k, overhead);
    Ordered(mem, offs, overhead, b, b + k);
    var mem' := mem[rest[0] := Header(false, rest[k] - rest[0])];
    Apart(mem, offs, overhead, b);
    forall j: nat | j < |offs'| ensures BlockAt(mem', offs', j, overhead) {
      if j < b {
        assert BlockAt(mem, offs, j, overhead);
        assert offs'[j] == offs[j] && offs[j] != rest[0] && End(offs', j, |mem|) == End(offs, j, |mem|);
      } else if j > b {
        assert BlockAt(mem, offs, j - 1 + k, overhead);
        assert offs'[j] == offs[j - 1 + k] && offs[j - 1 + k] != rest[0]
                 && End(offs', j, |mem|) == End(offs, j - 1 + k, |mem|);
      } else {
        assert offs'[j] == rest[0] && End(offs', j, |mem|) == rest[k];
      }
    }
  }

  lemma MergeUsed(mem: seq<Header>, before: seq<nat>, rest: seq<nat>, k: nat, mem': seq<Header>)
    requires 1 <= k < |rest| && |mem'| == |mem| && rest[0] < |mem| && mem' == mem[rest[0] := mem'[rest[0]]]
               && !mem'[rest[0]].used
    requires forall j :: 0 <= j < k ==> rest[j] < |mem| && !mem[rest[j]].used
    ensures SameUsed(mem, before + rest, mem', before + [rest[0]] + rest[k..], {})
  {
  }

  lemma MergeSum(mem: seq<Header>, before: seq<nat>, rest: seq<nat>, k: nat, overhead: nat)
    requires Tiled(mem, before + rest, overhead) && 1 <= k < |rest| && rest[0] < rest[k] <= |mem|
    requires forall j :: 0 <= j < k ==> rest[j] < |mem| && !mem[rest[j]].used
    ensures Sum(mem[rest[0] := Header(false, rest[k] - rest[0])], before + [rest[0]] + rest[k..], true)
              == Sum(mem, before + rest, true)
  {
    var mem' := mem[rest[0] := Header(false, rest[k] - rest[0])];
    assert before + rest == before + (rest[..k] + rest[k..]);
    SumConcat(mem, before, rest[..k] + rest[k..], true);
    SumConcat(mem, rest[..k], rest[k..], true);
    NothingUsed(mem, rest[..k]);
    assert before + [rest[0]] + rest[k..] == before + ([rest[0]] + rest[k..]);
    SumConcat(mem', before, [rest[0]] + rest[k..], true);
    SumConcat(mem', [rest[0]], rest[k..], true);
    NothingUsed(mem', [rest[0]]);
    SumFrame(mem, mem', before, true);
    SumFrame(mem, mem', rest[k..], true);
  }

  lemma {:induction false} NothingUsed(mem: seq<Header>, offs: seq<nat>)
    requires forall j :: 0 <= j < |offs| ==> offs[j] < |mem| && !mem[offs[j]].used
    ensures Sum(mem, offs, true) == 0
  {
    if offs != [] {
      NothingUsed(mem, offs[..|offs| - 1]);
    }
  }

  lemma SameUsedTwice(m0: seq<Header>, o0: seq<nat>, m1: seq<Header>, o1: seq<nat>, m2: seq<Header>, o2: seq<nat>)
    requires SameUsed(m0, o0, m1, o1, {}) && SameUsed(m1, o1, m2, o2, {})
    ensures SameUsed(m0, o0, m2, o2, {})
  {
  }

  // ---------------------------------------------------------------- the heap

  class Heap {
    /** The size of a header, at which every block starts. */
    const overhead: nat
    /** The headers, by address; between the starts of blocks there is bitmap data. */
    var mem: seq<Header>
    var bmFree: Option<nat>
    var bmScratch: nat
    var bmUsed: nat
    ghost var offs: seq<nat>

    ghost predicate Valid()
      reads this
    {
      && Tiled(mem, offs, overhead)
      && bmUsed == Sum(mem, offs, true)
      && (bmFree.Some? ==> bmFree.value in offs && bmFree.value < |mem| && !mem[bmFree.value].used)
      && |offs| >= 2 && BlockUsed(mem, offs, 0) && BlockUsed(mem, offs, |offs| - 1) && offs[|offs| - 1] == bmScratch
    }

    /** InitBM: a sentinel, one free block, and the scratch block. */
    constructor (size: nat, overhead: nat, l: nat)
      requires overhead > 0 && l >= overhead && size >= 2 * overhead + l
      ensures Valid() && |mem| == size && this.overhead == overhead && bmUsed == overhead + l
      ensures offs == [0, overhead, size - l] && bmScratch == size - l && mem[0] == Header(true, overhead)
      ensures bmFree == Some(overhead) && mem[overhead] == Header(false, size - overhead - l)
    {
      var m := seq(size, _ => Header(false, 0));
      m := m[0 := Header(true, overhead)];
      m := m[size - l := Header(true, l)];
      m := m[overhead := Header(false, size - (l + overhead))];
      mem, bmScratch, bmFree, bmUsed := m, size - l, Some(overhead), l + overhead;
      offs := [0, overhead, size - l];
      this.overhead := overhead;
      new;
      assert BlockAt(mem, offs, 0, overhead) && BlockAt(mem, offs, 1, overhead) && BlockAt(mem, offs, 2, overhead);
      assert offs[..2] == [0, overhead] && [0, overhead][..1] == [0] && [0][..0] == [];
      assert Sum(mem, [0], true) == overhead && Sum(mem, [0, overhead], true) == overhead;
    }

    /** Some block is free and has room for n bytes. */
    ghost predicate HasRoom(n: nat)
      reads this
    {
      exists i :: 0 <= i < |offs| && offs[i] < |mem| && !mem[offs[i]].used && mem[offs[i]].length >= n
    }

    /** CheckBM: the walk over all blocks meets only blocks, and ends. */
    method CheckBM()
      requires Valid()
    {
      var o := 0;
      ghost var i := 0;
      while o < |mem|
        invariant 0 <= i <= |offs| && o == if i < |offs| then offs[i] else |mem|
        decreases |offs| - i
      {
        assert BlockAt(mem, offs, i, overhead);
        o := o + mem[o].length;
        i := i + 1;
      }
    }

    /** A free block is made used, cut if it is much too long; f is the block that is cut off. */
    method UseBlock(o: nat, n: nat) returns (f: Option<nat>)
      requires Valid() && o in offs && o < |mem| && !mem[o].used && mem[o].length >= n >= overhead
      requires bmFree == Some(o) || bmFree.None? || bmFree.value != o
      modifies `mem, `offs
      ensures |mem| == |old(mem)| && Tiled(mem, offs, overhead) && Taken(old(mem), old(offs), mem, offs, o, n, overhead)
      ensures Sum(mem, offs, true) == old(bmUsed) + mem[o].length
      ensures f.Some? ==> f.value in offs && f.value < |mem| && !mem[f.value].used
      ensures f == if old(mem)[o].length > n + overhead then Some(o + n) else None
      ensures forall e :: e in old(offs) && e != o ==> e in offs && (e < |mem| ==> mem[e] == old(mem)[e])
      ensures |offs| >= 2 && BlockUsed(mem, offs, 0) && BlockUsed(mem, offs, |offs| - 1)
                && offs[|offs| - 1] == bmScratch
    {
      hide Tiled, Sum, SameUsed;
      ghost var i :| 0 <= i < |offs| && offs[i] == o;
      f := None;
      if mem[o].length > n + overhead {
        Cut(mem, offs, overhead, i, n);
        f := Some(o + n);
        mem := mem[o + n := Header(false, mem[o].length - n)][o := Header(true, n)];
        offs := offs[..i + 1] + [o + n] + offs[i + 1..];
        assert offs[i] == o && offs[i + 1] == o + n;
      } else {
        TakeWhole(mem, offs, overhead, i);
        mem := mem[o := mem[o].(used := true)];
      }
    }

    /** The first free block with room for n; for scratch, the scratch block if there is one. */
    method FindBMHole(n: nat, scratch: bool) returns (r: Option<nat>)
      requires Valid() && n >= overhead
      requires bmFree.Some? ==> mem[bmFree.value].length < n
      modifies `mem, `offs
      ensures r.Some? <==> old(HasRoom(n))
      ensures r.None? || scratch ==> mem == old(mem) && offs == old(offs)
      ensures r.Some? && scratch ==> r.value == bmScratch
      ensures r.Some? && !scratch ==>
                && |mem| == |old(mem)| && Taken(old(mem), old(offs), mem, offs, r.value, n, overhead)
                && NoneBefore(old(mem), old(offs), r.value, n)
                && Tiled(mem, offs, overhead) && Sum(mem, offs, true) == bmUsed + mem[r.value].length
                && (bmFree.Some? ==> bmFree.value in offs && !mem[bmFree.value].used)
                && |offs| >= 2 && BlockUsed(mem, offs, 0) && BlockUsed(mem, offs, |offs| - 1)
                && offs[|offs| - 1] == bmScratch
    {
      hide Sum, SameUsed;
      var o := 0;
      ghost var i := 0;
      while o < |mem|
        invariant 0 <= i <= |offs| && o == if i < |offs| then offs[i] else |mem|
        invariant mem == old(mem) && offs == old(offs)
        invariant forall j :: 0 <= j < i ==> !(offs[j] < |mem| && !mem[offs[j]].used && mem[offs[j]].length >= n)
        decreases |offs| - i
      {
        assert BlockAt(mem, offs, i, overhead);
        if !mem[o].used && mem[o].length >= n {
          assert HasRoom(n);
          if scratch { return Some(bmScratch); }
          IsFirst(mem, offs, overhead, i, n);
          var f := UseBlock(o, n);
          return Some(o);
        }
        o := o + mem[o].length;
        i := i + 1;
      }
      assert i < |offs| ==> BlockAt(mem, offs, i, overhead);
      r := None;
    }

    /** The block at the free pointer is tried first; if it is too short, the first block with room is taken. */
    method AllocBM(n: nat, scratch: bool) returns (r: Option<nat>)
      requires Valid() && n >= overhead
      modifies `mem, `offs, `bmFree, `bmUsed
      ensures Valid() && |mem| == |old(mem)|
      ensures r.Some? <==> old(HasRoom(n))
      ensures r.None? || scratch ==>
                mem == old(mem) && offs == old(offs) && bmFree == old(bmFree) && bmUsed == old(bmUsed)
      ensures r.Some? && scratch ==> r.value == bmScratch
      ensures r.Some? && !scratch ==>
                Taken(old(mem), old(offs), mem, offs, r.value, n, overhead)
                  && bmUsed == old(bmUsed) + mem[r.value].length
      ensures r.Some? && !scratch ==>
                if old(bmFree).Some? && old(mem)[old(bmFree).value].length >= n then
                  && r == old(bmFree)
                  && bmFree == if old(mem)[r.value].length > n + overhead then Some(r.value + n) else None
                else
                  NoneBefore(old(mem), old(offs), r.value, n) && bmFree == old(bmFree)
    {
      hide Tiled, Sum, SameUsed;
      CheckBM();
      RoomLeft(n);
      if bmFree.Some? && mem[bmFree.value].length >= n {
        var o := bmFree.value;
        assert HasRoom(n);
        if scratch { return Some(bmScratch); }
        var f := UseBlock(o, n);
        bmFree := f;
        r := Some(o);
      } else {
        r := None;
        if |mem| - bmUsed >= n { r := FindBMHole(n, scratch); }
        if r.None? || scratch { return; }
      }
      bmUsed := bmUsed + mem[r.value].length;
      CheckBM();
    }

    /** Where there is room for n, at least n bytes are not used. */
    lemma RoomLeft(n: nat)
      requires Valid()
      ensures HasRoom(n) ==> |mem| - bmUsed >= n
    {
      SumAll(mem, offs, overhead);
      if HasRoom(n) {
        var i :| 0 <= i < |offs| && offs[i] < |mem| && !mem[offs[i]].used && mem[offs[i]].length >= n;
        SumAt(mem, offs, i, false);
      }
    }

    /** The end of PurgeCharsForMID: the bitmap of a character is given back. */
    method FreeBM(o: nat)
      requires Valid() && o in offs && o < |mem| && mem[o].used && o != 0 && o != bmScratch
      modifies `mem, `bmUsed
      ensures Valid() && |mem| == |old(mem)| && bmUsed == old(bmUsed) - old(mem)[o].length
      ensures SameUsed(old(mem), offs, mem, offs, {o}) && mem[o] == Header(false, old(mem)[o].length)
      ensures forall e :: e in offs && e != o && e < |mem| ==> mem[e] == old(mem)[e]
    {
      hide Sum, SameUsed;
      ghost var i :| 0 <= i < |offs| && offs[i] == o;
      GiveBack(mem, offs, overhead, i);
      mem := mem[o := mem[o].(used := false)];
      bmUsed := bmUsed - mem[o].length;
    }

    /** The inner loop of CoalesceBM: how far the free blocks from o on reach. */
    method FreeRun(o: nat, ghost before: seq<nat>, ghost rest: seq<nat>) returns (l: nat, ghost k: nat)
      requires Tiled(mem, before + rest, overhead) && BlockUsed(mem, before + rest, |before + rest| - 1)
      requires rest != [] && o == rest[0] < |mem| && !mem[o].used
      ensures 1 <= k < |rest| && o + l == rest[k] && BlockUsed(mem, rest, k)
      ensures forall j :: 0 <= j < k ==> rest[j] < |mem| && !mem[rest[j]].used
    {
      ghost var offs := before + rest;
      assert BlockAt(mem, offs, |before|, overhead);
      assert offs[|offs| - 1] == rest[|rest| - 1];
      l := mem[o].length;
      var n := o + l;
      k := 1;
      assert BlockAt(mem, offs, |before| + 1, overhead);
      while !mem[n].used
        invariant 1 <= k < |rest| && n == rest[k] < |mem| && n == o + l
        invariant forall j :: 0 <= j < k ==> rest[j] < |mem| && !mem[rest[j]].used
        decreases |rest| - k
      {
        assert BlockAt(mem, offs, |before| + k, overhead) && BlockAt(mem, offs, |before| + k + 1, overhead);
        l := l + mem[n].length;
        n := o + l;
        k := k + 1;
        if n >= |mem| { break; }
      }
    }

    /** A run of free blocks at o becomes one block. */
    method MergeRun(o: nat, ghost before: seq<nat>, ghost rest: seq<nat>) returns (ghost k: nat)
      requires offs == before + rest && rest != [] && o == rest[0] < |mem| && !mem[o].used
      requires Tiled(mem, offs, overhead) && |offs| >= 2 && BlockUsed(mem, offs, 0) && BlockUsed(mem, offs, |offs| - 1)
      requires NoFreePair(mem, before)
                 && (before != [] ==> BlockUsed(mem, before, |before| - 1) || BlockUsed(mem, rest, 0))
      modifies `mem, `offs
      ensures 1 <= k < |rest| && offs == before + [o] + rest[k..] && |mem| == |old(mem)|
      ensures mem[o] == Header(false, mem[o].length) && o + mem[o].length == rest[k]
      ensures Tiled(mem, offs, overhead) && Sum(mem, offs, true) == Sum(old(mem), old(offs), true)
      ensures SameUsed(old(mem), old(offs), mem, offs, {})
      ensures |offs| >= 2 && BlockUsed(mem, offs, 0) && BlockUsed(mem, offs, |offs| - 1)
      ensures offs[|offs| - 1] == old(offs[|offs| - 1])
      ensures NoFreePair(mem, before + [o]) && BlockUsed(mem, rest[k..], 0)
    {
      hide Tiled, Sum, SameUsed, NoFreePair, BlockUsed;
      var l;
      l, k := FreeRun(o, before, rest);
      Merge(mem, before, rest, k, overhead);
      Merged(mem, before, rest, k, overhead);
      mem := mem[o := Header(false, l)];
      offs := before + [o] + rest[k..];
    }

    /** Runs of free blocks become one block each. */
    method CoalesceBM()
      requires Valid()
      modifies `mem, `offs, `bmFree
      ensures Valid() && |mem| == |old(mem)|
      ensures SameUsed(old(mem), old(offs), mem, offs, {}) && NoFreePair(mem, offs) && LastFree(mem, offs, bmFree)
    {
      hide Tiled, Sum, SameUsed, NoFreePair, BlockUsed;
      var o := 0;
      ghost var before: seq<nat>, rest: seq<nat> := [], offs;
      ghost var runs, last: nat := false, 0;
      assert offs[0] == 0 by { FirstAtZero(mem, offs, overhead); }
      assert before + rest == offs;
      NothingChanged(mem, offs);
      assert NoFreePair(mem, []) by { NoPairs(mem); }
      while o < |mem|
        invariant |mem| == |old(mem)|
        invariant offs == before + rest && o == if rest != [] then rest[0] else |mem|
        invariant Tiled(mem, offs, overhead) && bmUsed == Sum(mem, offs, true)
                    && SameUsed(old(mem), old(offs), mem, offs, {})
        invariant |offs| >= 2 && BlockUsed(mem, offs, 0) && BlockUsed(mem, offs, |offs| - 1)
                    && offs[|offs| - 1] == bmScratch
        invariant NoFreePair(mem, before)
        invariant before != [] && rest != [] ==> BlockUsed(mem, before, |before| - 1) || BlockUsed(mem, rest, 0)
        invariant runs ==> bmFree.Some? && bmFree.value in before && bmFree.value < |mem| && !mem[bmFree.value].used
        invariant runs ==> FreeThenUsed(mem, before, last) && before[last] == bmFree.value
        invariant !runs ==> forall i :: 0 <= i < |before| ==> BlockUsed(mem, before, i)
        invariant !runs ==> bmFree == old(bmFree) && (bmFree.Some? ==> bmFree.value in rest && !mem[bmFree.value].used)
        decreases |rest|
      {
        RestBlock(mem, before, rest, overhead);
        if !mem[o].used {
          ghost var mem0, offs0 := mem, offs;
          ghost var k := MergeRun(o, before, rest);
          SameUsedTwice(old(mem), old(offs), mem0, offs0, mem, offs);
          bmFree := Some(o);
          runs, last := true, |before|;
          FreeAppended(mem, before, o);
          before, rest := before + [o], rest[k..];
          o := o + mem[o].length;
        } else {
          UsedAppended(mem, before, o);
          o := o + mem[o].length;
          assert before + rest == (before + [rest[0]]) + rest[1..];
          before, rest := before + [rest[0]], rest[1..];
        }
      }
      if rest != [] { RestBlock(mem, before, rest, overhead); }
      assert before + rest == before;
    }
  }

  /**
    Block o, free before, has been taken for n bytes.  If more than a header would be over, the rest is a free block
    of its own; all other blocks are as they were.
   */
  ghost predicate Taken(mem: seq<Header>, offs: seq<nat>, mem': seq<Header>, offs': seq<nat>, o: nat, n: nat,
                        overhead: nat) {
    && o in offs && o < |mem| == |mem'| && !mem[o].used && mem[o].length >= n
    && IsUsed(mem', offs', o) && SameUsed(mem, offs, mem', offs', {o})
    && (forall e :: e in offs && e != o && e < |mem| ==> e in offs' && mem'[e] == mem[e])
    && if mem[o].length <= n + overhead then
         mem'[o].length == mem[o].length && forall e :: e in offs' ==> e in offs
       else
         && mem'[o].length == n && o + n in offs' && o + n < |mem| && mem'[o + n] == Header(false, mem[o].length - n)
         && forall e :: e in offs' ==> e in offs || e == o + n
  }

  /** No free block before o has room for n. */
  ghost predicate NoneBefore(mem: seq<Header>, offs: seq<nat>, o: nat, n: nat) {
    forall e :: e in offs && e < o && e < |mem| ==> mem[e].used || mem[e].length < n
  }

  lemma IsFirst(mem: seq<Header>, offs: seq<nat>, overhead: nat, i: nat, n: nat)
    requires Tiled(mem, offs, overhead) && i < |offs|
    requires forall j :: 0 <= j < i ==> !(offs[j] < |mem| && !mem[offs[j]].used && mem[offs[j]].length >= n)
    ensures NoneBefore(mem, offs, offs[i], n)
  {
    forall e | e in offs && e < offs[i] && e < |mem| ensures mem[e].used || mem[e].length < n {
      var j :| 0 <= j < |offs| && offs[j] == e;
      if j > i { Ordered(mem, offs, overhead, i, j); }
    }
  }

  /** bmFree is the last free block, if there is any. */
  ghost predicate LastFree(mem: seq<Header>, offs: seq<nat>, bmFree: Option<nat>) {
    if bmFree.None? then forall i :: 0 <= i < |offs| ==> BlockUsed(mem, offs, i)
    else exists r: nat :: FreeThenUsed(mem, offs, r) && offs[r] == bmFree.value
  }

  predicate FreeThenUsed(mem: seq<Header>, offs: seq<nat>, r: nat) {
    r < |offs| && !BlockUsed(mem, offs, r) && forall i :: r < i < |offs| ==> BlockUsed(mem, offs, i)
  }

  lemma NothingChanged(mem: seq<Header>, offs: seq<nat>)
    ensures SameUsed(mem, offs, mem, offs, {})
  {
  }

  lemma FirstAtZero(mem: seq<Header>, offs: seq<nat>, overhead: nat)
    requires Tiled(mem, offs, overhead)
    ensures offs != [] && offs[0] == 0
  {
  }

  lemma NoPairs(mem: seq<Header>)
    ensures NoFreePair(mem, [])
  {
  }

  lemma UsedAppended(mem: seq<Header>, offs: seq<nat>, o: nat)
    requires NoFreePair(mem, offs) && o < |mem| && mem[o].used
    ensures NoFreePair(mem, offs + [o]) && BlockUsed(mem, offs + [o], |offs|)
    ensures forall i :: BlockUsed(mem, offs, i) ==> BlockUsed(mem, offs + [o], i)
    ensures forall r: nat :: FreeThenUsed(mem, offs, r) ==> FreeThenUsed(mem, offs + [o], r)
  {
    forall i | 0 <= i && i + 1 < |offs + [o]|
      ensures BlockUsed(mem, offs + [o], i) || BlockUsed(mem, offs + [o], i + 1)
    {
      if i + 1 < |offs| {
        assert BlockUsed(mem, offs, i) || BlockUsed(mem, offs, i + 1);
      }
    }
  }

  lemma FreeAppended(mem: seq<Header>, offs: seq<nat>, o: nat)
    requires o < |mem| && !mem[o].used
    ensures FreeThenUsed(mem, offs + [o], |offs|)
  {
  }

  lemma RestBlock(mem: seq<Header>, before: seq<nat>, rest: seq<nat>, overhead: nat)
    requires Tiled(mem, before + rest, overhead) && rest != []
    ensures rest[0] < |mem| && rest[0] + mem[rest[0]].length == if |rest| > 1 then rest[1] else |mem|
  {
    assert BlockAt(mem, before + rest, |before|, overhead);
  }

  /** What else the merging of a run keeps. */
  lemma Merged(mem: seq<Header>, before: seq<nat>, rest: seq<nat>, k: nat, overhead: nat)
    requires Tiled(mem, before + rest, overhead) && 1 <= k < |rest| && rest[0] < rest[k] <= |mem| && rest[0] < |mem|
    requires forall j :: 0 <= j < k ==> rest[j] < |mem| && !mem[rest[j]].used
    requires |before + rest| >= 2 && BlockUsed(mem, before + rest, 0) && BlockUsed(mem, rest, k)
    requires BlockUsed(mem, before + rest, |before + rest| - 1)
    requires NoFreePair(mem, before)
               && (before != [] ==> BlockUsed(mem, before, |before| - 1) || BlockUsed(mem, rest, 0))
    ensures var mem' := mem[rest[0] := Header(false, rest[k] - rest[0])];
            var offs' := before + [rest[0]] + rest[k..];
            && |offs'| >= 2 && BlockUsed(mem', offs', 0) && BlockUsed(mem', offs', |offs'| - 1)
            && offs'[|offs'| - 1] == (before + rest)[|before + rest| - 1]
            && NoFreePair(mem', before + [rest[0]]) && BlockUsed(mem', rest[k..], 0)
  {
    var mem' := mem[rest[0] := Header(false, rest[k] - rest[0])];
    var offs := before + rest;
    Apart(mem, offs, overhead, |before|);
    assert forall j :: 0 <= j < |rest| ==> offs[|before| + j] == rest[j];
    forall i | 0 <= i && i + 1 < |before + [rest[0]]|
      ensures BlockUsed(mem', before + [rest[0]], i) || BlockUsed(mem', before + [rest[0]], i + 1)
    {
      if i + 1 < |before| {
        assert BlockUsed(mem, before, i) || BlockUsed(mem, before, i + 1);
        assert offs[i] != rest[0] && offs[i + 1] != rest[0];
      } else {
        assert BlockUsed(mem, before, |before| - 1);
        assert offs[i] != rest[0];
      }
    }
  }
}
