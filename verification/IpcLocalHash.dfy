/**
  The local reverse hash table of an IPC space (Kernel/mxwl/ipc/ipc_hash.c).

  Every slot of a space's entry table has an `ie_index` field.  These fields, read as a column, form an
  open-addressing hash table with linear probing: a non-zero cell holds the index of a table entry, and the
  entry's home cell is computed from the object it holds.  Deletion is the backward-shift deletion that the
  literature calls Algorithm R, so no tombstones are left behind.
 */
module IpcLocalHash {
  import opened Probing

  /** The home cell of an object: IH_LOCAL_HASH takes the low 32 bits of the pointer, shifted by 6. */
  function Home(obj: nat, size: nat): (h: nat)
    requires size > 0
    ensures h < size
  {
    obj % 0x1_0000_0000 / 64 % size
  }

  /** The home cell of every table index, given the objects the entries hold. */
  function Homes(objs: seq<nat>): (homes: seq<nat>)
    ensures |homes| == |objs|
    ensures forall i :: 0 <= i < |objs| ==> homes[i] == Home(objs[i], |objs|)
  {
    seq(|objs|, i requires 0 <= i < |objs| => Home(objs[i], |objs|))
  }

  ghost predicate Shape(cells: seq<nat>, homes: seq<nat>) {
    && |homes| == |cells|
    && (forall i :: 0 <= i < |homes| ==> homes[i] < |cells|)
    && (forall c :: 0 <= c < |cells| ==> cells[c] < |cells|)
  }

  /** No table index sits in two cells. */
  ghost predicate Distinct(cells: seq<nat>) {
    forall c, d :: 0 <= c < d < |cells| && cells[c] != 0 ==> cells[c] != cells[d]
  }

  /** Every entry can be reached from its home cell without meeting an empty cell. */
  ghost predicate Reachable(cells: seq<nat>, homes: seq<nat>)
    requires Shape(cells, homes)
  {
    forall c, k :: 0 <= c < |cells| && 0 <= k < |cells| && cells[c] != 0 && Before(homes[cells[c]], k, c)
      ==> cells[k] != 0
  }

  /** The invariant of the hash table. */
  ghost predicate Ok(cells: seq<nat>, homes: seq<nat>) {
    Shape(cells, homes) && Distinct(cells) && Reachable(cells, homes)
  }

  /** The table indices that are in the hash table. */
  ghost function Hashed(cells: seq<nat>): set<nat> {
    set c | 0 <= c < |cells| && cells[c] != 0 :: cells[c]
  }

  // ---------------------------------------------------------------- an empty cell always exists

  lemma {:induction false} Pigeonhole(cells: seq<nat>, bound: nat)
    requires Distinct(cells)
    requires forall c :: 0 <= c < |cells| ==> 0 < cells[c] < bound
    ensures |cells| < bound || |cells| == 0
    decreases |cells|
  {
    if |cells| > 0 {
      var n := |cells| - 1;
      var last := cells[n];
      // Remove the last cell and rename the largest value to the value that was removed.
      var rest := seq(n, c requires 0 <= c < n => if cells[c] == bound - 1 then last else cells[c]);
      Pigeonhole(rest, bound - 1);
    }
  }

  /** Index 0 is never hashed, so at least one cell is empty and every probe loop ends. */
  lemma EmptyCellExists(cells: seq<nat>, homes: seq<nat>) returns (e: nat)
    requires Ok(cells, homes) && |cells| > 0
    ensures e < |cells| && cells[e] == 0
  {
    if forall c :: 0 <= c < |cells| ==> cells[c] != 0 {
      Pigeonhole(cells, |cells|);
      assert false;
    }
    e :| e < |cells| && cells[e] == 0;
  }

  // ---------------------------------------------------------------- lookup

  /** ipc_hash_local_lookup: probe from the home cell until an entry holding obj or an empty cell. */
  method Lookup(cells: array<nat>, objs: seq<nat>, obj: nat) returns (index: nat)
    requires cells.Length == |objs| > 0
    requires Ok(cells[..], Homes(objs))
    ensures index != 0 ==> index in Hashed(cells[..]) && index < |objs| && objs[index] == obj
    ensures index == 0 ==> forall i :: i in Hashed(cells[..]) ==> objs[i] != obj
  {
    var size := cells.Length;
    var start := Home(obj, size);
    var h := start;
    ghost var e := EmptyCellExists(cells[..], Homes(objs));
    ghost var t := cells[..];
    while cells[h] != 0
      invariant 0 <= h < size
      invariant !Before(start, e, h)
      invariant forall k :: 0 <= k < size && Before(start, k, h) ==> t[k] != 0 && objs[t[k]] != obj
      decreases Distance(h, e, size)
    {
      index := cells[h];
      assert t[h] == index;
      if objs[index] == obj {
        return;
      }
      h := h + 1;
      if h == size {
        h := 0;
      }
    }
    index := 0;
    assert t[h] == 0;
    forall i | i in Hashed(t) ensures objs[i] != obj {
      var c :| 0 <= c < |t| && t[c] != 0 && t[c] == i;
      assert !Before(Homes(objs)[i], h, c);
    }
  }

  // ---------------------------------------------------------------- insertion

  lemma InsertOk(cells: seq<nat>, homes: seq<nat>, h: nat, index: nat)
    requires Ok(cells, homes)
    requires h < |cells| && cells[h] == 0 && 0 < index < |cells| && index !in Hashed(cells)
    requires forall k :: 0 <= k < |cells| && Before(homes[index], k, h) ==> cells[k] != 0
    ensures Ok(cells[h := index], homes)
    ensures Hashed(cells[h := index]) == Hashed(cells) + {index}
  {
    var cs := cells[h := index];
    assert forall c :: 0 <= c < |cells| && cells[c] != 0 ==> cells[c] in Hashed(cells);
    assert cs[h] in Hashed(cs);
    forall i | i in Hashed(cells) ensures i in Hashed(cs) {
      var c :| 0 <= c < |cells| && cells[c] != 0 && cells[c] == i;
      assert cs[c] == i;
    }
  }

  /** ipc_hash_local_insert: the first empty cell from the home cell on receives the index. */
  method Insert(cells: array<nat>, objs: seq<nat>, index: nat)
    requires cells.Length == |objs| > 0
    requires Ok(cells[..], Homes(objs))
    requires 0 < index < |objs| && index !in Hashed(cells[..])
    modifies cells
    ensures Ok(cells[..], Homes(objs))
    ensures Hashed(cells[..]) == old(Hashed(cells[..])) + {index}
  {
    var size := cells.Length;
    var h := Home(objs[index], size);
    ghost var start := h;
    ghost var t := cells[..];
    ghost var e := EmptyCellExists(t, Homes(objs));
    while cells[h] != 0
      invariant 0 <= h < size && cells[..] == t
      invariant !Before(start, e, h)
      invariant forall k :: 0 <= k < size && Before(start, k, h) ==> t[k] != 0
      decreases Distance(h, e, size)
    {
      assert t[h] != 0;
      h := h + 1;
      if h == size {
        h := 0;
      }
    }
    InsertOk(t, Homes(objs), h, index);
    cells[h] := index;
    assert cells[..] == t[h := index];
  }

  // ---------------------------------------------------------------- deletion

  /** The hash table with cell h regarded as empty: entries may still need h as a stepping stone. */
  ghost predicate OkWithHole(cells: seq<nat>, homes: seq<nat>, h: nat) {
    && Shape(cells, homes) && h < |cells| && cells[h] != 0
    && (forall c, d :: 0 <= c < d < |cells| && c != h && d != h && cells[c] != 0 ==> cells[c] != cells[d])
    && (forall c, k :: 0 <= c < |cells| && 0 <= k < |cells| && c != h && cells[c] != 0 ==>
          Before(homes[cells[c]], k, c) ==> cells[k] != 0)
  }

  ghost function HashedExcept(cells: seq<nat>, h: nat): set<nat> {
    set c | 0 <= c < |cells| && c != h && cells[c] != 0 :: cells[c]
  }

  /** Entry c does not need the hole h: its home lies cyclically after h and not after c. */
  predicate Settled(home: nat, h: nat, c: nat) {
    if h < c then h < home <= c else h < home || home <= c
  }

  /** The cells strictly after h up to and including d, cyclically; none when d is h. */
  predicate After(h: nat, c: nat, d: nat) {
    if h <= d then h < c <= d else h < c || c <= d
  }

  ghost predicate Scanned(cells: seq<nat>, homes: seq<nat>, h: nat, d: nat)
    requires Shape(cells, homes)
  {
    forall c :: 0 <= c < |cells| && After(h, c, d) ==> cells[c] != 0 && Settled(homes[cells[c]], h, c)
  }

  /** At the end of the clump nothing needs the hole any more, so it can be emptied. */
  lemma CloseHole(cells: seq<nat>, homes: seq<nat>, h: nat, last: nat, d: nat)
    requires OkWithHole(cells, homes, h)
    requires last < |cells| && d == Next(last, |cells|) && d != h && cells[d] == 0
    requires Scanned(cells, homes, h, last)
    ensures Ok(cells[h := 0], homes)
    ensures Hashed(cells[h := 0]) == HashedExcept(cells, h)
  {
    var cs := cells[h := 0];
    forall c, k | 0 <= c < |cs| && 0 <= k < |cs| && cs[c] != 0 && Before(homes[cs[c]], k, c)
      ensures cs[k] != 0
    {
      if k == h {
        assert !Before(homes[cells[c]], d, c);
        assert After(h, c, last);
      }
    }
    assert forall c :: 0 <= c < |cs| && c != h ==> cs[c] == cells[c];
  }

  /** A displaced entry moves into the hole and leaves a new hole behind. */
  lemma MoveHole(cells: seq<nat>, homes: seq<nat>, h: nat, d: nat)
    requires OkWithHole(cells, homes, h)
    requires d < |cells| && d != h && cells[d] != 0
    requires !Settled(homes[cells[d]], h, d)
    requires forall c :: 0 <= c < |cells| && After(h, c, d) ==> cells[c] != 0
    ensures OkWithHole(cells[h := cells[d]], homes, d)
    ensures HashedExcept(cells[h := cells[d]], d) == HashedExcept(cells, h)
  {
    var cs := cells[h := cells[d]];
    forall c, k | 0 <= c < |cs| && 0 <= k < |cs| && c != d && cs[c] != 0 && Before(homes[cs[c]], k, c)
      ensures cs[k] != 0
    {
      if c == h {
        assert cs[h] == cells[d];
        assert k == h || Before(homes[cells[d]], k, d);
      }
    }
    forall i | i in HashedExcept(cells, h) ensures i in HashedExcept(cs, d) {
      var c :| 0 <= c < |cells| && c != h && cells[c] != 0 && cells[c] == i;
      if c == d { assert cs[h] == i; } else { assert cs[c] == i; }
    }
    forall i | i in HashedExcept(cs, d) ensures i in HashedExcept(cells, h) {
      var c :| 0 <= c < |cs| && c != d && cs[c] != 0 && cs[c] == i;
      if c == h { assert cells[d] == i; } else { assert cells[c] == i; }
    }
  }

  lemma OpenHole(cells: seq<nat>, homes: seq<nat>, h: nat)
    requires Ok(cells, homes) && h < |cells| && cells[h] != 0
    ensures OkWithHole(cells, homes, h)
    ensures HashedExcept(cells, h) == Hashed(cells) - {cells[h]}
  {
  }

  /** An index that is hashed is met by probing from its home before any empty cell. */
  lemma NotHashed(cells: seq<nat>, homes: seq<nat>, index: nat, h: nat)
    requires Ok(cells, homes) && 0 < index < |cells| && h < |cells| && cells[h] == 0
    requires forall k :: 0 <= k < |cells| && Before(homes[index], k, h) ==> cells[k] != index
    ensures index !in Hashed(cells)
  {
  }

  /** The inner loop of ipc_hash_local_delete: the first displaced entry after the hole, or the end of the clump. */
  method NextDisplaced(cells: array<nat>, objs: seq<nat>, h: nat, ghost e: nat)
    returns (d: nat, index: nat, ghost last: nat)
    requires cells.Length == |objs| > 0
    requires OkWithHole(cells[..], Homes(objs), h)
    requires e < cells.Length && cells[e] == 0
    ensures d < cells.Length && d != h && index == cells[d]
    ensures last < cells.Length && d == Next(last, cells.Length) && Scanned(cells[..], Homes(objs), h, last)
    ensures index != 0 ==> !Settled(Homes(objs)[index], h, d)
    ensures index != 0 ==> Distance(d, e, cells.Length) < Distance(h, e, cells.Length)
  {
    var size := cells.Length;
    ghost var t := cells[..];
    d := h;
    while true
      invariant 0 <= d < size && t[e] == 0
      invariant Scanned(t, Homes(objs), h, d)
      invariant !After(h, e, d)
      decreases Distance(d, e, size)
    {
      last := d;
      d := d + 1;
      if d == size {
        d := 0;
      }
      index := cells[d];
      assert index == t[d];
      if index == 0 {
        return;
      }
      var home := Home(objs[index], size);
      if if d < h then d < home && home <= h else d < home || home <= h {
        return;
      }
    }
  }

  /** ipc_hash_local_delete: find the cell of the index, then shift displaced entries back over the hole. */
  method Delete(cells: array<nat>, objs: seq<nat>, index: nat)
    requires cells.Length == |objs| > 0
    requires Ok(cells[..], Homes(objs))
    requires 0 < index < |objs|
    modifies cells
    ensures Ok(cells[..], Homes(objs))
    ensures Hashed(cells[..]) == old(Hashed(cells[..])) - {index}
  {
    var size := cells.Length;
    ghost var homes := Homes(objs);
    ghost var t := cells[..];
    var h := Home(objs[index], size);
    ghost var start := h;
    ghost var e := EmptyCellExists(t, homes);
    while cells[h] != index
      invariant 0 <= h < size && cells[..] == t
      invariant !Before(start, e, h)
      invariant forall k :: 0 <= k < size && Before(start, k, h) ==> t[k] != index
      decreases Distance(h, e, size)
    {
      assert t[h] != index;
      if cells[h] == 0 {
        NotHashed(t, homes, index, h);
        return;
      }
      h := h + 1;
      if h == size {
        h := 0;
      }
    }
    OpenHole(t, homes, h);
    var idx := index;
    while idx != 0
      invariant 0 <= h < size
      invariant idx != 0 ==> OkWithHole(cells[..], homes, h) && cells[e] == 0
      invariant idx != 0 ==> HashedExcept(cells[..], h) == Hashed(t) - {index}
      invariant idx == 0 ==> Ok(cells[..], homes) && Hashed(cells[..]) == Hashed(t) - {index}
      decreases idx != 0, Distance(h, e, size)
    {
      ghost var u := cells[..];
      var d;
      ghost var last;
      d, idx, last := NextDisplaced(cells, objs, h, e);
      if idx == 0 {
        CloseHole(u, homes, h, last, d);
      } else {
        assert Scanned(u, homes, h, last);
        MoveHole(u, homes, h, d);
      }
      cells[h] := idx;
      assert cells[..] == u[h := idx];
      h := d;
    }
  }
}
