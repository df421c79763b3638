/**
  An IPC space: the entry table, its two reverse hash tables and the overflow tree, with the operations of
  Kernel/mxwl/ipc/ipc_entry.c and ipc_hash.c that change them in place.

  The abstract value of a space is a finite map from names to capabilities.  What callers do around these
  operations is folded in: filling in the type bits and the object of an entry they were given, entering a
  send right in the reverse hash table, and clearing both before an entry is deallocated.
 */
module IpcSpace {
  import opened IpcNames
  import opened IpcTable
  import opened IpcGlobalHash
  import LH = IpcLocalHash
  import opened Wrappers
  import Memory = IpcTableMemory

  /** What a call returns; NoReturn if it never does. */
  datatype Status = Success | NoSpace | InvalidTask | InvalidName | ResourceShortage | NoReturn

  /** sizeof(struct ipc_tree_entry) with 8-byte pointers. */
  const TREE_ENTRY_SIZE: nat := 64

  /** A growth schedule: strictly increasing table sizes, the last one repeated. */
  ghost predicate Schedule(s: seq<nat>) {
    && |s| >= 2 && s[0] > 0
    && s[|s| - 2] == s[|s| - 1]
    && forall j, k :: 0 <= j < k < |s| - 1 ==> s[j] < s[k]
  }

  lemma HasNext(s: seq<nat>, k: nat)
    requires Schedule(s) && 0 < k < |s| && s[k - 1] < s[k]
    ensures k + 1 < |s| && s[k] <= s[k + 1]
  {
  }

  // ---------------------------------------------------------------- counting lemmas

  lemma AddWithin(tree: Tree, m: Name, cap: Cap, lo: nat, hi: nat)
    ensures |IndicesWithin(tree[m := cap], lo, hi)|
         == |IndicesWithin(tree, lo, hi)| + if lo <= m.index < hi && m.index !in Indices(tree) then 1 else 0
  {
    var more := tree[m := cap];
    var before, after := IndicesWithin(tree, lo, hi), IndicesWithin(more, lo, hi);
    assert m in more;
    forall i | i in before ensures i in after {
      var k :| k in tree && lo <= k.index < hi && k.index == i;
      assert k in more;
    }
    if lo <= m.index < hi {
      assert after == before + {m.index};
      assert m.index in before <==> m.index in Indices(tree);
    } else {
      assert after == before;
    }
  }

  lemma RemoveWithin(tree: Tree, m: Name, lo: nat, hi: nat)
    requires m in tree
    ensures |IndicesWithin(tree - {m}, lo, hi)|
         == |IndicesWithin(tree, lo, hi)| - if lo <= m.index < hi && m.index !in Indices(tree - {m}) then 1 else 0
    ensures lo <= m.index < hi ==> |IndicesWithin(tree, lo, hi)| > 0
  {
    assert (tree - {m})[m := tree[m]] == tree;
    AddWithin(tree - {m}, m, tree[m], lo, hi);
    assert lo <= m.index < hi ==> m.index in IndicesWithin(tree, lo, hi);
  }

  // ---------------------------------------------------------------- the local hash column

  ghost predicate LocalOk(t: seq<Entry>, cells: seq<nat>, hashed: set<nat>) {
    |cells| == |t| && LH.Ok(cells, LH.Homes(Objs(t))) && LH.Hashed(cells) == hashed
  }

  /** The hash column depends on the objects of the hashed entries only. */
  lemma LocalFrame(t: seq<Entry>, u: seq<Entry>, cells: seq<nat>, hashed: set<nat>)
    requires LocalOk(t, cells, hashed) && |u| == |t| > 0
    requires forall i :: i in hashed && i < |t| ==> u[i].obj == t[i].obj
    ensures LocalOk(u, cells, hashed)
  {
  }

  lemma LocalEmpty(t: seq<Entry>, cells: seq<nat>)
    requires |cells| == |t| > 0 && forall c :: 0 <= c < |cells| ==> cells[c] == 0
    ensures LocalOk(t, cells, {})
  {
  }

  ghost function SendBelow(t: seq<Entry>, n: nat): set<nat> {
    set i | 0 <= i < |t| && i < n && t[i].typ == TYPE_SEND
  }

  /** The tree holds a send right for object o under name m. */
  predicate SendAt(tree: Tree, m: Name, o: nat) {
    m in tree && tree[m].typ == TYPE_SEND && tree[m].obj == o
  }

  lemma LeaveCounts(tree: Tree, m: Name)
    requires m in tree
    ensures |SendNames(tree - {m})| == |SendNames(tree)| - if tree[m].typ == TYPE_SEND then 1 else 0
    ensures |(tree - {m}).Keys| == |tree.Keys| - 1
  {
    assert SendNames(tree - {m}) == SendNames(tree) - {m};
    assert m in SendNames(tree) <==> tree[m].typ == TYPE_SEND;
    assert (tree - {m}).Keys == tree.Keys - {m};
  }

  lemma EnterCounts(tree: Tree, m: Name, cap: Cap)
    requires m !in tree
    ensures |SendNames(tree[m := cap])| == |SendNames(tree)| + if cap.typ == TYPE_SEND then 1 else 0
    ensures |tree[m := cap].Keys| == |tree.Keys| + 1
  {
    assert tree[m := cap] - {m} == tree;
    LeaveCounts(tree[m := cap], m);
  }

  lemma MovedIn(t: seq<Entry>, u: seq<Entry>, i: nat)
    requires i < |t| && |u| == |t| && u == t[i := u[i]]
    ensures SameExcept(t, u, i)
  {
  }

  lemma FlagLocal(t: seq<Entry>, i: nat, c: bool, cells: seq<nat>)
    requires |t| > 0 && LocalOk(t, cells, SendSlots(t))
    ensures LocalOk(Flagged(t, i, c), cells, SendSlots(Flagged(t, i, c)))
  {
  }

  lemma FlagSame(t: seq<Entry>, i: nat)
    ensures i < |t| && t[i].collision ==> Flagged(t, i, true) == t
    ensures i >= |t| ==> forall c :: Flagged(t, i, c) == t
    ensures forall c :: |Flagged(t, i, c)| == |t|
  {
  }

  /** A free slot stays free: nothing changes for the local hash. */
  lemma IdleLocal(t: seq<Entry>, i: nat, e: Entry, cells: seq<nat>)
    requires i < |t| && LocalOk(t, cells, SendSlots(t))
    requires t[i].typ == e.typ == TYPE_NONE
    ensures LocalOk(t[i := e], cells, SendSlots(t[i := e]))
  {
    assert SendSlots(t[i := e]) == SendSlots(t);
    LocalFrame(t, t[i := e], cells, SendSlots(t));
  }

  /** An occupied slot, already out of the local hash, is filled again. */
  lemma RefillLocal(t: seq<Entry>, i: nat, e: Entry, cells: seq<nat>)
    requires 0 < i < |t| && LocalOk(t, cells, SendSlots(t) - {i})
    ensures |cells| == |t| && LH.Ok(cells, LH.Homes(Objs(t[i := e]))) && LH.Hashed(cells) == SendSlots(t) - {i}
    ensures SendSlots(t[i := e]) == SendSlots(t) - {i} + if e.typ == TYPE_SEND then {i} else {}
  {
  }

  lemma FreedLocal(t: seq<Entry>, i: nat, e: Entry, cells: seq<nat>)
    requires 0 < i < |t| && LocalOk(t, cells, SendSlots(t) - {i}) && e.typ == TYPE_NONE
    ensures LocalOk(t[i := e], cells, SendSlots(t[i := e]))
  {
  }

  lemma NothingSmall(tree: Tree, lo: nat, mid: nat, hi: nat)
    requires tree == map[]
    ensures IndicesWithin(tree, lo, mid) == IndicesWithin(tree, mid, hi) == {} && NamesWithin(tree, lo, mid) == {}
  {
  }

  /** The count for is_tree_small: changes of the index along an ascending traversal. */
  method CountIndices(tree: Tree, lo: nat, hi: nat) returns (n: nat)
    requires lo > 0
    ensures n == |IndicesWithin(tree, lo, hi)|
  {
    var pending := NamesWithin(tree, lo, hi);
    ghost var seen: set<nat> := {};
    var index := 0;
    n := 0;
    while pending != {}
      invariant pending <= tree.Keys && forall m :: m in pending ==> lo <= m.index < hi
      invariant n == |seen| && (index == 0 || index in seen)
      invariant forall i :: i in seen ==> 0 < i <= index && i in IndicesWithin(tree, lo, hi)
      invariant forall m :: m in pending ==> index <= m.index
      invariant forall m :: m in tree && lo <= m.index < hi && m !in pending ==> m.index in seen
    {
      var m := Least(pending);
      pending := pending - {m};
      assert m.index in IndicesWithin(tree, lo, hi);
      if m.index != index {
        n := n + 1;
        index := m.index;
        seen := seen + {index};
      }
    }
    assert seen == IndicesWithin(tree, lo, hi);
  }

  /** Whether realloc extends a block in place. */
  method ExtendsInPlace() returns (inPlace: bool) {
    inPlace := *;
  }

  /** No name of the map has the index. */
  ghost predicate IndexFree(names: map<Name, Cap>, index: nat) {
    forall m :: m in names ==> m.index != index
  }

  /** Some index from lo up to hi has no name. */
  ghost predicate RoomLeft(names: map<Name, Cap>, lo: nat, hi: nat) {
    exists index :: lo <= index < hi && IndexFree(names, index)
  }

  /** For the indices in [lo, hi) tree entries, and more of them still to come, take more room than table entries. */
  ghost predicate PaysOff(names: map<Name, Cap>, lo: nat, hi: nat, more: nat) {
    (hi - lo) * Memory.ENTRY_SIZE < (|IndicesWithin(names, lo, hi)| + more) * TREE_ENTRY_SIZE
  }

  /** The slots of u below lo, but for slot 0, are those of t. */
  ghost predicate SameBelow(t: seq<Entry>, u: seq<Entry>, lo: nat) {
    lo <= |t| && lo <= |u| && forall k :: 0 < k < lo ==> u[k] == t[k]
  }

  /** Free slots from lo on are of the last generation, so that the first name of each is of generation 0. */
  ghost predicate NaturalFrom(t: seq<Entry>, lo: nat, gens: nat) {
    forall k :: lo <= k < |t| && t[k].typ == TYPE_NONE ==> t[k].gen + 1 == gens
  }

  lemma SameAsBefore(t: seq<Entry>, gens: nat)
    ensures SameBelow(t, t, |t|) && NaturalFrom(t, |t|, gens)
  {
  }

  lemma NaturalOn(t: seq<Entry>, u: seq<Entry>, lo: nat, gens: nat)
    requires 0 < lo <= |t| && SameBelow(t, u, |t|) && NaturalFrom(t, lo, gens) && NaturalFrom(u, |t|, gens)
    ensures NaturalFrom(u, lo, gens) && lo <= |u|
  {
  }

  /** Another round leaves the slots of earlier rounds as they were. */
  lemma StillNatural(s: seq<Entry>, t: seq<Entry>, u: seq<Entry>, lo: nat, gens: nat)
    requires 0 < lo <= |t| && SameBelow(s, t, lo) && SameBelow(t, u, |t|)
    requires NaturalFrom(t, lo, gens) && NaturalFrom(u, |t|, gens)
    ensures SameBelow(s, u, lo) && NaturalFrom(u, lo, gens) && lo <= |u|
  {
  }

  lemma PaysOffMore(names: map<Name, Cap>, lo: nat, hi: nat)
    requires PaysOff(names, lo, hi, 0)
    ensures PaysOff(names, lo, hi, 1)
  {
  }

  /** Slots from lo on, in ascending order, have been put in front of the free list. */
  ghost predicate InFront(was: seq<nat>, list: seq<nat>, lo: nat) {
    && |was| <= |list| && list[|list| - |was|..] == was
    && (forall j :: 0 <= j < |list| - |was| ==> lo <= list[j])
    && forall j, k :: 0 <= j < k < |list| - |was| ==> list[j] < list[k]
  }

  /** Where ipc_entry_lookup finds an entry. */
  datatype Place = InTable(index: nat) | InTree(name: Name) | Nowhere

  class Space {
    const schedule: seq<nat>
    const gens: nat
    const id: nat
    const hash: GlobalHash

    var active: bool
    var table: seq<Entry>
    var cells: array<nat>     // the ie_index column of the table
    var size: nat
    var next: nat             // is_table_next, as a position in the schedule
    var tree: Tree
    var treeTotal: nat
    var treeSmall: nat
    var treeHash: nat
    var memory: Memory.Memory
    var answers: seq<bool>    // what the allocator has answered so far
    ghost var free: seq<nat>  // the free list, from the slot that table[0] links to

    /** Whether the allocator has refused memory since it had given n answers. */
    predicate RefusedSince(n: nat)
      reads this`answers
    {
      exists k :: n <= k < |answers| && !answers[k]
    }

    /** The greatest size of the table. */
    function LastSize(): nat
      requires |schedule| >= 2
    {
      schedule[|schedule| - 1]
    }

    /** Ask for memory: the allocator answers as it likes, and the answer is noted. */
    method Allocate() returns (ok: bool)
      modifies this`answers
      ensures answers == old(answers) + [ok]
    {
      ok := *;
      answers := answers + [ok];
    }

    /** The names bound in the space and what they denote. */
    ghost function Names(): map<Name, Cap>
      reads this`table, this`tree
    {
      Bindings(table, tree)
    }

    ghost predicate NamesValid()
      reads this`table, this`size, this`next, this`tree, this`treeTotal, this`treeSmall, this`free
    {
      && Schedule(schedule)
      && 0 < next < |schedule| && size == schedule[next - 1] == |table|
      && NamesOk(table, tree, free, schedule[0], gens)
      && treeTotal == |tree.Keys|
      && treeSmall == |IndicesWithin(tree, size, schedule[next])|
    }

    /** The cells of the local hash. */
    ghost function Column(): seq<nat>
      reads this`cells, cells
    {
      cells[..]
    }

    /** The local hash holds exactly the table's send rights. */
    ghost predicate LocalValid()
      reads this`table, this`cells, cells
    {
      LocalOk(table, Column(), SendSlots(table))
    }

    /** Of this space, the global hash holds exactly the tree's send rights. */
    ghost predicate GlobalValid()
      reads this`tree, this`treeHash, hash
    {
      && hash.Valid()
      && (forall m, o :: hash.Holds(Node(id, m, o)) <==> SendAt(tree, m, o))
      && treeHash == |SendNames(tree)|
    }

    /** No block has been freed in use or twice if and only if no round of growth found a table of a page or more. */
    ghost predicate MemoryValid()
      reads this`memory, this`next
    {
      && Memory.Known(memory)
      && 0 < next < |schedule|
      && (Memory.Sound(memory) <==> next == 1 || !Memory.Reallocable(schedule[next - 2]))
    }

    ghost predicate Valid()
      reads this`table, this`size, this`next, this`tree, this`treeTotal, this`treeSmall, this`treeHash, this`free
      reads this`cells, this`memory, cells, hash
    {
      NamesValid() && LocalValid() && GlobalValid() && MemoryValid()
    }

    /** The entries of all other spaces in the global hash table. */
    twostate predicate OthersUnchanged()
      reads hash
    {
      forall x: Node :: x.space != id ==> (hash.Holds(x) <==> old(hash.Holds(x)))
    }

    /** ipc_space_create: a zeroed table of the first size, whose slots are not linked into a free list. */
    constructor (schedule: seq<nat>, gens: nat, id: nat, hash: GlobalHash)
      requires Schedule(schedule) && gens > 0
      requires hash.Valid() && forall x: Node :: x.space == id ==> !hash.Holds(x)
      ensures Valid() && active && fresh(cells)
      ensures this.schedule == schedule && this.gens == gens && this.id == id && this.hash == hash
      ensures Names() == map[] && Memory.Sound(memory) && answers == []
    {
      this.schedule, this.gens, this.id, this.hash := schedule, gens, id, hash;
      active := true;
      table := seq(schedule[0], _ => ZERO_ENTRY);
      cells := new nat[schedule[0]](_ => 0);
      size, next := schedule[0], 1;
      tree, treeTotal, treeSmall, treeHash := map[], 0, 0, 0;
      memory := Memory.Memory(0, multiset{}, 1);
      free, answers := [], [];
      new;
      LocalEmpty(table, cells[..]);
      assert SendSlots(table) == {};
      assert SendNames(tree) == {};
      assert IndicesWithin(tree, size, schedule[next]) == {};
      BindingsAre(table, tree, map[]);
    }

    // -------------------------------------------------------------- lookups

    /** ipc_entry_tree_collision. */
    method TreeCollision(name: Name) returns (collides: bool)
      ensures collides <==> name.index in Indices(tree)
    {
      var lower, upper := TreeBounds(tree, name);
      collides := (lower.Some? && lower.value.index == name.index) || (upper.Some? && upper.value.index == name.index);
      if name.index in Indices(tree) {
        var m :| m in tree && m.index == name.index;
      }
    }

    /** ipc_entry_lookup: the entry that the name denotes, if any. */
    method Lookup(name: Name) returns (place: Place)
      requires Valid()
      ensures place.Nowhere? <==> name !in Names()
      ensures place.InTable? ==> place.index == name.index && LiveAt(table, name) && name !in tree
                                 && Names()[name] == CapOf(table[name.index])
      ensures place.InTree? ==> place.name == name && name in tree && Names()[name] == tree[name]
    {
      LookupMeaning(table, tree, free, schedule[0], gens, name);
      var index := name.index;
      if index < size {
        var e := table[index];
        if e.gen != name.gen {
          if e.collision {
            place := if name in tree then InTree(name) else Nowhere;
          } else {
            place := Nowhere;
          }
        } else if e.typ == TYPE_NONE {
          place := Nowhere;
        } else {
          place := InTable(index);
        }
      } else if treeTotal == 0 {
        place := Nowhere;
      } else {
        place := if name in tree then InTree(name) else Nowhere;
      }
    }

    /** ipc_hash_lookup: the name under which the space holds a send right for the object. */
    method HashLookup(obj: nat) returns (r: Option<Name>)
      requires Valid()
      modifies hash
      ensures Valid() && OthersUnchanged()
      ensures r.Some? ==> r.value in Names() && Names()[r.value].typ == TYPE_SEND && Names()[r.value].obj == obj
      ensures r.None? ==> forall m :: m in Names() ==> Names()[m].typ != TYPE_SEND || Names()[m].obj != obj
    {
      var index := LH.Lookup(cells, Objs(table), obj);
      if index != 0 {
        r := Some(Name(index, table[index].gen));
        assert LiveAt(table, r.value);
        return;
      }
      forall m | m in Names() && m !in tree ensures Names()[m].typ != TYPE_SEND || Names()[m].obj != obj {
        assert LiveAt(table, m);
        assert Names()[m].typ == TYPE_SEND ==> m.index in SendSlots(table);
      }
      if treeHash > 0 {
        r := hash.Lookup(id, obj);
        if r.None? {
          forall m | m in tree ensures tree[m].typ != TYPE_SEND || tree[m].obj != obj {
            assert !hash.Holds(Node(id, m, obj));
          }
        }
      } else {
        r := None;
        assert SendNames(tree) == {};
      }
    }

    // -------------------------------------------------------------- allocation

    /** Unlink slot i from behind slot q and fill it in; p is the position of slot i on the free list. */
    method TakeLinked(q: nat, i: nat, gen: nat, cap: Cap, ghost p: nat)
      requires NamesValid() && gen < gens && cap.typ != TYPE_NONE
      requires p < |free| && i == free[p] && q == Pred(free, p)
      modifies this`free, this`table
      ensures NamesValid()
      ensures 0 < i < size && old(table)[i].typ == TYPE_NONE && SameExcept(old(table), table, i)
      ensures Name(i, gen) !in old(Names()) && Names() == old(Names())[Name(i, gen) := cap]
      ensures free == Cut(old(free), p)
    {
      hide NamesOk, SameExcept, Bindings;
      TakeSlot(table, tree, free, schedule[0], gens, p, gen, cap);
      table := table[q := table[q].(link := table[i].link)];
      table := table[i := Taken(gen, false, cap)];
      free := Cut(free, p);
    }

    /** The caller's ipc_hash_insert for a table entry that has just been filled in. */
    method EnterSlot(ghost t: seq<Entry>, index: nat)
      requires LocalOk(t, Column(), SendSlots(t)) && |t| == |table|
      requires 0 < index < |table| && t[index].typ == TYPE_NONE && SameExcept(t, table, index)
      modifies cells
      ensures LocalValid()
    {
      ghost var u := table;
      LocalFrame(t, u, cells[..], SendSlots(t));
      assert SendSlots(u) == SendSlots(t) + if u[index].typ == TYPE_SEND then {index} else {};
      if table[index].typ == TYPE_SEND {
        LH.Insert(cells, Objs(table), index);
      }
    }

    /** ipc_entry_get: take the first slot of the free list and step its generation. */
    method Get(cap: Cap) returns (kr: Status, name: Name)
      requires Valid() && active && cap.typ != TYPE_NONE
      modifies this`free, this`table, cells
      ensures Valid()
      ensures kr == Success || kr == NoSpace
      ensures kr == Success ==> name !in old(Names()) && Names() == old(Names())[name := cap]
      ensures kr == NoSpace ==> table == old(table)
      ensures kr == NoSpace <==> forall i :: schedule[0] <= i < size ==> old(table)[i].typ != TYPE_NONE
      ensures kr == NoSpace ==> forall i :: schedule[0] <= i < size ==> !IndexFree(Names(), i)
      ensures kr == Success ==> schedule[0] <= name.index < size && IndexFree(old(Names()), name.index)
      ensures kr == Success ==> NextTo(old(table)[name.index].gen, name.gen) && name.gen < gens
      ensures kr == Success ==> old(table)[name.index].typ == TYPE_NONE
      ensures kr == Success <==> old(free) != []
      ensures kr == Success ==> name.index == old(free)[0] && free == old(free)[1..]
    {
      hide NamesOk, LocalOk, SameExcept, GlobalValid, Bindings, Column;
      FreeHead();
      name := NULL_NAME;
      var first := table[0].link;
      if first == 0 {
        AllTaken();
        kr := NoSpace;
        return;
      }
      FreeIndex(first);
      ghost var t := table;
      var entry := table[first];
      assert entry.typ == TYPE_NONE && !entry.collision && entry.urefs == 0 && entry.obj == 0;
      var gen := NextGen(entry.gen, gens);
      TakeLinked(0, first, gen, cap, 0);
      assert GlobalValid();
      EnterSlot(t, first);
      name := Name(first, gen);
      kr := Success;
    }

    /** The generation after gen; after the last one comes the first. */
    predicate NextTo(gen: nat, next: nat) {
      next == gen + 1 || (next == 0 && gen + 1 == gens)
    }

    /** A slot in use has a name. */
    lemma AllTaken()
      requires NamesValid() && forall i :: schedule[0] <= i < size ==> table[i].typ != TYPE_NONE
      ensures forall i :: schedule[0] <= i < size ==> !IndexFree(Names(), i)
    {
      forall i | schedule[0] <= i < size ensures !IndexFree(Names(), i) {
        assert LiveAt(table, Name(i, table[i].gen));
        assert Name(i, table[i].gen) in Names();
      }
    }

    /** A name below the table's size has its slot in use, if not by itself then by another generation. */
    lemma NameSlot(name: Name)
      requires Valid() && name in Names() && 0 < name.index < size
      ensures table[name.index].typ != TYPE_NONE
    {
      if table[name.index].typ == TYPE_NONE { FreeIndex(name.index); }
    }

    /** A slot in use bears a name. */
    lemma SlotName(i: nat)
      requires Valid() && 0 < i < size && table[i].typ != TYPE_NONE
      ensures Name(i, table[i].gen) in Names()
    {
      assert LiveAt(table, Name(i, table[i].gen));
    }

    /** The slot of a tree entry bears another name. */
    lemma TwinOf(name: Name)
      requires Valid() && name in tree && 0 < name.index < size
      ensures !IndexFree(Names() - {name}, name.index)
    {
      NameSlot(name);
      SlotName(name.index);
      assert !LiveAt(table, name);
    }

    /** A free slot has none, not even in the tree. */
    lemma FreeIndex(i: nat)
      requires NamesValid() && 0 < i < size && table[i].typ == TYPE_NONE
      ensures IndexFree(Names(), i)
    {
      forall m | m in Names() ensures m.index != i {
        assert LiveAt(table, m) || m in tree;
        assert m in tree ==> m.index in Indices(tree);
      }
    }

    /** What ipc_entry_get asserts of the entry it takes. */
    predicate FreeEntry(e: Entry) {
      e.typ == TYPE_NONE && !e.collision && e.urefs == 0 && e.obj == 0 && e.gen < gens
    }

    /** Slot 0 links to 0 only when every slot from the end of the first table on is in use. */
    lemma FreeHead()
      requires NamesValid()
      ensures |table| > 0 && schedule[0] > 0 && table[0].typ == TYPE_NONE
      ensures table[0].link == 0 <==> forall i :: schedule[0] <= i < size ==> table[i].typ != TYPE_NONE
      ensures if table[0].link == 0 then free == [] else |free| > 0 && free[0] == table[0].link
      ensures table[0].link != 0 ==> schedule[0] <= table[0].link < size
      ensures table[0].link != 0 ==> FreeEntry(table[table[0].link])
    {
      assert |free| > 0 ==> free[0] in free;
    }

    // -------------------------------------------------------------- growing the table

    /** The state of ipc_entry_grow_table while tree names are being moved into the new slots. */
    ghost predicate Growing(osize: nat, pending: set<Name>)
      reads this
    {
      && Schedule(schedule)
      && 0 < next < |schedule| && size == schedule[next - 1] == |table|
      && GrowOk(table, tree, free, schedule[0], gens, osize, pending)
      && treeTotal == |tree.Keys|
    }

    /** A new table of the next size with the old entries copied and rehashed. */
    method CopyTable()
      requires NamesValid() && LocalValid() && schedule[next - 1] < schedule[next]
      modifies this`table, this`cells, this`size, this`next
      ensures next == old(next) + 1 && fresh(cells)
      ensures table == Extended(old(table), schedule[old(next)] - old(size))
      ensures size == |table| == schedule[old(next)] && LocalValid() && SameBelow(old(table), table, old(size))
    {
      hide NamesOk, LocalOk, Bindings;
      FreeHead();
      ghost var t := table;
      var osize := size;
      table := Extended(table, schedule[next] - size);
      cells := new nat[|table|](_ => 0);
      size := schedule[next];
      next := next + 1;
      Rehash(osize);
      assert SendBelow(table, osize) == SendSlots(table);
    }

    /** Enter the send rights among the old entries into the emptied local hash. */
    method Rehash(osize: nat)
      requires 0 < osize <= |table| == cells.Length
      requires forall c :: 0 <= c < cells.Length ==> cells[c] == 0
      requires table[0].typ == TYPE_NONE
      modifies cells
      ensures LocalOk(table, Column(), SendBelow(table, osize))
    {
      LocalEmpty(table, cells[..]);
      assert SendBelow(table, 0) == {};
      for i := 0 to osize
        invariant LocalOk(table, cells[..], SendBelow(table, i))
      {
        assert SendBelow(table, i + 1) == SendBelow(table, i) + if table[i].typ == TYPE_SEND then {i} else {};
        if table[i].typ == TYPE_SEND {
          LH.Insert(cells, Objs(table), i);
        }
      }
    }

    // -------------------------------------------------------------- entries entering and leaving the tree

    /** A tree entry leaves the tree and, if it is a send right, the global hash. */
    method LeaveTree(m: Name)
      requires m in tree && treeTotal == |tree.Keys| && GlobalValid()
      modifies this`tree, this`treeTotal, this`treeHash, hash
      ensures tree == old(tree) - {m} && treeTotal == |tree.Keys| && GlobalValid() && OthersUnchanged()
    {
      hide GlobalHash.Holds, GlobalHash.Valid, SendNames, Pushed, Unlinked;
      LeaveCounts(tree, m);
      if tree[m].typ == TYPE_SEND {
        assert SendAt(tree, m, tree[m].obj);
        treeHash := treeHash - 1;
        hash.Delete(Node(id, m, tree[m].obj));
      }
      tree := tree - {m};
      treeTotal := treeTotal - 1;
    }

    /** A tree entry is inserted into the tree and, if it is a send right, into the global hash. */
    method EnterTree(m: Name, cap: Cap)
      requires m !in tree && treeTotal == |tree.Keys| && GlobalValid()
      modifies this`tree, this`treeTotal, this`treeHash, hash
      ensures tree == old(tree)[m := cap] && treeTotal == |tree.Keys| && GlobalValid() && OthersUnchanged()
    {
      hide GlobalHash.Holds, GlobalHash.Valid, SendNames, Pushed, Unlinked;
      EnterCounts(tree, m, cap);
      tree := tree[m := cap];
      treeTotal := treeTotal + 1;
      if cap.typ == TYPE_SEND {
        treeHash := treeHash + 1;
        hash.Insert(Node(id, m, cap.obj));
      }
    }

    /** The first name of an index, in traversal order, moves from the tree into its slot. */
    method MoveIn(m: Name, osize: nat, ghost pending: set<Name>)
      requires Growing(osize, pending) && LocalValid() && GlobalValid()
      requires m in pending && m.index < size && table[m.index].typ == TYPE_NONE
      modifies this`table, this`tree, this`treeTotal, this`treeHash, cells, hash
      ensures Growing(osize, pending - {m}) && LocalValid() && GlobalValid()
      ensures Names() == old(Names()) && OthersUnchanged()
      ensures tree == old(tree) - {m} && m.index < size == old(size)
      ensures table == old(table)[m.index := Taken(m.gen, false, old(tree)[m])]
    {
      hide GrowOk, LocalOk, GlobalValid, Bindings, SendSlots, SendAt, SameExcept, GlobalHash.Holds;
      ghost var t := table;
      PassMove(table, tree, free, schedule[0], gens, osize, pending, m);
      PendingFacts(osize, pending, m);
      var cap := tree[m];
      table := table[m.index := Taken(m.gen, false, cap)];
      LeaveTree(m);
      MovedIn(t, table, m.index);
      EnterSlot(t, m.index);
    }

    lemma PendingFacts(osize: nat, pending: set<Name>, m: Name)
      requires Growing(osize, pending) && m in pending
      ensures m in tree && 0 < osize <= m.index < size
    {
    }

    /** Traverse the tree names whose index now lies inside the table, in ascending order. */
    method MoveEntries(osize: nat)
      requires Growing(osize, NamesWithin(tree, osize, size)) && LocalValid() && GlobalValid() && osize <= |table|
      modifies this`table, this`tree, this`treeTotal, this`treeHash, cells, hash
      ensures Growing(osize, {}) && LocalValid() && GlobalValid()
      ensures Names() == old(Names()) && OthersUnchanged()
      ensures |table| == old(|table|) && SameBelow(old(table), table, osize)
    {
      hide GrowOk, LocalOk, GlobalValid, Bindings, GlobalHash.Holds, SendSlots;
      var pending := NamesWithin(tree, osize, size);
      while pending != {}
        invariant Growing(osize, pending) && LocalValid() && GlobalValid()
        invariant Names() == old(Names()) && OthersUnchanged() && SameBelow(old(table), table, osize)
      {
        var m := Least(pending);
        PendingFacts(osize, pending, m);
        if table[m.index].typ != TYPE_NONE {
          PassFlag(table, tree, free, schedule[0], gens, osize, pending, m);
          FlagLocal(table, m.index, true, Column());
          table := table[m.index := table[m.index].(collision := true)];
        } else {
          MoveIn(m, osize, pending);
        }
        pending := pending - {m};
      }
    }

    /** Put the new slots that are still unused in front of the free list, in reverse order. */
    method LinkNewSlots(osize: nat)
      requires Growing(osize, {}) && LocalValid()
      modifies this`table, this`free
      ensures NamesOk(table, tree, free, schedule[0], gens) && LocalValid()
      ensures Names() == old(Names()) && |table| == size
      ensures InFront(old(free), free, osize)
      ensures SameBelow(old(table), table, osize) && NaturalFrom(table, osize, gens)
    {
      hide NamesOk, GrowOk, LinkOk, LocalOk, Bindings, SendSlots, BitsZero;
      var head := table[0].link;
      ghost var list: seq<nat> := free;
      StartLink(table, tree, free, schedule[0], gens, osize);
      GrowFacts(osize);
      var i: nat := size;
      while i > osize
        invariant osize <= i <= size == |table|
        invariant LinkOk(table, tree, list, schedule[0], gens, osize, i) && head == At(list, 0)
        invariant LocalValid() && Names() == old(Names())
        invariant InFront(old(free), list, i)
        invariant 0 < osize && SameBelow(old(table), table, i) && NaturalFrom(table, i, gens)
      {
        i := i - 1;
        LinkBits(table, tree, list, schedule[0], gens, osize, i);
        if BitsZero(table[i]) {
          LinkStep(table, tree, list, schedule[0], gens, osize, i);
          IdleLocal(table, i, Fresh(gens, head), Column());
          table := table[i := Fresh(gens, head)];
          head := i;
          list := [i] + list;
        } else {
          LinkSkip(table, tree, list, schedule[0], gens, osize, i);
        }
      }
      FinishLink(table, tree, list, schedule[0], gens, osize);
      LinkFacts(osize, list);
      IdleLocal(table, 0, table[0].(link := head), Column());
      table := table[0 := table[0].(link := head)];
      free := list;
    }

    lemma GrowFacts(osize: nat)
      requires Growing(osize, {})
      ensures 0 < osize <= size == |table| && table[0].link == At(free, 0)
    {
    }

    lemma LinkFacts(osize: nat, list: seq<nat>)
      requires Schedule(schedule) && LinkOk(table, tree, list, schedule[0], gens, osize, osize)
      ensures |table| > 0 && table[0].typ == TYPE_NONE
    {
    }

    /** The old entries are copied, tree names of the new indices moved in, and unused slots linked. */
    method FillTable()
      requires NamesValid() && LocalValid() && GlobalValid() && schedule[next - 1] < schedule[next]
      modifies this`table, this`cells, this`size, this`next, this`free
      modifies this`tree, this`treeTotal, this`treeSmall, this`treeHash, hash
      ensures NamesValid() && LocalValid() && GlobalValid()
      ensures Names() == old(Names()) && OthersUnchanged() && fresh(cells)
      ensures next == old(next) + 1 && InFront(old(free), free, old(size))
      ensures SameBelow(old(table), table, old(size)) && NaturalFrom(table, old(size), gens)
    {
      hide InFront, NaturalFrom;
      hide NamesOk, GrowOk, LocalValid, GlobalValid, Bindings, GlobalHash.Holds, Extended, IndicesWithin, Schedule;
      hide NamesWithin;
      HasNext(schedule, next);
      var osize := size;
      ghost var pending := NamesWithin(tree, size, schedule[next]);
      StartGrow(table, tree, free, schedule[0], gens, schedule[next] - size, pending);
      CopyTable();
      assert Names() == old(Names());
      TakeOver(osize);
      LinkNewSlots(osize);
    }

    /** Transfer entries from the tree, if it holds any, and count what is left for is_tree_small. */
    method TakeOver(osize: nat)
      requires 0 < size && next < |schedule| && treeSmall == |IndicesWithin(tree, osize, size)|
      requires Growing(osize, NamesWithin(tree, osize, size)) && LocalValid() && GlobalValid() && osize <= |table|
      modifies this`table, this`tree, this`treeTotal, this`treeSmall, this`treeHash, cells, hash
      ensures Growing(osize, {}) && LocalValid() && GlobalValid() && |table| == old(|table|)
      ensures SameBelow(old(table), table, osize)
      ensures treeSmall == |IndicesWithin(tree, size, schedule[next])|
      ensures Names() == old(Names()) && OthersUnchanged()
    {
      hide GrowOk, LocalValid, GlobalValid, Names, IndicesWithin, Schedule, NamesWithin, GlobalHash.Holds;
      if treeTotal > 0 {
        MoveEntries(osize);
        treeSmall := CountIndices(tree, size, schedule[next]);
      } else {
        NothingSmall(tree, osize, size, schedule[next]);
      }
    }

    /**
      One pass of the loop of ipc_entry_grow_table, once the new table has been allocated.  What the slots hold is
      told as if no block had been freed too early; memory tells whether that is so.
     */
    method GrowOnce()
      requires Valid() && schedule[next - 1] < schedule[next]
      modifies this`table, this`cells, this`size, this`next, this`memory, this`free
      modifies this`tree, this`treeTotal, this`treeSmall, this`treeHash, hash
      ensures Valid() && Names() == old(Names()) && OthersUnchanged() && fresh(cells)
      ensures next == old(next) + 1 && InFront(old(free), free, old(size))
      ensures SameBelow(old(table), table, old(size)) && NaturalFrom(table, old(size), gens)
      ensures Memory.Sound(memory) <==> old(Memory.Sound(memory)) && !Memory.Reallocable(old(size))
    {
      hide NamesOk, LocalValid, GlobalValid, Names, IndicesWithin, GlobalHash.Holds, Memory.Grown, InFront,
           SameBelow, NaturalFrom;
      hide Memory.Sound, Memory.Known;
      var inPlace := ExtendsInPlace();
      MemoryGrows(inPlace);
      memory := Memory.Grown(memory, size, inPlace);
      FillTable();
    }

    /** Sizes only rise, so once a round has used realloc the next one will. */
    lemma MemoryGrows(inPlace: bool)
      requires NamesValid() && MemoryValid() && schedule[next - 1] < schedule[next]
      ensures var after := Memory.Grown(memory, size, inPlace);
              && Memory.Known(after)
              && (Memory.Sound(after) <==> !Memory.Reallocable(size))
              && (Memory.Sound(after) <==> Memory.Sound(memory) && !Memory.Reallocable(size))
    {
      Memory.GrownSound(memory, size, inPlace);
      assert next > 1 ==> schedule[next - 2] < schedule[next - 1];
    }

    /** With the growth schedule of the program: up to 128 entries all is well, from 256 on it is not. */
    lemma SoundUpTo128()
      requires Valid() && schedule == Memory.GROWTH_SCHEDULE
      ensures Memory.Sound(memory) <==> size <= 128
    {
    }

    /** If the table cannot grow any more, no tree index is left to make growing worth while. */
    lemma SmallMeansGrowable()
      requires Valid() && treeSmall > 0
      ensures schedule[next - 1] < schedule[next]
    {
      assert IndicesWithin(tree, size, size) == {};
    }

    lemma ScheduleFacts()
      requires Valid()
      ensures 0 < next < |schedule| && size == schedule[next - 1] == |table| <= schedule[next]
      ensures 0 < schedule[0] <= size && cells.Length >= 0
    {
    }

    /** Each size from position lo of the schedule up to hi pays off with one name more. */
    ghost predicate AllPayOff(names: map<Name, Cap>, lo: nat, hi: nat)
      requires 0 < lo <= hi <= |schedule|
    {
      forall k :: lo <= k < hi ==> PaysOff(names, schedule[k - 1], schedule[k], 1)
    }

    lemma JoinPayOff(names: map<Name, Cap>, lo: nat, mid: nat, hi: nat)
      requires 0 < lo <= mid <= hi <= |schedule|
      ensures AllPayOff(names, lo, lo)
      ensures AllPayOff(names, lo, mid) && AllPayOff(names, mid, hi) ==> AllPayOff(names, lo, hi)
    {
    }

    /** is_tree_small counts the indices beyond the table that have names. */
    lemma SmallFacts(more: nat)
      requires Valid()
      ensures PaysOff(Names(), size, schedule[next], more)
         <==> (schedule[next] - size) * Memory.ENTRY_SIZE < (treeSmall + more) * TREE_ENTRY_SIZE
      ensures schedule[next] >= size
    {
      ScheduleFacts();
      assert IndicesWithin(Names(), size, schedule[next]) == IndicesWithin(tree, size, schedule[next]) by {
        forall m | m in Names() && size <= m.index ensures m in tree {
          assert !LiveAt(table, m);
        }
      }
    }

    /** All rounds so far were sound if the last one was. */
    lemma MemoryFacts()
      requires Valid()
      ensures Memory.Sound(memory) <==> next == 1 || !Memory.Reallocable(schedule[next - 2])
    {
    }

    /** ipc_entry_grow_table: repeated as long as the tree holds enough names for the next size to pay off. */
    method GrowTable() returns (kr: Status)
      requires Valid() && active
      modifies this`table, this`cells, this`size, this`next, this`memory, this`free, this`answers
      modifies this`tree, this`treeTotal, this`treeSmall, this`treeHash, hash
      ensures Valid() && Names() == old(Names()) && OthersUnchanged()
      ensures cells == old(cells) || fresh(cells)
      ensures kr == NoSpace <==> old(schedule[next - 1] == schedule[next])
      ensures kr == NoSpace ==> next == old(next) && size == old(size) && table == old(table)
      ensures kr == Success ==> next > old(next)
      ensures Memory.Sound(memory) <==> next == 1 || !Memory.Reallocable(schedule[next - 2])
      ensures kr == Success || kr == NoSpace || kr == ResourceShortage
      ensures old(answers) <= answers && (kr == ResourceShortage <==> RefusedSince(|old(answers)|))
      ensures 0 < old(next) <= next < |schedule|
      ensures |answers| == |old(answers)| + (next - old(next)) + if kr == ResourceShortage then 1 else 0
      ensures forall k :: old(next) < k < next ==> PaysOff(Names(), schedule[k - 1], schedule[k], 0)
      ensures kr == Success ==> !PaysOff(Names(), size, schedule[next], 0)
      ensures SameBelow(old(table), table, old(size)) && NaturalFrom(table, old(size), gens)
    {
      hide Valid, Names, Schedule, GlobalHash.Holds, Memory.Sound, Memory.Known, Memory.Reallocable, PaysOff, InFront,
           SameBelow, NaturalFrom;
      ScheduleFacts();
      MemoryFacts();
      SameAsBefore(table, gens);
      while true
        invariant Valid() && Names() == old(Names()) && OthersUnchanged()
        invariant cells == old(cells) || fresh(cells)
        invariant 0 < next < |schedule| && 0 < old(size) <= |table|
        invariant old(next) <= next && (next > old(next) ==> schedule[next - 1] < schedule[next])
        invariant next > old(next) ==> old(schedule[next - 1] < schedule[next])
        invariant next == old(next) ==> size == old(size) && table == old(table)
        invariant Memory.Sound(memory) <==> next == 1 || !Memory.Reallocable(schedule[next - 2])
        invariant old(answers) <= answers && !RefusedSince(|old(answers)|)
        invariant |answers| == |old(answers)| + (next - old(next))
        invariant SameBelow(old(table), table, old(size)) && NaturalFrom(table, old(size), gens)
        invariant forall k :: old(next) < k < next ==> PaysOff(Names(), schedule[k - 1], schedule[k], 0)
        invariant next > old(next) ==> PaysOff(Names(), schedule[next - 1], schedule[next], 0)
        decreases |schedule| - next
      {
        ScheduleFacts();
        if schedule[next - 1] == schedule[next] {
          kr := NoSpace;
          return;
        }
        var ok := Allocate();
        if !ok {
          assert !answers[|answers| - 1];
          kr := ResourceShortage;
          return;
        }
        ghost var was := table;
        GrowOnce();
        ScheduleFacts();
        MemoryFacts();
        StillNatural(old(table), was, table, old(size), gens);
        SmallFacts(0);
        if !(treeSmall > 0 && (schedule[next] - size) * Memory.ENTRY_SIZE < treeSmall * TREE_ENTRY_SIZE) {
          kr := Success;
          return;
        }
        SmallMeansGrowable();
      }
    }

    /** ipc_entry_alloc: any free slot, growing the table as often as it takes. */
    method Alloc(cap: Cap) returns (kr: Status, name: Name)
      requires Valid() && cap.typ != TYPE_NONE
      modifies this`table, this`cells, this`size, this`next, this`memory, this`free, this`answers
      modifies this`tree, this`treeTotal, this`treeSmall, this`treeHash, cells, hash
      ensures Valid() && OthersUnchanged()
      ensures cells == old(cells) || fresh(cells)
      ensures kr == Success ==> active && name !in old(Names()) && Names() == old(Names())[name := cap]
      ensures kr != Success ==> Names() == old(Names())
      ensures kr == InvalidTask <==> !active
      ensures |schedule| >= 2 && old(answers) <= answers
      ensures kr in {Success, InvalidTask, NoSpace, ResourceShortage}
      ensures kr == ResourceShortage <==> RefusedSince(|old(answers)|)
      ensures active && !RefusedSince(|old(answers)|) ==>
                (kr == Success <==> RoomLeft(old(Names()), schedule[0], LastSize()))
      ensures kr == Success ==> schedule[0] <= name.index < LastSize() && IndexFree(old(Names()), name.index)
      ensures kr == Success && name.index < old(size) ==>
                answers == old(answers) && NextTo(old(table)[name.index].gen, name.gen)
      ensures active && (exists i :: schedule[0] <= i < old(size) && old(table)[i].typ == TYPE_NONE) ==>
                kr == Success && answers == old(answers)
      ensures 0 < old(next) <= next < |schedule|
      ensures |answers| == |old(answers)| + (next - old(next)) + if kr == ResourceShortage then 1 else 0
      ensures kr == Success && name.index >= old(size) ==> name.gen == 0
      ensures active && old(free) != [] ==>
                kr == Success && answers == old(answers) && name.index == old(free)[0] && free == old(free)[1..]
    {
      hide Valid, Names, Schedule, GlobalHash.Holds, IndexFree, NextTo, PaysOff, SameBelow, NaturalFrom;
      name := NULL_NAME;
      ScheduleFacts();
      SameAsBefore(table, gens);
      while true
        invariant Valid() && Names() == old(Names()) && OthersUnchanged()
        invariant cells == old(cells) || fresh(cells)
        invariant old(answers) <= answers && !RefusedSince(|old(answers)|) && |schedule| >= 2
        invariant 0 < old(next) <= next < |schedule| && |answers| == |old(answers)| + (next - old(next))
        invariant 0 < old(size) <= |table| && NaturalFrom(table, old(size), gens)
        invariant (table == old(table) && size == old(size) && answers == old(answers) && free == old(free))
                  || (active && old(free) == []
                      && (forall i :: schedule[0] <= i < old(size) ==> !IndexFree(old(Names()), i))
                      && forall i :: schedule[0] <= i < old(size) ==> old(table)[i].typ != TYPE_NONE)
        decreases |schedule| - next
      {
        ScheduleFacts();
        SizeFacts();
        if !active {
          kr := InvalidTask;
          return;
        }
        ghost var was := table;
        kr, name := Get(cap);
        if kr == Success {
          FreshName(was, old(size), name);
          return;
        }
        kr := GrowTable();
        NaturalOn(was, table, old(size), gens);
        if kr != Success {
          assert kr == ResourceShortage ==> RefusedSince(|old(answers)|);
          return;
        }
      }
    }

    /** The first name of a slot is of generation 0. */
    lemma FreshName(t: seq<Entry>, lo: nat, name: Name)
      requires NaturalFrom(t, lo, gens) && name.index < |t| && t[name.index].typ == TYPE_NONE
      requires NextTo(t[name.index].gen, name.gen) && name.gen < gens
      ensures name.index >= lo ==> name.gen == 0
    {
    }

    /** Sizes up to the last; a table that cannot grow has that size. */
    lemma SizeFacts()
      requires Valid()
      ensures |schedule| >= 2 && size <= LastSize() && (schedule[next - 1] == schedule[next] ==> size == LastSize())
    {
      assert next - 1 < |schedule| - 2 ==> schedule[next - 1] < schedule[|schedule| - 2];
    }

    // -------------------------------------------------------------- allocation by name

    /** Rip the slot of a name out of the free list and give it the name's generation. */
    method TakeNamed(name: Name, cap: Cap) returns (kr: Status)
      requires Valid() && name.gen < gens && cap.typ != TYPE_NONE
      requires 0 < name.index < size && table[name.index].typ == TYPE_NONE
      modifies this`free, this`table, cells
      ensures Valid() && kr == if schedule[0] <= name.index then Success else NoReturn
      ensures kr == Success ==> name !in old(Names()) && Names() == old(Names())[name := cap]
      ensures kr == NoReturn ==> Names() == old(Names()) && !SearchEnds(table, name.index)
    {
      hide NamesOk, Chain, FreeExact, LocalOk, SameExcept, GlobalValid, Bindings, Column;
      ghost var t := table;
      var found, q, p := FindOnFreeList(name.index);
      if !found { return NoReturn; }
      kr := Success;
      TakeLinked(q, name.index, name.gen, cap, p);
      assert GlobalValid();
      EnterSlot(t, name.index);
    }

    /**
      Follow the free list from slot 0 until the slot that links to index i.  Where the source has come back to
      slot 0 it goes on for ever, and this method reports that no such slot was found.
     */
    method FindOnFreeList(i: nat) returns (found: bool, q: nat, ghost p: nat)
      requires NamesValid() && 0 < i < size && table[i].typ == TYPE_NONE
      ensures found <==> SearchEnds(table, i)
      ensures found <==> schedule[0] <= i
      ensures found ==> p < |free| && free[p] == i && q == Pred(free, p)
    {
      SearchEndsIff(table, tree, free, schedule[0], gens, i);
      found, q, p := true, 0, 0;
      while table[q].link != i
        invariant p <= |free| && q == Pred(free, p) && q < |table|
        invariant i !in free[..p]
        decreases |free| - p
      {
        if p > 0 {
          assert Linked(table, free, p - 1);
        }
        if table[q].link == 0 {
          found := false;
          return;
        }
        assert p < |free| && free[p] in free;
        q, p := table[q].link, p + 1;
      }
      if p > 0 {
        assert Linked(table, free, p - 1);
      }
    }

    /** Insert a name into the tree; its slot, if the table has one, is in use by another generation. */
    method InsertName(name: Name, cap: Cap)
      requires Valid() && name != NULL_NAME && name.gen < gens && cap.typ != TYPE_NONE && name !in Names()
      requires 0 < name.index < size ==> table[name.index].typ != TYPE_NONE
      modifies this`table, this`tree, this`treeTotal, this`treeSmall, this`treeHash, hash
      ensures Valid() && Names() == old(Names())[name := cap] && OthersUnchanged() && name in tree
    {
      hide NamesOk, LocalOk, GlobalValid, Bindings, GlobalHash.Holds, Indices, IndicesWithin, SendSlots;
      var index := name.index;
      JoiningFacts(name, cap);
      if index < size {
        table := table[index := table[index].(collision := true)];
      } else if index < schedule[next] {
        var collides := TreeCollision(name);
        if !collides {
          treeSmall := treeSmall + 1;
        }
      }
      EnterTree(name, cap);
    }

    /** What becomes of the space when the name joins the tree and its slot, if there is one, is flagged. */
    lemma JoiningFacts(name: Name, cap: Cap)
      requires NamesValid() && LocalValid() && name !in Names()
      requires name != NULL_NAME && name.gen < gens && cap.typ != TYPE_NONE
      requires 0 < name.index < size ==> table[name.index].typ != TYPE_NONE
      ensures name !in tree
      ensures var more := tree[name := cap];
              var u := if name.index < size then table[name.index := table[name.index].(collision := true)] else table;
              && NamesOk(u, more, free, schedule[0], gens) && LocalOk(u, Column(), SendSlots(u))
              && Bindings(u, more) == Names()[name := cap]
              && |IndicesWithin(more, size, schedule[next])|
                 == treeSmall + (if size <= name.index < schedule[next] && name.index !in Indices(tree) then 1 else 0)
    {
      hide NamesOk, LocalOk, Bindings, IndicesWithin, Indices, SendSlots, LiveAt;
      NotBound(table, tree, name);
      AddToTree(table, tree, free, schedule[0], gens, name, cap);
      AddWithin(tree, name, cap, size, schedule[next]);
      FlagLocal(table, name.index, true, Column());
      FlagSame(table, name.index);
    }

    /**
      ipc_entry_alloc_name: find or make the entry with a specific name; found tells the two cases apart.
      For an index of the first table, whose slots were never linked into the free list, the source does not
      return, see IpcTable.SearchEndsIff.
     */
    method AllocName(name: Name, cap: Cap) returns (kr: Status, found: bool)
      requires Valid() && name != NULL_NAME && name.gen < gens && cap.typ != TYPE_NONE
      modifies this`table, this`cells, this`size, this`next, this`memory, this`free, this`answers
      modifies this`tree, this`treeTotal, this`treeSmall, this`treeHash, cells, hash
      ensures Valid() && OthersUnchanged()
      ensures cells == old(cells) || fresh(cells)
      ensures kr == Success || kr == InvalidTask || kr == ResourceShortage || kr == NoReturn
      ensures kr == InvalidTask <==> !active
      ensures kr == NoReturn <==> active && 0 < name.index < schedule[0]
      ensures kr == NoReturn ==> name.index < size && !SearchEnds(table, name.index)
      ensures found ==> kr == Success && name in old(Names()) && Names() == old(Names())
      ensures kr == Success && !found ==> name !in old(Names()) && Names() == old(Names())[name := cap]
      ensures kr != Success ==> Names() == old(Names())
      ensures old(answers) <= answers && (kr == ResourceShortage <==> RefusedSince(|old(answers)|))
      ensures active && name in old(Names()) ==> kr == Success && found && answers == old(answers)
      ensures 0 < old(next) <= next < |schedule|
      ensures old(next) < next ==> old(size) <= name.index
      ensures AllPayOff(old(Names()), old(next), next)
      ensures kr == Success && !found ==>
                |answers| == |old(answers)| + (next - old(next)) + if name in tree then 1 else 0
      ensures kr == Success && !found && size <= name.index < schedule[next] ==>
                !PaysOff(old(Names()), size, schedule[next], 1)
    {
      hide Valid, Names, Schedule, GlobalHash.Holds, PaysOff, AllPayOff;
      var index, haveEntry := name.index, false;
      found := false;
      ScheduleFacts();
      JoinPayOff(Names(), next, next, next);
      while true
        invariant Valid() && Names() == old(Names()) && OthersUnchanged()
        invariant cells == old(cells) || fresh(cells)
        invariant old(answers) <= answers && !RefusedSince(|old(answers)|)
        invariant answers == old(answers) || (active && name !in old(Names()))
        invariant |answers| == |old(answers)| + (next - old(next)) + if haveEntry then 1 else 0
        invariant 0 < old(next) <= next < |schedule| && size == |table| && (next == old(next) ==> size == old(size))
        invariant haveEntry ==> 0 < index < size ==> table[index].typ != TYPE_NONE
        invariant haveEntry ==> size <= index < schedule[next] ==> !PaysOff(Names(), size, schedule[next], 1)
        invariant next > old(next) ==> old(size) <= index
        invariant AllPayOff(old(Names()), old(next), next)
        decreases |schedule| - next, !haveEntry
      {
        ScheduleFacts();
        NameFacts(name);
        SmallFacts(1);
        if !active {
          kr := InvalidTask;
          return;
        }
        if 0 < index < size {
          if table[index].typ != TYPE_NONE {
            if table[index].gen == name.gen {
              kr, found := Success, true;
              return;
            }
          } else {
            kr := TakeNamed(name, cap);
            return;
          }
        }
        if treeTotal > 0 && name in tree {
          kr, found := Success, true;
          return;
        }
        if size <= index < schedule[next]
           && (schedule[next] - size) * Memory.ENTRY_SIZE < (treeSmall + 1) * TREE_ENTRY_SIZE {
          assert name !in old(Names());
          ghost var was := next;
          kr := GrowForName(name);
          JoinPayOff(Names(), old(next), was, next);
          if kr != Success {
            return;
          }
          continue;
        }
        if haveEntry {
          InsertName(name, cap);
          kr := Success;
          return;
        }
        haveEntry := Allocate();
        if !haveEntry {
          assert !answers[|answers| - 1];
          kr := ResourceShortage;
          return;
        }
      }
    }

    /** The growth for a name whose index the next size would take in. */
    method GrowForName(name: Name) returns (kr: Status)
      requires Valid() && active && size <= name.index && 0 < next < |schedule| && name.index < schedule[next]
      requires PaysOff(Names(), size, schedule[next], 1)
      modifies this`table, this`cells, this`size, this`next, this`memory, this`free, this`answers
      modifies this`tree, this`treeTotal, this`treeSmall, this`treeHash, hash
      ensures Valid() && Names() == old(Names()) && OthersUnchanged()
      ensures cells == old(cells) || fresh(cells)
      ensures old(answers) <= answers && (kr == ResourceShortage <==> RefusedSince(|old(answers)|))
      ensures kr == Success || kr == ResourceShortage
      ensures 0 < old(next) <= next < |schedule| && size == |table| && (kr == Success ==> old(next) < next)
      ensures |answers| == |old(answers)| + (next - old(next)) + if kr == ResourceShortage then 1 else 0
      ensures AllPayOff(Names(), old(next), next)
    {
      hide Valid, Names, Schedule, GlobalHash.Holds, PaysOff, Memory.Sound, Memory.Reallocable;
      ScheduleFacts();
      ghost var was := next;
      kr := GrowTable();
      ScheduleFacts();
      forall k | was < k < next ensures PaysOff(Names(), schedule[k - 1], schedule[k], 1) {
        PaysOffMore(Names(), schedule[k - 1], schedule[k]);
      }
    }

    /** How the places that ipc_entry_alloc_name looks at decide whether the name is bound. */
    lemma NameFacts(name: Name)
      requires Valid() && name != NULL_NAME
      ensures 0 < name.index < schedule[0] ==> name.index < |table| == size && table[name.index].typ == TYPE_NONE
      ensures 0 < name.index < size && table[name.index].typ != TYPE_NONE && table[name.index].gen == name.gen ==>
                name in Names()
      ensures treeTotal > 0 && name in tree ==> name in Names()
      ensures name in tree ==> treeTotal > 0
      ensures !(treeTotal > 0 && name in tree)
              && !(0 < name.index < size && table[name.index].typ != TYPE_NONE && table[name.index].gen == name.gen)
              ==> name !in Names()
      ensures 0 < name.index < size && table[name.index].typ == TYPE_NONE ==> name !in Names()
    {
      assert LiveAt(table, name) ==> name.index != 0;
      if 0 < name.index < size && table[name.index].typ == TYPE_NONE { FreeIndex(name.index); }
    }

    // -------------------------------------------------------------- deallocation

    /** Split the names of an index off the tree, pick one, and see whether the pick was the only one. */
    method PickTwin(i: nat) returns (twin: Name, more: bool)
      requires i in Indices(tree)
      ensures twin in tree && twin.index == i
      ensures more <==> i in Indices(tree - {twin})
    {
      var below := SplitSmall(tree, Name(i + 1, 0));
      var collisions := SplitRest(below, Name(i, 0));
      SplitFacts(tree, i);
      twin :| twin in collisions;
      SplitFacts(tree - {twin}, i);
      assert collisions - {twin} == SplitRest(SplitSmall(tree - {twin}, Name(i + 1, 0)), Name(i, 0));
      more := collisions - {twin} != map[];
    }

    /** ipc_entry_dealloc of a table entry that shares its index with tree entries: one of them moves in. */
    method RefillSlot(i: nat)
      requires NamesValid() && GlobalValid() && MemoryValid()
      requires i < size && table[i].typ != TYPE_NONE && table[i].collision
      requires LocalOk(table, Column(), SendSlots(table) - {i})
      modifies this`table, this`tree, this`treeTotal, this`treeHash, cells, hash
      ensures Valid() && OthersUnchanged()
      ensures Names() == old(Names()) - {Name(i, old(table)[i].gen)}
      ensures |table| == |old(table)| && table[i].typ != TYPE_NONE
      ensures exists twin :: twin in old(tree) && twin.index == i && tree == old(tree) - {twin}
                             && table == old(table)[i := Taken(twin.gen, i in Indices(tree), old(tree)[twin])]
    {
      hide NamesOk, LocalOk, GlobalValid, Bindings, GlobalHash.Holds, IndicesWithin, Indices, SendSlots, Schedule;
      hide MemoryValid, Taken;
      HasTwin(i);
      var twin, more := PickTwin(i);
      var e := Taken(twin.gen, more, tree[twin]);
      TwinFacts(twin);
      ghost var t := table;
      table := table[i := e];
      LeaveTree(twin);
      EnterRefilled(t, i);
    }

    /** What becomes of the names when the twin moves into its slot. */
    lemma TwinFacts(twin: Name)
      requires NamesValid() && twin in tree && twin.index < size && table[twin.index].typ != TYPE_NONE
      ensures var rest := tree - {twin};
              var u := table[twin.index := Taken(twin.gen, twin.index in Indices(rest), tree[twin])];
              && NamesOk(u, rest, free, schedule[0], gens) && u[twin.index].typ != TYPE_NONE
              && Bindings(u, rest) == Names() - {Name(twin.index, table[twin.index].gen)}
              && |IndicesWithin(rest, size, schedule[next])| == treeSmall
    {
      hide NamesOk, Bindings, IndicesWithin, Indices;
      MoveTwin(table, tree, free, schedule[0], gens, twin);
      RemoveWithin(tree, twin, size, schedule[next]);
    }

    /** ipc_hash_local_insert for the entry that moved in, if it is a send right. */
    method EnterRefilled(ghost t: seq<Entry>, i: nat)
      requires 0 < i < |t| && LocalOk(t, Column(), SendSlots(t) - {i})
      requires |table| == |t| && table == t[i := table[i]]
      modifies cells
      ensures LocalValid()
    {
      RefillLocal(t, i, table[i], Column());
      if table[i].typ == TYPE_SEND {
        LH.Insert(cells, Objs(table), i);
      }
    }

    lemma HasTwin(i: nat)
      requires NamesValid() && 0 <= i < size && table[i].typ != TYPE_NONE && table[i].collision
      ensures i in Indices(tree) && 0 < i
    {
    }

    /** ipc_entry_dealloc of a table entry without a collision: the slot joins the free list. */
    method FreeTableSlot(i: nat)
      requires NamesValid() && i < size && table[i].typ != TYPE_NONE && !table[i].collision
      requires LocalOk(table, Column(), SendSlots(table) - {i})
      modifies this`table, this`free
      ensures NamesValid() && LocalValid()
      ensures Names() == old(Names()) - {Name(i, old(table)[i].gen)}
      ensures |table| == |old(table)| && forall k :: 0 <= k < |table| ==> table[k].gen == old(table)[k].gen
      ensures free == [i] + old(free) && table[i].typ == TYPE_NONE
    {
      hide NamesOk, LocalOk, Bindings, SendSlots, Schedule;
      SlotFacts(i);
      FreeSlot(table, tree, free, schedule[0], gens, i);
      FreedLocal(table, i, Entry(table[i].gen, false, TYPE_NONE, 0, 0, table[0].link), Column());
      table := table[i := Entry(table[i].gen, false, TYPE_NONE, 0, 0, table[0].link)];
      IdleLocal(table, 0, table[0].(link := i), Column());
      table := table[0 := table[0].(link := i)];
      free := [i] + free;
    }

    lemma SlotFacts(i: nat)
      requires NamesValid() && i < size && table[i].typ != TYPE_NONE
      ensures 0 < i && table[0].typ == TYPE_NONE && 0 < |schedule| && |table| == size
      ensures Name(i, table[i].gen) in Names() && LiveAt(table, Name(i, table[i].gen))
    {
      assert LiveAt(table, Name(i, table[i].gen));
    }

    /** The collision bit or the counter for an index that has lost a tree entry, and may have others. */
    method SettleIndex(index: nat, collides: bool)
      requires size == |table| && next < |schedule|
      requires index < size ==> table[index].collision
      requires size <= index < schedule[next] && !collides ==> treeSmall > 0
      modifies this`table, this`treeSmall
      ensures table == Flagged(old(table), index, collides)
      ensures treeSmall == old(treeSmall) - if size <= index < schedule[next] && !collides then 1 else 0
      ensures |table| == |old(table)| && forall k :: 0 <= k < |table| ==> table[k].gen == old(table)[k].gen
    {
      FlagSame(table, index);
      if index < size {
        if !collides {
          table := Flagged(table, index, false);
        }
      } else if index < schedule[next] && !collides {
        treeSmall := treeSmall - 1;
      }
    }

    /** ipc_entry_dealloc of a tree entry, after the caller's ipc_hash_delete. */
    method FreeTreeEntry(name: Name)
      requires Valid() && name in tree
      modifies this`table, this`tree, this`treeTotal, this`treeSmall, this`treeHash, hash
      ensures Valid() && Names() == old(Names()) - {name} && OthersUnchanged()
      ensures |table| == |old(table)| && forall k :: 0 <= k < |table| ==> table[k].gen == old(table)[k].gen
    {
      hide NamesOk, LocalOk, GlobalValid, Bindings, GlobalHash.Holds, IndicesWithin, Indices, SendSlots, Schedule;
      hide LiveAt, MemoryValid, GlobalHash.Valid, SendAt, Flagged;
      LeavingFacts(name);
      LeaveTree(name);
      var collides := TreeCollision(name);
      SettleIndex(name.index, collides);
    }

    /** What becomes of the space when the name leaves the tree and its index is settled. */
    lemma LeavingFacts(name: Name)
      requires NamesValid() && LocalValid() && name in tree
      ensures name.index < size ==> table[name.index].collision
      ensures var rest := tree - {name};
              var last := name.index !in Indices(rest);
              var u := Flagged(table, name.index, !last);
              && |u| == size && NamesOk(u, rest, free, schedule[0], gens) && LocalOk(u, Column(), SendSlots(u))
              && Bindings(u, rest) == Names() - {name}
              && |IndicesWithin(rest, size, schedule[next])|
                 == treeSmall - (if size <= name.index < schedule[next] && last then 1 else 0)
    {
      hide NamesOk, LocalOk, Bindings, IndicesWithin, Indices, SendSlots, Flagged, LiveAt;
      RemoveFromTree(table, tree, free, schedule[0], gens, name);
      RemoveWithin(tree, name, size, schedule[next]);
      FlagLocal(table, name.index, name.index in Indices(tree - {name}), Column());
      FlagSame(table, name.index);
    }

    /** ipc_hash_delete and ipc_entry_dealloc for the entry that a name denotes. */
    method Release(name: Name) returns (kr: Status)
      requires Valid() && active
      modifies this`table, this`free, this`tree, this`treeTotal, this`treeSmall, this`treeHash, cells, hash
      ensures Valid() && OthersUnchanged()
      ensures kr == if name in old(Names()) then Success else InvalidName
      ensures Names() == old(Names()) - {name}
      ensures |table| == |old(table)|
              && forall k :: 0 <= k < |table| && table[k].typ == TYPE_NONE ==> table[k].gen == old(table)[k].gen
      ensures free == if name in old(Names()) && 0 < name.index < size && IndexFree(Names(), name.index)
                      then [name.index] + old(free) else old(free)
    {
      hide NamesValid, LocalValid, GlobalValid, Names, GlobalHash.Holds, LocalOk, SendSlots;
      ScheduleFacts();
      var place := Lookup(name);
      match place {
        case Nowhere =>
          assert Names() - {name} == Names();
          kr := InvalidName;
        case InTree(_) =>
          if 0 < name.index < size { TwinOf(name); }
          FreeTreeEntry(name);
          kr := Success;
        case InTable(i) =>
          SlotFacts(i);
          Unhash(i);
          assert NamesValid() && GlobalValid();
          if table[i].collision {
            RefillSlot(i);
            SlotName(i);
          } else {
            FreeTableSlot(i);
            FreeIndex(i);
          }
          kr := Success;
      }
    }

    /** ipc_hash_local_delete if the entry holds a send right. */
    method Unhash(i: nat)
      requires LocalValid() && 0 < i < |table|
      modifies cells
      ensures LocalOk(table, Column(), SendSlots(table) - {i})
    {
      if table[i].typ == TYPE_SEND {
        LH.Delete(cells, Objs(table), i);
      } else {
        assert SendSlots(table) - {i} == SendSlots(table);
      }
    }
  }
}
