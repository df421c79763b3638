/**
  The entry table and the overflow tree of a space as values (Kernel/mxwl/ipc/ipc_entry.c): what the
  structures mean, the invariant that ties them together, and what each step does to the meaning.
 */
module IpcTable {
  import opened IpcNames
  import opened Wrappers

  /**
    A table entry.  gen, collision, typ and urefs are the fields of ie_bits; link is the union of ie_next
    (on the free list) and ie_request (in use).  The ie_index column lives in its own array.
   */
  datatype Entry = Entry(gen: nat, collision: bool, typ: nat, urefs: nat, obj: nat, link: nat)

  const ZERO_ENTRY := Entry(0, false, TYPE_NONE, 0, 0, 0)

  function CapOf(e: Entry): Cap {
    Cap(e.typ, e.urefs, e.obj, e.link)
  }

  /** The object column of the table. */
  function Objs(t: seq<Entry>): (objs: seq<nat>)
    ensures |objs| == |t| && forall i :: 0 <= i < |t| ==> objs[i] == t[i].obj
  {
    seq(|t|, i requires 0 <= i < |t| => t[i].obj)
  }

  // ---------------------------------------------------------------- meaning

  predicate LiveAt(t: seq<Entry>, m: Name) {
    m.index < |t| && t[m.index].typ != TYPE_NONE && t[m.index].gen == m.gen
  }

  ghost function Live(t: seq<Entry>): (live: set<Name>)
    ensures forall m :: m in live <==> LiveAt(t, m)
  {
    set i | 0 <= i < |t| && t[i].typ != TYPE_NONE :: Name(i, t[i].gen)
  }

  /** The finite map from names to capabilities that a space stands for. */
  ghost function Bindings(t: seq<Entry>, tree: Tree): (b: map<Name, Cap>)
    ensures forall m :: m in b <==> m in tree || LiveAt(t, m)
    ensures forall m :: m in tree ==> b[m] == tree[m]
    ensures forall m :: m !in tree && LiveAt(t, m) ==> b[m] == CapOf(t[m.index])
  {
    map m | m in Live(t) + tree.Keys :: if m in tree then tree[m] else CapOf(t[m.index])
  }

  /** To identify the bindings it is enough to look at one name at a time. */
  ghost predicate BindsAs(t: seq<Entry>, tree: Tree, b: map<Name, Cap>, m: Name) {
    if m in tree then m in b && b[m] == tree[m]
    else if LiveAt(t, m) then m in b && b[m] == CapOf(t[m.index])
    else m !in b
  }

  lemma BindingsAre(t: seq<Entry>, tree: Tree, b: map<Name, Cap>)
    requires forall m :: BindsAs(t, tree, b, m)
    ensures Bindings(t, tree) == b
  {
    forall m ensures m in Bindings(t, tree) <==> m in b {
      assert BindsAs(t, tree, b, m);
    }
    forall m | m in b ensures Bindings(t, tree)[m] == b[m] {
      assert BindsAs(t, tree, b, m);
    }
  }

  /** The same live entries bind the same names. */
  lemma BindingsFrame(t: seq<Entry>, u: seq<Entry>, tree: Tree)
    requires |t| <= |u|
    requires forall i :: 0 <= i < |t| ==> u[i] == t[i] || (u[i].typ == t[i].typ == TYPE_NONE)
    requires forall i :: |t| <= i < |u| ==> u[i].typ == TYPE_NONE
    ensures Bindings(u, tree) == Bindings(t, tree)
    ensures forall m :: LiveAt(u, m) <==> LiveAt(t, m)
  {
    forall k ensures BindsAs(u, tree, Bindings(t, tree), k) {
    }
    BindingsAre(u, tree, Bindings(t, tree));
  }

  ghost function SendSlots(t: seq<Entry>): set<nat> {
    set i | 0 <= i < |t| && t[i].typ == TYPE_SEND
  }

  ghost function SendNames(tree: Tree): set<Name> {
    set m | m in tree && tree[m].typ == TYPE_SEND
  }

  // ---------------------------------------------------------------- the joint invariant

  /** Slot contents.  The slots 1..base-1 of the first table are never put on the free list. */
  ghost predicate Slots(t: seq<Entry>, base: nat, gens: nat) {
    && 0 < base <= |t| && 0 < gens
    && (forall i :: 0 <= i < |t| ==> t[i].gen < gens)
    && (forall i :: 0 <= i < |t| && t[i].typ == TYPE_NONE ==> t[i].obj == 0 && t[i].urefs == 0)
    && (forall i :: 0 <= i < base ==> t[i].typ == TYPE_NONE)
    && t[0].gen == 0
  }

  /** The k-th index of the free list, or the terminator 0. */
  function At(free: seq<nat>, k: nat): nat {
    if k < |free| then free[k] else 0
  }

  /** The k-th slot of the free list links to the next one, the last slot to 0. */
  predicate Linked(t: seq<Entry>, free: seq<nat>, k: nat) {
    k < |free| && free[k] < |t| && t[free[k]].link == At(free, k + 1)
  }

  ghost predicate NoRepeats(free: seq<nat>) {
    forall j, k :: 0 <= j < k < |free| ==> free[j] != free[k]
  }

  /** Slot 0 holds the head of the free list, and the list ends with 0. */
  ghost predicate Chain(t: seq<Entry>, free: seq<nat>) {
    && |t| > 0
    && NoRepeats(free)
    && 0 !in free
    && t[0].link == At(free, 0)
    && (forall k :: 0 <= k < |free| ==> Linked(t, free, k))
  }

  /** From base on, the free list is exactly the free slots. */
  ghost predicate FreeExact(t: seq<Entry>, free: seq<nat>, base: nat) {
    && (forall i :: i in free ==> base <= i < |t| && t[i].typ == TYPE_NONE)
    && (forall i :: base <= i < |t| && t[i].typ == TYPE_NONE ==> i in free)
  }

  ghost predicate TreeOk(tree: Tree, gens: nat) {
    forall m :: m in tree ==> tree[m].typ != TYPE_NONE && m.gen < gens && m != NULL_NAME
  }

  /** COLLISION is set iff the tree holds the index, a free slot has no twin, and no name is in both places. */
  ghost predicate Twins(t: seq<Entry>, tree: Tree) {
    && (forall i :: 0 <= i < |t| ==> (t[i].collision <==> i in Indices(tree)))
    && (forall i :: 0 < i < |t| && t[i].typ == TYPE_NONE ==> !t[i].collision)
    && (forall m :: m in tree ==> !LiveAt(t, m))
  }

  ghost predicate NamesOk(t: seq<Entry>, tree: Tree, free: seq<nat>, base: nat, gens: nat) {
    Slots(t, base, gens) && Chain(t, free) && FreeExact(t, free, base) && TreeOk(tree, gens) && Twins(t, tree)
  }

  // ---------------------------------------------------------------- lookup

  /** The case analysis of ipc_entry_lookup. */
  function LookupAt(t: seq<Entry>, tree: Tree, m: Name): Option<Cap>
    requires 0 < |t|
  {
    if m.index < |t| then
      var e := t[m.index];
      if e.gen != m.gen then
        if e.collision then TreeLookup(tree, m) else None
      else if e.typ == TYPE_NONE then None
      else Some(CapOf(e))
    else if tree == map[] then None
    else TreeLookup(tree, m)
  }

  function TreeLookup(tree: Tree, m: Name): Option<Cap> {
    if m in tree then Some(tree[m]) else None
  }

  /** Lookup returns exactly the binding of the abstract map. */
  lemma LookupMeaning(t: seq<Entry>, tree: Tree, free: seq<nat>, base: nat, gens: nat, m: Name)
    requires NamesOk(t, tree, free, base, gens)
    ensures LookupAt(t, tree, m) == if m in Bindings(t, tree) then Some(Bindings(t, tree)[m]) else None
  {
  }

  // ---------------------------------------------------------------- taking a free slot

  /** The slot after ipc_entry_get or ipc_entry_alloc_name, once the caller has filled in the capability. */
  function Taken(gen: nat, collision: bool, cap: Cap): Entry {
    Entry(gen, collision, cap.typ, cap.urefs, cap.obj, cap.request)
  }

  /** Adding IE_BITS_GEN_ONE: the generation field wraps around. */
  function NextGen(gen: nat, gens: nat): (g: nat)
    requires gen < gens
    ensures g < gens
  {
    if gen + 1 == gens then 0 else gen + 1
  }

  /** The free list without its p-th element. */
  function Cut(free: seq<nat>, p: nat): seq<nat>
    requires p < |free|
  {
    free[..p] + free[p + 1..]
  }

  /** The slot whose link leads to the p-th element of the free list. */
  function Pred(free: seq<nat>, p: nat): nat
    requires p <= |free|
  {
    if p == 0 then 0 else free[p - 1]
  }

  lemma CutMembers(free: seq<nat>, p: nat)
    requires p < |free| && NoRepeats(free)
    ensures NoRepeats(Cut(free, p))
    ensures forall x :: x in Cut(free, p) <==> x in free && x != free[p]
  {
  }

  lemma CutChain(t: seq<Entry>, free: seq<nat>, p: nat, e: Entry)
    requires Chain(t, free) && p < |free|
    ensures Pred(free, p) < |t| && Pred(free, p) != free[p] && free[p] < |t|
    ensures t[Pred(free, p)].link == free[p]
    ensures Chain(t[Pred(free, p) := t[Pred(free, p)].(link := t[free[p]].link)][free[p] := e], Cut(free, p))
  {
    var i, q, cut := free[p], Pred(free, p), Cut(free, p);
    assert i in free && Linked(t, free, p);
    assert p > 0 ==> q in free && Linked(t, free, p - 1);
    var u := t[q := t[q].(link := t[i].link)][i := e];
    CutMembers(free, p);
    forall k | 0 <= k < |cut| ensures Linked(u, cut, k) {
      var j := if k < p then k else k + 1;
      assert cut[k] == free[j] && Linked(t, free, j);
      assert k + 1 < |cut| ==> cut[k + 1] == free[if k + 1 < p then k + 1 else k + 2];
    }
    assert p == 0 && |cut| > 0 ==> cut[0] == free[1];
    assert p > 0 ==> cut[0] == free[0];
  }

  /** Slots other than i mean the same in u as in t. */
  ghost predicate SameExcept(t: seq<Entry>, u: seq<Entry>, i: nat) {
    && |u| == |t|
    && (forall j :: 0 <= j < |t| && j != i ==> u[j] == t[j].(link := u[j].link))
    && (forall j :: 0 <= j < |t| && j != i && t[j].typ != TYPE_NONE ==> u[j] == t[j])
  }

  lemma BindSlot(t: seq<Entry>, u: seq<Entry>, tree: Tree, i: nat, gen: nat, cap: Cap)
    requires SameExcept(t, u, i) && i < |t| && t[i].typ == TYPE_NONE
    requires cap.typ != TYPE_NONE && u[i] == Taken(gen, false, cap) && Name(i, gen) !in tree
    ensures Name(i, gen) !in Bindings(t, tree)
    ensures Bindings(u, tree) == Bindings(t, tree)[Name(i, gen) := cap]
  {
    var m := Name(i, gen);
    var b := Bindings(t, tree)[m := cap];
    forall k ensures BindsAs(u, tree, b, k) {
    }
    BindingsAre(u, tree, b);
  }

  lemma UnbindSlot(t: seq<Entry>, u: seq<Entry>, tree: Tree, i: nat)
    requires SameExcept(t, u, i) && i < |t| && u[i].typ == TYPE_NONE && Name(i, t[i].gen) !in tree
    ensures Bindings(u, tree) == Bindings(t, tree) - {Name(i, t[i].gen)}
  {
    var m := Name(i, t[i].gen);
    var b := Bindings(t, tree) - {m};
    forall k ensures BindsAs(u, tree, b, k) {
    }
    BindingsAre(u, tree, b);
  }

  lemma TwinsSlot(t: seq<Entry>, u: seq<Entry>, tree: Tree, i: nat)
    requires Twins(t, tree) && SameExcept(t, u, i) && i < |t|
    requires !t[i].collision && !u[i].collision
    ensures Twins(u, tree)
  {
  }

  lemma TakeSlot(t: seq<Entry>, tree: Tree, free: seq<nat>, base: nat, gens: nat, p: nat, gen: nat, cap: Cap)
    requires NamesOk(t, tree, free, base, gens)
    requires p < |free| && gen < gens && cap.typ != TYPE_NONE
    ensures var i, q := free[p], Pred(free, p);
            && 0 < i < |t| && t[i].typ == TYPE_NONE && q < |t| && t[q].link == i
            && var u := t[q := t[q].(link := t[i].link)][i := Taken(gen, false, cap)];
            && NamesOk(u, tree, Cut(free, p), base, gens) && SameExcept(t, u, i)
            && Name(i, gen) !in Bindings(t, tree)
            && Bindings(u, tree) == Bindings(t, tree)[Name(i, gen) := cap]
  {
    var i, q := free[p], Pred(free, p);
    CutChain(t, free, p, Taken(gen, false, cap));
    CutMembers(free, p);
    assert i in free && (q == 0 || q in free);
    var u := t[q := t[q].(link := t[i].link)][i := Taken(gen, false, cap)];
    assert !t[i].collision;
    assert Name(i, gen) !in tree by {
      assert Name(i, gen) in tree ==> i in Indices(tree);
    }
    BindSlot(t, u, tree, i, gen, cap);
    TwinsSlot(t, u, tree, i);
    assert FreeExact(u, Cut(free, p), base);
    assert Slots(u, base, gens);
  }

  lemma ChainFrame(t: seq<Entry>, u: seq<Entry>, free: seq<nat>)
    requires Chain(t, free) && |u| >= |t|
    requires u[0].link == t[0].link
    requires forall i :: 0 <= i < |t| && i in free ==> u[i].link == t[i].link
    ensures Chain(u, free)
  {
    forall k | 0 <= k < |free| ensures Linked(u, free, k) {
      assert Linked(t, free, k) && free[k] in free;
    }
  }

  // ---------------------------------------------------------------- giving a slot back

  lemma LiveNotInTree(t: seq<Entry>, tree: Tree, i: nat)
    requires Twins(t, tree) && i < |t| && t[i].typ != TYPE_NONE
    ensures Name(i, t[i].gen) !in tree
  {
  }

  lemma ZeroNotListed(t: seq<Entry>, free: seq<nat>)
    requires Chain(t, free)
    ensures 0 !in free
  {
  }

  /** A slot that is not on the list becomes its head. */
  lemma FreeChain(t: seq<Entry>, free: seq<nat>, i: nat, e: Entry)
    requires Chain(t, free) && 0 < i < |t| && i !in free && e.link == t[0].link
    ensures var u := t[i := e]; Chain(u[0 := u[0].(link := i)], [i] + free)
  {
    var u := t[i := e];
    var v := u[0 := u[0].(link := i)];
    var f := [i] + free;
    assert forall k :: 0 <= k < |f| ==> f[k] == if k == 0 then i else free[k - 1];
    forall k | 0 <= k < |f| ensures Linked(v, f, k) {
      assert k > 0 ==> f[k] in free && Linked(t, free, k - 1);
    }
  }

  /** ipc_entry_dealloc without a collision: the slot becomes the head of the free list. */
  lemma FreeSlot(t: seq<Entry>, tree: Tree, free: seq<nat>, base: nat, gens: nat, i: nat)
    requires NamesOk(t, tree, free, base, gens)
    requires i < |t| && t[i].typ != TYPE_NONE && !t[i].collision
    ensures var u := t[i := Entry(t[i].gen, false, TYPE_NONE, 0, 0, t[0].link)];
            var v := u[0 := u[0].(link := i)];
            && NamesOk(v, tree, [i] + free, base, gens)
            && Bindings(v, tree) == Bindings(t, tree) - {Name(i, t[i].gen)}
  {
    var u := t[i := Entry(t[i].gen, false, TYPE_NONE, 0, 0, t[0].link)];
    var v := u[0 := u[0].(link := i)];
    hide Chain, Bindings, Twins, LiveAt;
    var f := [i] + free;
    assert i !in free;
    ZeroNotListed(t, free);
    LiveNotInTree(t, tree, i);
    FreeChain(t, free, i, Entry(t[i].gen, false, TYPE_NONE, 0, 0, t[0].link));
    assert forall x :: x in f <==> x == i || x in free;
    UnbindSlot(t, v, tree, i);
    TwinsSlot(t, v, tree, i);
    assert FreeExact(v, f, base);
  }

  lemma RemoveIndex(tree: Tree, m: Name)
    requires m in tree
    ensures m.index in Indices(tree)
    ensures forall i :: i in Indices(tree - {m}) ==> i in Indices(tree)
    ensures forall i :: i != m.index && i in Indices(tree) ==> i in Indices(tree - {m})
  {
  }

  lemma MoveTwinBindings(t: seq<Entry>, tree: Tree, twin: Name, c: bool)
    requires twin in tree && twin.index < |t| && t[twin.index].typ != TYPE_NONE && tree[twin].typ != TYPE_NONE
    requires Twins(t, tree)
    ensures Bindings(t[twin.index := Taken(twin.gen, c, tree[twin])], tree - {twin})
         == Bindings(t, tree) - {Name(twin.index, t[twin.index].gen)}
  {
    var i := twin.index;
    var m := Name(i, t[i].gen);
    var rest, u := tree - {twin}, t[i := Taken(twin.gen, c, tree[twin])];
    var b := Bindings(t, tree) - {m};
    assert LiveAt(t, m) && !LiveAt(t, twin);
    forall k ensures BindsAs(u, rest, b, k) {
    }
    BindingsAre(u, rest, b);
  }

  lemma MoveTwinTwins(t: seq<Entry>, tree: Tree, twin: Name)
    requires Twins(t, tree)
    requires twin in tree && twin.index < |t| && t[twin.index].typ != TYPE_NONE && tree[twin].typ != TYPE_NONE
    ensures var rest := tree - {twin};
            Twins(t[twin.index := Taken(twin.gen, twin.index in Indices(rest), tree[twin])], rest)
  {
    var i, rest := twin.index, tree - {twin};
    var u := t[i := Taken(twin.gen, i in Indices(rest), tree[twin])];
    RemoveIndex(tree, twin);
    forall m | m in rest ensures !LiveAt(u, m) {
      assert m in tree && !LiveAt(t, m);
    }
  }

  /** Rewriting a live slot with another live entry leaves the free list as it was. */
  lemma LiveSlotRewritten(t: seq<Entry>, free: seq<nat>, base: nat, gens: nat, i: nat, e: Entry)
    requires Slots(t, base, gens) && Chain(t, free) && FreeExact(t, free, base)
    requires i < |t| && t[i].typ != TYPE_NONE && e.typ != TYPE_NONE && e.gen < gens
    ensures Slots(t[i := e], base, gens) && Chain(t[i := e], free) && FreeExact(t[i := e], free, base)
  {
    hide Chain;
    assert i !in free && base <= i;
    ChainFrame(t, t[i := e], free);
  }

  /** ipc_entry_dealloc with a collision: a tree entry of the same index moves into the slot. */
  lemma MoveTwin(t: seq<Entry>, tree: Tree, free: seq<nat>, base: nat, gens: nat, twin: Name)
    requires NamesOk(t, tree, free, base, gens)
    requires twin in tree && twin.index < |t| && t[twin.index].typ != TYPE_NONE
    ensures var i := twin.index;
            var rest := tree - {twin};
            var u := t[i := Taken(twin.gen, i in Indices(rest), tree[twin])];
            && NamesOk(u, rest, free, base, gens) && u[i].typ != TYPE_NONE
            && Bindings(u, rest) == Bindings(t, tree) - {Name(i, t[i].gen)}
  {
    var i, rest := twin.index, tree - {twin};
    var c := i in Indices(rest);
    var u := t[i := Taken(twin.gen, c, tree[twin])];
    hide Slots, Chain, FreeExact, Bindings, Twins, LiveAt, Indices;
    LiveSlotRewritten(t, free, base, gens, i, Taken(twin.gen, c, tree[twin]));
    MoveTwinBindings(t, tree, twin, c);
    MoveTwinTwins(t, tree, twin);
  }

  /** The flag of slot i, if there is one, set to c. */
  function Flagged(t: seq<Entry>, i: nat, c: bool): seq<Entry> {
    if i < |t| then t[i := t[i].(collision := c)] else t
  }

  lemma FlaggedFacts(t: seq<Entry>, i: nat, c: bool, free: seq<nat>, base: nat, gens: nat)
    requires Slots(t, base, gens) && Chain(t, free) && FreeExact(t, free, base)
    ensures var u := Flagged(t, i, c);
            && Slots(u, base, gens) && Chain(u, free) && FreeExact(u, free, base)
            && forall m :: LiveAt(u, m) <==> LiveAt(t, m)
  {
    ChainFrame(t, Flagged(t, i, c), free);
  }

  lemma FlaggedBindings(t: seq<Entry>, tree: Tree, i: nat, c: bool)
    ensures Bindings(Flagged(t, i, c), tree) == Bindings(t, tree)
  {
    var u := Flagged(t, i, c);
    forall k ensures BindsAs(u, tree, Bindings(t, tree), k) {
    }
    BindingsAre(u, tree, Bindings(t, tree));
  }

  /** ipc_entry_dealloc of a tree entry; COLLISION stays on only while the tree holds the index. */
  lemma RemoveFromTree(t: seq<Entry>, tree: Tree, free: seq<nat>, base: nat, gens: nat, m: Name)
    requires NamesOk(t, tree, free, base, gens)
    requires m in tree
    ensures var rest := tree - {m};
            var u := Flagged(t, m.index, m.index in Indices(rest));
            && (m.index < |t| ==> t[m.index].collision)
            && NamesOk(u, rest, free, base, gens)
            && Bindings(u, rest) == Bindings(t, tree) - {m}
  {
    var rest := tree - {m};
    var u := Flagged(t, m.index, m.index in Indices(rest));
    RemoveIndex(tree, m);
    FlaggedFacts(t, m.index, m.index in Indices(rest), free, base, gens);
    FlaggedBindings(t, rest, m.index, m.index in Indices(rest));
    assert !LiveAt(t, m);
    RemoveBinding(t, tree, m);
  }

  lemma RemoveBinding(t: seq<Entry>, tree: Tree, m: Name)
    requires !LiveAt(t, m)
    ensures Bindings(t, tree - {m}) == Bindings(t, tree) - {m}
  {
  }

  /** ipc_entry_alloc_name into the tree: the slot, if there is one, is live or is slot 0. */
  lemma AddToTree(t: seq<Entry>, tree: Tree, free: seq<nat>, base: nat, gens: nat, m: Name, cap: Cap)
    requires NamesOk(t, tree, free, base, gens)
    requires m !in Bindings(t, tree) && m != NULL_NAME && m.gen < gens && cap.typ != TYPE_NONE
    requires 0 < m.index < |t| ==> t[m.index].typ != TYPE_NONE
    ensures var more := tree[m := cap];
            var u := Flagged(t, m.index, true);
            && NamesOk(u, more, free, base, gens)
            && Bindings(u, more) == Bindings(t, tree)[m := cap]
  {
    hide Bindings, Slots, Chain, FreeExact, Twins, Flagged, LiveAt;
    var more := tree[m := cap];
    NotBound(t, tree, m);
    AddTwins(t, tree, m, cap);
    FlaggedFacts(t, m.index, true, free, base, gens);
    FlaggedBindings(t, more, m.index, true);
    AddBinding(t, tree, m, cap);
  }

  lemma AddTwins(t: seq<Entry>, tree: Tree, m: Name, cap: Cap)
    requires Twins(t, tree) && !LiveAt(t, m)
    requires 0 < m.index < |t| ==> t[m.index].typ != TYPE_NONE
    ensures Twins(Flagged(t, m.index, true), tree[m := cap])
  {
  }

  lemma NotBound(t: seq<Entry>, tree: Tree, m: Name)
    requires m !in Bindings(t, tree)
    ensures !LiveAt(t, m) && m !in tree
  {
  }

  lemma AddBinding(t: seq<Entry>, tree: Tree, m: Name, cap: Cap)
    requires !LiveAt(t, m)
    ensures Bindings(t, tree[m := cap]) == Bindings(t, tree)[m := cap]
  {
  }

  // ---------------------------------------------------------------- the search for a slot on the free list

  /** Where the loop of ipc_entry_alloc_name stands after k rounds of following ie_next from slot 0. */
  function Walk(t: seq<Entry>, k: nat): (i: nat)
    requires |t| > 0
    ensures i < |t|
  {
    if k == 0 then 0
    else
      var next := t[Walk(t, k - 1)].link;
      if next < |t| then next else 0
  }

  lemma {:induction false} WalkStays(t: seq<Entry>, free: seq<nat>, base: nat, k: nat)
    requires Chain(t, free) && FreeExact(t, free, base) && 0 < base
    ensures Walk(t, k) == 0 || Walk(t, k) in free
  {
    if k > 0 {
      WalkStays(t, free, base, k - 1);
      var i := Walk(t, k - 1);
      if i != 0 {
        var j :| 0 <= j < |free| && free[j] == i;
        assert Linked(t, free, j);
      }
    }
  }

  lemma {:induction false} WalkTo(t: seq<Entry>, free: seq<nat>, p: nat)
    requires Chain(t, free) && p <= |free|
    ensures Walk(t, p) == Pred(free, p)
  {
    if p > 0 {
      WalkTo(t, free, p - 1);
      assert p > 1 ==> Linked(t, free, p - 2);
      assert Linked(t, free, p - 1);
    }
  }

  /** The search finds a slot that links to slot i. */
  ghost predicate SearchEnds(t: seq<Entry>, i: nat)
    requires 0 < |t|
  {
    exists k: nat :: t[Walk(t, k)].link == i
  }

  /**
    The search of ipc_entry_alloc_name for a free slot comes to an end exactly for the slots from base on.
    ipc_space_create zeroes the first table without linking its slots, so for a smaller index the loop
    follows the free list round and round.
   */
  lemma SearchEndsIff(t: seq<Entry>, tree: Tree, free: seq<nat>, base: nat, gens: nat, i: nat)
    requires NamesOk(t, tree, free, base, gens)
    requires 0 < i < |t| && t[i].typ == TYPE_NONE
    ensures SearchEnds(t, i) <==> base <= i
  {
    if base <= i {
      assert i in free;
      var p :| 0 <= p < |free| && free[p] == i;
      WalkTo(t, free, p);
      assert p > 0 ==> Linked(t, free, p - 1);
      assert t[Walk(t, p)].link == i;
    } else {
      forall k: nat ensures t[Walk(t, k)].link != i {
        WalkStays(t, free, base, k);
        WalkStays(t, free, base, k + 1);
      }
    }
  }

  /** In a new space, whose table is all zero, the search for slot 1 never ends. */
  lemma NewTableSearch(size: nat, gens: nat)
    requires size > 1 && gens > 0
    ensures var t := seq(size, _ => ZERO_ENTRY); NamesOk(t, map[], [], size, gens) && !SearchEnds(t, 1)
  {
    var t := seq(size, _ => ZERO_ENTRY);
    SearchEndsIff(t, map[], [], size, gens, 1);
  }

  // ---------------------------------------------------------------- growing the table

  /** A name of the tree that the traversal has already passed. */
  predicate Passed(tree: Tree, pending: set<Name>, m: Name) {
    m in tree && m !in pending
  }

  /** The grown table while the tree names in pending still wait for their turn. */
  ghost predicate GrowTwins(t: seq<Entry>, tree: Tree, osize: nat, pending: set<Name>)
    requires osize <= |t|
  {
    && (forall i :: 0 <= i < osize ==> (t[i].collision <==> i in Indices(tree)))
    && (forall i :: 0 < i < osize && t[i].typ == TYPE_NONE ==> !t[i].collision)
    && (forall m :: m in pending ==> m in tree && osize <= m.index < |t|)
    && (forall m :: m in tree ==> !LiveAt(t, m))
    && (forall m :: Passed(tree, pending, m) && osize <= m.index < |t|
          ==> t[m.index].typ != TYPE_NONE && t[m.index].collision)
    && (forall i :: osize <= i < |t| && t[i].collision ==> i in Indices(tree))
    && (forall i :: osize <= i < |t| && t[i].typ == TYPE_NONE ==> t[i] == ZERO_ENTRY)
  }

  ghost predicate GrowOk(t: seq<Entry>, tree: Tree, free: seq<nat>, base: nat, gens: nat, osize: nat,
                         pending: set<Name>) {
    && 0 < osize <= |t|
    && Slots(t, base, gens) && Chain(t, free) && TreeOk(tree, gens)
    && (forall i :: i in free ==> base <= i < osize && t[i].typ == TYPE_NONE)
    && (forall i :: base <= i < osize && t[i].typ == TYPE_NONE ==> i in free)
    && base <= osize
    && GrowTwins(t, tree, osize, pending)
  }

  /** The copied table, extended with zeroed slots. */
  function Extended(t: seq<Entry>, n: nat): seq<Entry> {
    t + seq(n, _ => ZERO_ENTRY)
  }

  lemma StartTwins(t: seq<Entry>, tree: Tree, n: nat, pending: set<Name>)
    requires Twins(t, tree) && pending == NamesWithin(tree, |t|, |t| + n)
    ensures GrowTwins(Extended(t, n), tree, |t|, pending)
  {
  }

  lemma StartGrow(t: seq<Entry>, tree: Tree, free: seq<nat>, base: nat, gens: nat, n: nat, pending: set<Name>)
    requires NamesOk(t, tree, free, base, gens)
    requires pending == NamesWithin(tree, |t|, |t| + n)
    ensures GrowOk(Extended(t, n), tree, free, base, gens, |t|, pending)
    ensures Bindings(Extended(t, n), tree) == Bindings(t, tree)
  {
    hide Chain, Bindings, GrowTwins;
    var u := Extended(t, n);
    ChainFrame(t, u, free);
    BindingsFrame(t, u, tree);
    StartTwins(t, tree, n, pending);
  }

  lemma PassFlagTwins(t: seq<Entry>, tree: Tree, osize: nat, pending: set<Name>, m: Name)
    requires osize <= |t| && GrowTwins(t, tree, osize, pending)
    requires m in pending && t[m.index].typ != TYPE_NONE
    ensures GrowTwins(Flagged(t, m.index, true), tree, osize, pending - {m})
  {
    var u := Flagged(t, m.index, true);
    assert m.index in Indices(tree);
    forall k | k in tree ensures !LiveAt(u, k) {
      assert !LiveAt(t, k);
    }
    forall k | Passed(tree, pending - {m}, k) && osize <= k.index < |u|
      ensures u[k.index].typ != TYPE_NONE && u[k.index].collision
    {
      assert k == m || Passed(tree, pending, k);
    }
  }

  /** The slot of a passed name is taken, and the name does not hold it: it only leaves its mark. */
  lemma PassFlag(t: seq<Entry>, tree: Tree, free: seq<nat>, base: nat, gens: nat, osize: nat, pending: set<Name>,
                 m: Name)
    requires GrowOk(t, tree, free, base, gens, osize, pending)
    requires m in pending && t[m.index].typ != TYPE_NONE
    ensures t[m.index].gen != m.gen
    ensures GrowOk(Flagged(t, m.index, true), tree, free, base, gens, osize, pending - {m})
    ensures Bindings(Flagged(t, m.index, true), tree) == Bindings(t, tree)
  {
    assert !LiveAt(t, m);
    ChainFrame(t, Flagged(t, m.index, true), free);
    FlaggedBindings(t, tree, m.index, true);
    PassFlagTwins(t, tree, osize, pending, m);
  }

  lemma PassMoveTwins(t: seq<Entry>, tree: Tree, osize: nat, pending: set<Name>, m: Name)
    requires osize <= |t| && GrowTwins(t, tree, osize, pending)
    requires m in pending && t[m.index].typ == TYPE_NONE && tree[m].typ != TYPE_NONE
    ensures GrowTwins(t[m.index := Taken(m.gen, false, tree[m])], tree - {m}, osize, pending - {m})
  {
    var u, rest := t[m.index := Taken(m.gen, false, tree[m])], tree - {m};
    RemoveIndex(tree, m);
    forall k | k in rest ensures !LiveAt(u, k) {
      assert k in tree && !LiveAt(t, k);
    }
    forall k | Passed(rest, pending - {m}, k) && osize <= k.index < |u|
      ensures u[k.index].typ != TYPE_NONE && u[k.index].collision
    {
      assert Passed(tree, pending, k);
    }
    forall i | osize <= i < |u| && u[i].collision ensures i in Indices(rest) {
      assert i != m.index && t[i].collision;
    }
  }

  /** The first name of an index moves from the tree into the slot. */
  lemma PassMove(t: seq<Entry>, tree: Tree, free: seq<nat>, base: nat, gens: nat, osize: nat, pending: set<Name>,
                 m: Name)
    requires GrowOk(t, tree, free, base, gens, osize, pending)
    requires m in pending && t[m.index].typ == TYPE_NONE
    ensures var u := t[m.index := Taken(m.gen, false, tree[m])];
            && GrowOk(u, tree - {m}, free, base, gens, osize, pending - {m})
            && Bindings(u, tree - {m}) == Bindings(t, tree)
  {
    var i := m.index;
    var u, rest := t[i := Taken(m.gen, false, tree[m])], tree - {m};
    ChainFrame(t, u, free);
    PassMoveTwins(t, tree, osize, pending, m);
    PassMoveBindings(t, tree, m);
  }

  lemma PassMoveBindings(t: seq<Entry>, tree: Tree, m: Name)
    requires m in tree && m.index < |t| && t[m.index].typ == TYPE_NONE && tree[m].typ != TYPE_NONE
    requires forall k :: k in tree ==> !LiveAt(t, k)
    ensures Bindings(t[m.index := Taken(m.gen, false, tree[m])], tree - {m}) == Bindings(t, tree)
  {
    var u, rest := t[m.index := Taken(m.gen, false, tree[m])], tree - {m};
    var b := Bindings(t, tree);
    forall k ensures BindsAs(u, rest, b, k) {
      assert k.index == m.index && k != m ==> k.gen != m.gen;
    }
    BindingsAre(u, rest, b);
  }

  /** A new slot that nothing moved into: it will be the head of the free list, one generation before 0. */
  function Fresh(gens: nat, link: nat): Entry
    requires gens > 0
  {
    Entry(gens - 1, false, TYPE_NONE, 0, 0, link)
  }

  /** The list that starts at the local variable free_index, while slot 0 still holds the old head. */
  ghost predicate Loose(t: seq<Entry>, list: seq<nat>) {
    && |t| > 0 && NoRepeats(list) && 0 !in list
    && (forall k :: 0 <= k < |list| ==> Linked(t, list, k))
  }

  /** From i on, new slots are on the list iff they are free; below i they are as the traversal left them. */
  ghost predicate LinkOk(t: seq<Entry>, tree: Tree, list: seq<nat>, base: nat, gens: nat, osize: nat, i: nat) {
    && 0 < base <= osize <= i <= |t|
    && Slots(t, base, gens) && Loose(t, list) && TreeOk(tree, gens) && Twins(t, tree)
    && (forall j :: j in list ==> (base <= j < osize || i <= j < |t|) && t[j].typ == TYPE_NONE)
    && (forall j :: (base <= j < osize || i <= j < |t|) && t[j].typ == TYPE_NONE ==> j in list)
    && (forall j :: osize <= j < i && t[j].typ == TYPE_NONE ==> t[j] == ZERO_ENTRY)
  }

  lemma StartLink(t: seq<Entry>, tree: Tree, free: seq<nat>, base: nat, gens: nat, osize: nat)
    requires GrowOk(t, tree, free, base, gens, osize, {})
    ensures LinkOk(t, tree, free, base, gens, osize, |t|)
  {
    forall i | osize <= i < |t| && i in Indices(tree) ensures t[i].collision {
      var m :| m in tree && m.index == i;
      assert Passed(tree, {}, m);
    }
  }

  lemma LinkStep(t: seq<Entry>, tree: Tree, list: seq<nat>, base: nat, gens: nat, osize: nat, i: nat)
    requires LinkOk(t, tree, list, base, gens, osize, i + 1) && osize <= i && t[i].typ == TYPE_NONE
    ensures var u := t[i := Fresh(gens, At(list, 0))];
            && LinkOk(u, tree, [i] + list, base, gens, osize, i)
            && u[0].link == t[0].link
            && Bindings(u, tree) == Bindings(t, tree)
  {
    var u, f := t[i := Fresh(gens, At(list, 0))], [i] + list;
    assert i !in list;
    assert forall k :: 0 <= k < |f| ==> f[k] == if k == 0 then i else list[k - 1];
    assert forall x :: x in f <==> x == i || x in list;
    forall k | 0 <= k < |f| ensures Linked(u, f, k) {
      assert k > 0 ==> f[k] in list && Linked(t, list, k - 1);
    }
    BindingsFrame(t, u, tree);
  }

  lemma LinkSkip(t: seq<Entry>, tree: Tree, list: seq<nat>, base: nat, gens: nat, osize: nat, i: nat)
    requires LinkOk(t, tree, list, base, gens, osize, i + 1) && osize <= i && t[i].typ != TYPE_NONE
    ensures LinkOk(t, tree, list, base, gens, osize, i)
  {
  }

  /** The test entry->ie_bits == 0. */
  predicate BitsZero(e: Entry) {
    e.gen == 0 && !e.collision && e.typ == TYPE_NONE && e.urefs == 0
  }

  lemma LinkBits(t: seq<Entry>, tree: Tree, list: seq<nat>, base: nat, gens: nat, osize: nat, i: nat)
    requires LinkOk(t, tree, list, base, gens, osize, i + 1) && osize <= i
    ensures i < |t| && 0 < base && 0 < osize && 0 < gens
    ensures BitsZero(t[i]) <==> t[i].typ == TYPE_NONE
    ensures BitsZero(t[i]) ==> t[i].obj == 0
  {
  }

  lemma FinishLink(t: seq<Entry>, tree: Tree, list: seq<nat>, base: nat, gens: nat, osize: nat)
    requires LinkOk(t, tree, list, base, gens, osize, osize)
    ensures var u := t[0 := t[0].(link := At(list, 0))];
            && NamesOk(u, tree, list, base, gens)
            && Bindings(u, tree) == Bindings(t, tree)
  {
    var u := t[0 := t[0].(link := At(list, 0))];
    forall k | 0 <= k < |list| ensures Linked(u, list, k) {
      assert Linked(t, list, k) && list[k] in list;
    }
    BindingsFrame(t, u, tree);
  }

  // ---------------------------------------------------------------- a single generation

  /**
    With a single generation, as the compatibility header configures it, the tree never holds an index of
    the table, and no COLLISION flag is ever set.
   */
  lemma OneGeneration(t: seq<Entry>, tree: Tree, free: seq<nat>, base: nat, i: nat)
    requires NamesOk(t, tree, free, base, 1) && i < |t|
    ensures !t[i].collision && i !in Indices(tree)
  {
  }
}
