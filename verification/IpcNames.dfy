/**
  Port names, capabilities and the ordered tree of overflow entries (Kernel/mxwl/ipc/ipc_entry.c).

  A name is a table index together with a generation number.  The number of generations is a parameter of a
  space: the entry code masks it with IE_BITS_GEN_MASK, and Kernel/mxwl/compat/ipc/ipc_entry.h sets that
  mask to zero, which is the case of a single generation.

  The splay tree is represented by what its callers rely on: a finite map from names to entries, ordered by
  index and then by generation.
 */
module IpcNames {
  import opened Wrappers

  datatype Name = Name(index: nat, gen: nat)

  /** MACH_PORT_NULL. */
  const NULL_NAME := Name(0, 0)

  /** The order of names as integers: the index holds the high bits. */
  predicate Less(a: Name, b: Name) {
    a.index < b.index || (a.index == b.index && a.gen < b.gen)
  }

  const TYPE_NONE: nat := 0
  const TYPE_SEND: nat := 1

  /** What a name denotes: capability type and user references, object, and dead-name request. */
  datatype Cap = Cap(typ: nat, urefs: nat, obj: nat, request: nat)

  type Tree = map<Name, Cap>

  /** The table indices that occur in the tree. */
  ghost function Indices(tree: Tree): set<nat> {
    set m | m in tree :: m.index
  }

  /** The table indices in [lo, hi) that occur in the tree. */
  ghost function IndicesWithin(tree: Tree, lo: nat, hi: nat): set<nat> {
    set m | m in tree && lo <= m.index < hi :: m.index
  }

  /** The names of the tree whose index lies in [lo, hi). */
  function NamesWithin(tree: Tree, lo: nat, hi: nat): set<Name> {
    set m | m in tree && lo <= m.index < hi
  }

  lemma {:induction false} LeastExists(names: set<Name>) returns (n: Name)
    requires names != {}
    ensures n in names && forall m :: m in names ==> !Less(m, n)
  {
    n :| n in names;
    var rest := names - {n};
    assert forall m :: m in names ==> m == n || m in rest;
    if rest != {} {
      var k := LeastExists(rest);
      if Less(k, n) {
        n := k;
      }
    }
  }

  /** The head of an ascending traversal. */
  method Least(names: set<Name>) returns (n: Name)
    requires names != {}
    ensures n in names && forall m :: m in names ==> !Less(m, n)
  {
    ghost var k := LeastExists(names);
    n :| n in names && forall m :: m in names ==> !Less(m, n);
  }

  /** ipc_splay_tree_bounds: the largest name not above and the smallest name not below the given one. */
  method TreeBounds(tree: Tree, name: Name) returns (lower: Option<Name>, upper: Option<Name>)
    ensures lower.Some? ==> lower.value in tree && !Less(name, lower.value)
    ensures forall m :: m in tree && !Less(name, m) ==> lower.Some? && !Less(lower.value, m)
    ensures upper.Some? ==> upper.value in tree && !Less(upper.value, name)
    ensures forall m :: m in tree && !Less(m, name) ==> upper.Some? && !Less(m, upper.value)
  {
    lower, upper := None, None;
    var rest := tree.Keys;
    while rest != {}
      invariant rest <= tree.Keys
      invariant lower.Some? ==> lower.value in tree && !Less(name, lower.value)
      invariant forall m :: m in tree && m !in rest && !Less(name, m) ==> lower.Some? && !Less(lower.value, m)
      invariant upper.Some? ==> upper.value in tree && !Less(upper.value, name)
      invariant forall m :: m in tree && m !in rest && !Less(m, name) ==> upper.Some? && !Less(m, upper.value)
    {
      var m :| m in rest;
      rest := rest - {m};
      if !Less(name, m) && (lower.None? || Less(lower.value, m)) {
        lower := Some(m);
      }
      if !Less(m, name) && (upper.None? || Less(m, upper.value)) {
        upper := Some(m);
      }
    }
  }

  /** The part of the tree that ipc_splay_tree_split hands to its third argument. */
  function SplitSmall(tree: Tree, name: Name): Tree {
    map m | m in tree && Less(m, name) :: tree[m]
  }

  /** The part of the tree that ipc_splay_tree_split keeps. */
  function SplitRest(tree: Tree, name: Name): Tree {
    map m | m in tree && !Less(m, name) :: tree[m]
  }

  /** Splitting below index i + 1 and then below index i isolates the names with index i. */
  lemma SplitFacts(tree: Tree, i: nat)
    ensures var collisions := SplitRest(SplitSmall(tree, Name(i + 1, 0)), Name(i, 0));
            && (forall m :: m in collisions <==> m in tree && m.index == i)
            && (forall m :: m in collisions ==> collisions[m] == tree[m])
            && (collisions == map[] <==> i !in Indices(tree))
            && SplitRest(tree, Name(i + 1, 0)) + collisions + SplitSmall(tree, Name(i, 0)) == tree
  {
    var collisions := SplitRest(SplitSmall(tree, Name(i + 1, 0)), Name(i, 0));
    if collisions == map[] {
      assert forall m :: m in tree && m.index == i ==> m in collisions;
    } else {
      var m :| m in collisions;
      assert m in tree && m.index == i;
    }
  }
  /** A split at generation 0 goes by the index alone. */
  lemma SplitAt(tree: Tree, i: nat)
    ensures var small, rest := SplitSmall(tree, Name(i, 0)), SplitRest(tree, Name(i, 0));
            && (forall m :: m in small <==> m in tree && m.index < i)
            && (forall m :: m in rest <==> m in tree && i <= m.index)
            && rest + small == tree
  {
  }

  /**
    Splitting at nsize, size and osize cuts the tree into the four regions of ipc_entry_grow_table, and joining them
    gives it back.
   */
  lemma GrowSplits(tree: Tree, osize: nat, size: nat, nsize: nat)
    requires osize <= size <= nsize
    ensures var small := SplitSmall(tree, Name(nsize, 0));
            var move := SplitSmall(small, Name(size, 0));
            var large, counted := SplitRest(tree, Name(nsize, 0)), SplitRest(small, Name(size, 0));
            var moved, ignore := SplitRest(move, Name(osize, 0)), SplitSmall(move, Name(osize, 0));
            && moved.Keys == NamesWithin(tree, osize, size)
            && counted.Keys == NamesWithin(tree, size, nsize)
            && ignore.Keys == NamesWithin(tree, 0, osize)
            && large + (counted + (moved + ignore)) == tree
  {
    hide SplitSmall, SplitRest;
    SplitAt(tree, nsize);
    var small := SplitSmall(tree, Name(nsize, 0));
    SplitAt(small, size);
    SplitAt(SplitSmall(small, Name(size, 0)), osize);
  }
}
