/**
  Whole runs of a space: any sequence of calls behaves as the same calls on a finite map from names to
  capabilities, and what that implies for a name's lifetime.
 */
module IpcRuns {
  import opened IpcNames
  import opened IpcTable
  import opened IpcGlobalHash
  import opened IpcSpace
  import Memory = IpcTableMemory
  import opened Wrappers

  /** A call on a space. */
  datatype Call =
    | DoAlloc(cap: Cap)
    | DoAllocName(name: Name, cap: Cap)
    | DoRelease(name: Name)
    | DoLookup(name: Name)
    | DoHashLookup(obj: nat)

  /** A call with what it returned, the name or capability it reported, and whether the allocator refused it memory. */
  datatype Event = Event(call: Call, kr: Status, found: bool, name: Option<Name>, seen: Option<Cap>, refused: bool)

  /** The first and the last size of the table: indices below the one are not handed out, nor from the other on. */
  datatype Sizes = Sizes(first: nat, last: nat)

  type Bound = map<Name, Cap>

  /**
    How an event takes the abstract map b to the abstract map after.  Without memory refused, an allocation succeeds
    exactly if some index between the sizes has no name, and an allocation by name always, but for the first indices.
   */
  ghost predicate Explains(b: Bound, e: Event, after: Bound, sizes: Sizes) {
    && (e.found ==> e.call.DoAllocName? && e.kr == Success)
    && (e.refused ==> e.kr == ResourceShortage && (e.call.DoAlloc? || e.call.DoAllocName?))
    && match e.call
       case DoAlloc(cap) =>
         if e.kr == Success then
           && !e.refused && e.name.Some? && e.name.value !in b && after == b[e.name.value := cap]
           && sizes.first <= e.name.value.index < sizes.last && IndexFree(b, e.name.value.index)
         else
           && after == b
           && e.kr == (if e.refused then ResourceShortage else NoSpace)
           && (e.kr == NoSpace ==> !RoomLeft(b, sizes.first, sizes.last))
       case DoAllocName(name, cap) =>
         if e.kr != Success then
           && after == b
           && e.kr == (if e.refused then ResourceShortage else NoReturn)
           && (e.kr == NoReturn ==> 0 < name.index < sizes.first)
           && name !in b
         else !e.refused && if e.found then name in b && after == b else name !in b && after == b[name := cap]
       case DoRelease(name) =>
         after == b - {name} && e.kr == (if name in b then Success else InvalidName)
       case DoLookup(name) =>
         after == b && e.seen == if name in b then Some(b[name]) else None
       case DoHashLookup(obj) =>
         && after == b
         && (e.name.Some? ==> e.name.value in b && b[e.name.value].typ == TYPE_SEND && b[e.name.value].obj == obj)
         && (e.name.None? ==> forall m :: m in b ==> b[m].typ != TYPE_SEND || b[m].obj != obj)
  }

  ghost predicate Run(states: seq<Bound>, trace: seq<Event>, sizes: Sizes) {
    && |states| == |trace| + 1
    && forall i :: 0 <= i < |trace| ==> Explains(states[i], trace[i], states[i + 1], sizes)
  }

  /** What the callers of the entry functions promise. */
  ghost predicate Legal(call: Call, gens: nat) {
    match call
    case DoAlloc(cap) => cap.typ != TYPE_NONE
    case DoAllocName(name, cap) =>
      cap.typ != TYPE_NONE && name != NULL_NAME && name.gen < gens
    case _ => true
  }

  /** The calls that do not return: asking by name for an index of the first table. */
  predicate Endless(call: Call, base: nat) {
    call.DoAllocName? && 0 < call.name.index < base
  }

  function SizesOf(space: Space): Sizes
    requires |space.schedule| >= 2
  {
    Sizes(space.schedule[0], space.LastSize())
  }

  /** One call on a space. */
  method Perform(space: Space, call: Call) returns (e: Event)
    requires space.Valid() && space.active && Legal(call, space.gens)
    modifies space`table, space`cells, space`size, space`next, space`memory, space`free, space`answers
    modifies space`tree, space`treeTotal, space`treeSmall, space`treeHash, space.cells, space.hash
    ensures space.Valid() && space.active
    ensures space.cells == old(space.cells) || fresh(space.cells)
    ensures |space.schedule| >= 2
    ensures e.call == call && Explains(old(space.Names()), e, space.Names(), SizesOf(space))
    ensures e.kr == NoReturn <==> Endless(call, space.schedule[0])
  {
    hide Space.NamesValid, Space.LocalValid, Space.GlobalValid, Space.Names, GlobalHash.Holds, IndexFree;
    space.SizeFacts();
    var asked := |space.answers|;
    match call {
      case DoAlloc(cap) =>
        var kr, name := space.Alloc(cap);
        e := Event(call, kr, false, Some(name), None, space.RefusedSince(asked));
      case DoAllocName(name, cap) =>
        var kr, found := space.AllocName(name, cap);
        e := Event(call, kr, found, Some(name), None, space.RefusedSince(asked));
      case DoRelease(name) =>
        var kr := space.Release(name);
        e := Event(call, kr, false, None, None, false);
      case DoLookup(name) =>
        var cap := Fetch(space, name);
        e := Event(call, Success, false, None, cap, false);
      case DoHashLookup(obj) =>
        var name := space.HashLookup(obj);
        e := Event(call, Success, false, name, None, false);
    }
  }

  method Fetch(space: Space, name: Name) returns (cap: Option<Cap>)
    requires space.Valid()
    ensures cap == if name in space.Names() then Some(space.Names()[name]) else None
  {
    var place := space.Lookup(name);
    match place {
      case Nowhere => cap := None;
      case InTable(i) => cap := Some(CapOf(space.table[i]));
      case InTree(m) => cap := Some(space.tree[m]);
    }
  }

  /** How many of the calls are made: up to the first that does not return, and that one too. */
  function Made(calls: seq<Call>, base: nat): (n: nat)
    ensures n <= |calls|
    ensures forall i :: 0 <= i < n - 1 ==> !Endless(calls[i], base)
    ensures n < |calls| ==> n > 0 && Endless(calls[n - 1], base)
  {
    if calls == [] then 0 else if Endless(calls[0], base) then 1 else 1 + Made(calls[1..], base)
  }

  /**
    Every sequence of calls on a space is a run of the abstract map, up to the first call that does not return.
    The blocks of the tables are sound at the end exactly if no table of a page or more has been replaced.
   */
  method Replay(space: Space, calls: seq<Call>) returns (trace: seq<Event>, ghost states: seq<Bound>)
    requires space.Valid() && space.active
    requires forall i :: 0 <= i < |calls| ==> Legal(calls[i], space.gens)
    modifies space, space.cells, space.hash
    ensures space.Valid()
    ensures |trace| == Made(calls, space.schedule[0]) && forall i :: 0 <= i < |trace| ==> trace[i].call == calls[i]
    ensures |space.schedule| >= 2 && Run(states, trace, SizesOf(space))
    ensures states[0] == old(space.Names()) && states[|trace|] == space.Names()
    ensures Memory.Sound(space.memory) <==> space.next == 1 || !Memory.Reallocable(space.schedule[space.next - 2])
  {
    hide Space.Valid, Space.Names, Explains, Legal, Memory.Sound, Memory.Reallocable;
    trace, states := [], [space.Names()];
    ghost var schedule, gens := space.schedule, space.gens;
    space.ScheduleFacts();
    space.SizeFacts();
    ghost var sizes := SizesOf(space);
    ghost var made := Made(calls, space.schedule[0]);
    var n := 0;
    while n < |calls|
      invariant n <= made && space.Valid() && space.active
      invariant space.cells == old(space.cells) || fresh(space.cells)
      invariant |trace| == n && forall i :: 0 <= i < n ==> trace[i].call == calls[i]
      invariant Run(states, trace, sizes) && states[0] == old(space.Names()) && states[n] == space.Names()
      invariant forall i :: 0 <= i < n ==> !Endless(calls[i], space.schedule[0])
    {
      var e := Perform(space, calls[n]);
      trace := trace + [e];
      states := states + [space.Names()];
      n := n + 1;
      if e.kr == NoReturn { break; }
    }
    space.ScheduleFacts();
    space.MemoryFacts();
  }

  // ---------------------------------------------------------------- consequences

  /** An event that makes name denote cap. */
  predicate Allocates(e: Event, name: Name, cap: Cap) {
    && e.kr == Success && !e.found
    && match e.call
       case DoAlloc(c) => c == cap && e.name == Some(name)
       case DoAllocName(n, c) => c == cap && n == name
       case _ => false
  }

  predicate Releases(e: Event, name: Name) {
    e.call == DoRelease(name)
  }

  /** A capability stays with its name from the allocation until the name is released. */
  lemma {:induction false} StaysBound(states: seq<Bound>, trace: seq<Event>, sizes: Sizes, i: nat, k: nat,
                                      name: Name, cap: Cap)
    requires Run(states, trace, sizes) && i < k <= |trace|
    requires Allocates(trace[i], name, cap)
    requires forall j :: i < j < k ==> !Releases(trace[j], name)
    ensures name in states[k] && states[k][name] == cap
  {
    if k == i + 1 {
      assert Explains(states[i], trace[i], states[i + 1], sizes);
    } else {
      StaysBound(states, trace, sizes, i, k - 1, name, cap);
      assert Explains(states[k - 1], trace[k - 1], states[k], sizes);
    }
  }

  /** While a name is held, no allocation returns it again. */
  lemma NeverReissued(states: seq<Bound>, trace: seq<Event>, sizes: Sizes, i: nat, k: nat,
                      name: Name, cap: Cap, other: Cap)
    requires Run(states, trace, sizes) && i < k < |trace|
    requires Allocates(trace[i], name, cap)
    requires forall j :: i < j < k ==> !Releases(trace[j], name)
    ensures !Allocates(trace[k], name, other)
  {
    StaysBound(states, trace, sizes, i, k, name, cap);
    assert Explains(states[k], trace[k], states[k + 1], sizes);
  }

  /** A lookup answers with the capability of the latest allocation that was not released since. */
  lemma LookupAnswers(states: seq<Bound>, trace: seq<Event>, sizes: Sizes, i: nat, k: nat, name: Name, cap: Cap)
    requires Run(states, trace, sizes) && i < k < |trace|
    requires Allocates(trace[i], name, cap) && trace[k].call == DoLookup(name)
    requires forall j :: i < j < k ==> !Releases(trace[j], name)
    ensures trace[k].seen == Some(cap)
  {
    StaysBound(states, trace, sizes, i, k, name, cap);
    assert Explains(states[k], trace[k], states[k + 1], sizes);
  }

  /**
    A name of the table that is released is not the next one to be handed out, if there are generations; but its
    index is, with the next generation, unless other names share it.
   */
  method ReleasedThenAllocated(space: Space, name: Name, cap: Cap) returns (kr: Status, other: Name)
    requires space.Valid() && space.active && cap.typ != TYPE_NONE && space.gens > 1
    requires name in space.Names() && name.index < space.size
    modifies space`table, space`cells, space`size, space`next, space`memory, space`free, space`answers
    modifies space`tree, space`treeTotal, space`treeSmall, space`treeHash, space.cells, space.hash
    ensures space.Valid() && (kr == Success ==> other != name)
    ensures 0 < name.index && IndexFree(old(space.Names()) - {name}, name.index) ==>
              kr == Success && other.index == name.index && space.NextTo(name.gen, other.gen)
    ensures var left := old(space.Names()) - {name}; space.Names() == if kr == Success then left[other := cap] else left
  {
    hide Space.Valid, Space.Names, GlobalHash.Holds;
    space.ScheduleFacts();
    ghost var i, was := name.index, space.table;
    if i > 0 {
      space.NameSlot(name);
      space.SlotName(i);
    }
    var released := space.Release(name);
    space.ScheduleFacts();
    ghost var now, names := space.table, space.Names();
    if i > 0 && now[i].typ != TYPE_NONE { space.SlotName(i); }
    assert i > 0 && now[i].typ == TYPE_NONE ==> now[i].gen == was[i].gen;
    assert i > 0 && was[i].gen != name.gen ==> Name(i, was[i].gen) in names;
    kr, other := space.Alloc(cap);
  }
}
