/**
  The locking protocol of ipc_entry_grow_table (Kernel/mxwl/ipc/ipc_entry.c:515-802).

  Growing a table drops the lock of the space twice: to allocate the new table and to free the old one.  Any
  number of threads run ipc_entry_alloc, ipc_entry_alloc_name or ipc_entry_dealloc on the same space, and a
  thread may mark the space dead while it holds the lock.  A move is what one thread does between two points
  at which the lock changes hands, or one allocation or release of memory without the lock; a waiting thread may
  be woken at any time.

  A table that fills a page is allocated with realloc, which gives the old block back, or extends it in place,
  while the space still names it and other threads may have the lock.
 */
module IpcGrowProtocol {
  import opened IpcTableMemory
  import opened Wrappers

  /** Where a thread is; otable and its are the local variables of ipc_entry_grow_table. */
  datatype Phase =
    | Outside                                            // not in a call on this space
    | Holding                                            // inside a call, with the lock
    | Waiting                                            // in thread_block: somebody else is growing
    | Allocating(otable: nat, its: nat)                  // lock dropped, about to allocate the new table
    | Made(otable: nat, its: nat, made: Option<nat>)     // allocation finished, waiting for the lock
    | Relocked(otable: nat, its: nat, made: Option<nat>) // lock retaken
    | Discarding(unused: nat)                            // space found dead, about to free the new table
    | Freeing(otable: nat, nits: nat)                    // lock dropped, about to free the old table
    | Freed(grown: Option<nat>)                          // table freed, waiting for the lock
    | Rechecked(nits: nat)                               // lock retaken, about to decide on another round

  /** Blocks are known by number; next is is_table_next as a position in the growth schedule. */
  datatype State = State(
    lock: Option<nat>,
    active: bool,
    growing: bool,
    table: nat,
    size: nat,
    next: nat,
    threads: seq<Phase>,
    freed: multiset<nat>,
    unused: nat)

  /** The growth schedule never shrinks, and a size that repeats is the last one. */
  ghost predicate Schedule(s: seq<nat>) {
    && |s| >= 2
    && s[|s| - 2] == s[|s| - 1]
    && forall k :: 0 < k < |s| ==> s[k - 1] <= s[k]
  }

  ghost predicate Init(s: State, schedule: seq<nat>) {
    && Schedule(schedule)
    && s.lock.None? && s.active && !s.growing
    && s.next == 1 && s.size == schedule[0]
    && (forall t :: 0 <= t < |s.threads| ==> s.threads[t].Outside?)
    && s.freed == multiset{} && s.table < s.unused
  }

  /** What the allocator does: it has no memory, it finds a new block, or realloc extends the old one. */
  datatype Answer = NoMemory | NewBlock | Extended

  datatype Move =
    | Acquire | Leave | Kill
    | GrowBusy | Wake | GrowFull | GrowBegin
    | Allocate(answer: Answer) | Relock | GiveUp | FindDead | Install
    | Free | Recheck | Again

  predicate Has(s: State, t: nat) {
    t < |s.threads| && s.lock == Some(t)
  }

  function To(s: State, t: nat, p: Phase): State
    requires t < |s.threads|
  {
    s.(threads := s.threads[t := p])
  }

  /** The table that a growing thread replaces is one that it_entries_reallocable accepts. */
  predicate Reallocs(s: State, schedule: seq<nat>, t: nat) {
    && t < |s.threads| && s.threads[t].Allocating?
    && 0 < s.threads[t].its <= |schedule|
    && Reallocable(schedule[s.threads[t].its - 1])
  }

  /** The guard of a move: the branch the source takes, and who has the lock. */
  predicate Enabled(s: State, schedule: seq<nat>, t: nat, m: Move) {
    && t < |s.threads|
    && 0 < s.next < |schedule|
    && var p := s.threads[t];
       match m
       case Acquire => p.Outside? && s.lock.None?
       case Leave => p.Holding? && Has(s, t)
       case Kill => p.Holding? && Has(s, t)
       case GrowBusy => p.Holding? && Has(s, t) && s.active && s.growing
       case Wake => p.Waiting? && s.lock.None?
       case GrowFull => p.Holding? && Has(s, t) && s.active && !s.growing && schedule[s.next - 1] == schedule[s.next]
       case GrowBegin => p.Holding? && Has(s, t) && s.active && !s.growing && schedule[s.next - 1] != schedule[s.next]
       case Allocate(answer) => p.Allocating? && (answer.Extended? ==> Reallocs(s, schedule, t))
       case Relock => p.Made? && s.lock.None?
       case GiveUp => p.Relocked? && Has(s, t) && p.made.None?
       case FindDead => p.Relocked? && Has(s, t) && p.made.Some? && !s.active
       case Install => p.Relocked? && Has(s, t) && p.made.Some? && s.active && p.its < |schedule|
       case Free => p.Discarding? || p.Freeing?
       case Recheck => p.Freed? && s.lock.None?
       case Again => p.Rechecked? && Has(s, t)
  }

  /** it_entries_alloc or it_entries_realloc: realloc of a block that moves frees the old one. */
  function Allocated(s: State, schedule: seq<nat>, t: nat, answer: Answer): State
    requires t < |s.threads| && s.threads[t].Allocating?
  {
    var p := s.threads[t];
    match answer
    case NoMemory => To(s, t, Made(p.otable, p.its, None))
    case Extended => To(s, t, Made(p.otable, p.its, Some(p.otable)))
    case NewBlock =>
      To(s, t, Made(p.otable, p.its, Some(s.unused)))
        .(unused := s.unused + 1,
          freed := if Reallocs(s, schedule, t) then s.freed + multiset{p.otable} else s.freed)
  }

  /** The effect of a move. */
  function Apply(s: State, schedule: seq<nat>, t: nat, m: Move): State
    requires Enabled(s, schedule, t, m)
  {
    var p := s.threads[t];
    match m
    case Acquire => To(s, t, Holding).(lock := Some(t))
    case Leave => To(s, t, Outside).(lock := None)
    case Kill => s.(active := false)
    case GrowBusy => To(s, t, Waiting).(lock := None)
    case Wake => To(s, t, Holding).(lock := Some(t))
    case GrowFull => To(s, t, Outside).(lock := None)
    case GrowBegin => To(s, t, Allocating(s.table, s.next)).(growing := true, lock := None)
    case Allocate(answer) => Allocated(s, schedule, t, answer)
    case Relock => To(s, t, Relocked(p.otable, p.its, p.made)).(growing := false, lock := Some(t))
    case GiveUp => To(s, t, Outside).(lock := None)
    case FindDead => To(s, t, Discarding(p.made.value)).(lock := None)
    case Install =>
      To(s, t, Freeing(p.otable, p.its + 1))
        .(table := p.made.value, size := schedule[p.its], next := p.its + 1, lock := None)
    case Free =>
      if p.Freeing? then To(s, t, Freed(Some(p.nits))).(freed := s.freed + multiset{p.otable})
      else To(s, t, Freed(None)).(freed := s.freed + multiset{p.unused})
    case Recheck =>
      To(s, t, if s.active && p.grown == Some(s.next) then Rechecked(s.next) else Holding).(lock := Some(t))
    case Again => To(s, t, Holding)
  }

  // ---------------------------------------------------------------- what the source asserts

  /** The assertions at :525, :595-597 and the assumption behind the loop condition at :797-799. */
  predicate AssertionsHold(s: State, schedule: seq<nat>, t: nat)
    requires t < |s.threads|
  {
    match s.threads[t]
    case Relocked(otable, its, made) =>
      made.Some? && s.active ==>
        && s.table == otable && s.next == its
        && 0 < its < |schedule| && s.size == schedule[its - 1] < schedule[its] && its + 1 < |schedule|
    case Rechecked(nits) =>
      s.active && s.next == nits && 0 < nits < |schedule| && s.size == schedule[nits - 1]
    case _ => true
  }

  // ---------------------------------------------------------------- the invariant

  predicate InLock(p: Phase) {
    p.Holding? || p.Relocked? || p.Rechecked?
  }

  /** Between setting is_growing and clearing it. */
  predicate Grows(p: Phase) {
    p.Allocating? || p.Made?
  }

  /** The block that a thread is going to install or to free. */
  function Owned(p: Phase): Option<nat> {
    match p
    case Made(_, _, made) => made
    case Relocked(_, _, made) => made
    case Discarding(unused) => Some(unused)
    case Freeing(otable, _) => Some(otable)
    case _ => None
  }

  predicate Started(s: State, schedule: seq<nat>, otable: nat, its: nat) {
    otable == s.table && its == s.next && 0 < its < |schedule| && schedule[its - 1] != schedule[its]
  }

  predicate OwnedKnown(s: State, t: nat)
    requires t < |s.threads|
  {
    Owned(s.threads[t]).Some? ==> Owned(s.threads[t]).value < s.unused
  }

  predicate ThreadOk(s: State, schedule: seq<nat>, t: nat)
    requires t < |s.threads|
  {
    var p := s.threads[t];
    && 0 < s.next < |schedule|
    && (InLock(p) <==> s.lock == Some(t))
    && (Grows(p) ==> s.growing && Started(s, schedule, p.otable, p.its))
    && (p.Relocked? ==> !s.growing && Started(s, schedule, p.otable, p.its))
    && (p.Rechecked? ==> s.active && p.nits == s.next)
    && OwnedKnown(s, t)
  }

  predicate OneGrows(s: State, t: nat, u: nat)
    requires t < |s.threads| && u < |s.threads|
  {
    !(Grows(s.threads[t]) && Grows(s.threads[u]))
  }

  ghost predicate Inv(s: State, schedule: seq<nat>) {
    && Schedule(schedule)
    && 0 < s.next < |schedule| && s.size == schedule[s.next - 1]
    && s.table < s.unused && (forall x :: x in s.freed ==> x < s.unused)
    && (s.growing ==> exists t :: 0 <= t < |s.threads| && Grows(s.threads[t]))
    && (s.lock.Some? ==> s.lock.value < |s.threads|)
    && (forall t :: 0 <= t < |s.threads| ==> ThreadOk(s, schedule, t))
    && (forall t, u :: 0 <= t < u < |s.threads| ==> OneGrows(s, t, u))
  }

  lemma InitInv(s: State, schedule: seq<nat>)
    requires Init(s, schedule)
    ensures Inv(s, schedule)
  {
  }

  /** Schedules grow strictly until the repeated last size. */
  lemma NextExists(schedule: seq<nat>, k: nat)
    requires Schedule(schedule) && 0 < k < |schedule| && schedule[k - 1] != schedule[k]
    ensures k + 1 < |schedule|
  {
  }

  /** The part of the invariant that is not about single threads. */
  predicate Shared(s: State, schedule: seq<nat>) {
    && 0 < s.next < |schedule| && s.size == schedule[s.next - 1]
    && s.table < s.unused
    && (s.lock.Some? ==> s.lock.value < |s.threads|)
  }

  lemma StepShared(s: State, schedule: seq<nat>, t: nat, m: Move)
    requires Schedule(schedule) && Shared(s, schedule) && Enabled(s, schedule, t, m) && ThreadOk(s, schedule, t)
    ensures Shared(Apply(s, schedule, t, m), schedule) && |Apply(s, schedule, t, m).threads| == |s.threads|
    ensures forall x :: x in Apply(s, schedule, t, m).freed ==> x in s.freed || x < s.unused
    ensures Apply(s, schedule, t, m).unused >= s.unused
  {
    if m == Install {
      NextExists(schedule, s.threads[t].its);
    }
  }

  lemma StepGrowing(s: State, schedule: seq<nat>, t: nat, m: Move)
    requires Inv(s, schedule) && Enabled(s, schedule, t, m)
    ensures var u := Apply(s, schedule, t, m);
            u.growing ==> exists v :: 0 <= v < |u.threads| && Grows(u.threads[v])
  {
    hide Started;
    var u := Apply(s, schedule, t, m);
    assert ThreadOk(s, schedule, t);
    if m == GrowBegin {
      assert Grows(u.threads[t]);
    } else if u.growing {
      var v :| 0 <= v < |s.threads| && Grows(s.threads[v]);
      assert Grows(u.threads[v]);
    }
  }

  lemma SameStart(s: State, u: State, schedule: seq<nat>, otable: nat, its: nat)
    requires Started(s, schedule, otable, its)
    ensures otable == s.table && its == s.next
    ensures u.table == s.table && u.next == s.next ==> Started(u, schedule, otable, its)
  {
  }

  /** A thread that sets is_growing remembers the table and the place in the schedule. */
  lemma BeginStarts(s: State, schedule: seq<nat>, t: nat)
    requires Shared(s, schedule) && Enabled(s, schedule, t, GrowBegin)
    ensures Started(Apply(s, schedule, t, GrowBegin), schedule, s.table, s.next)
  {
  }

  lemma StepKnown(s: State, schedule: seq<nat>, t: nat, m: Move)
    requires Shared(s, schedule) && Enabled(s, schedule, t, m) && ThreadOk(s, schedule, t)
    ensures OwnedKnown(Apply(s, schedule, t, m), t)
  {
    hide Reallocs, InLock;
    var u := Apply(s, schedule, t, m);
    if m == Install || m.Allocate? {
      assert s.threads[t].otable == s.table;
    } else if m == GrowBegin {
      assert Owned(u.threads[t]).None?;
    } else {
      assert Owned(u.threads[t]).None? || Owned(u.threads[t]) == Owned(s.threads[t]);
    }
  }

  /** A move of one thread keeps what holds of it. */
  lemma StepOwn(s: State, schedule: seq<nat>, t: nat, m: Move)
    requires Schedule(schedule) && Shared(s, schedule) && Enabled(s, schedule, t, m) && ThreadOk(s, schedule, t)
    ensures ThreadOk(Apply(s, schedule, t, m), schedule, t)
  {
    hide Reallocs, Schedule, Started, OwnedKnown, Owned;
    StepShared(s, schedule, t, m);
    StepKnown(s, schedule, t, m);
    var p := s.threads[t];
    if Grows(p) || p.Relocked? {
      SameStart(s, Apply(s, schedule, t, m), schedule, p.otable, p.its);
    }
    if m == GrowBegin {
      BeginStarts(s, schedule, t);
    }
  }

  /** A move of one thread keeps what holds of another one. */
  lemma StepOther(s: State, schedule: seq<nat>, t: nat, m: Move, v: nat)
    requires Schedule(schedule) && Shared(s, schedule) && Enabled(s, schedule, t, m) && ThreadOk(s, schedule, t)
    requires v < |s.threads| && v != t && ThreadOk(s, schedule, v) && OneGrows(s, t, v)
    ensures ThreadOk(Apply(s, schedule, t, m), schedule, v) && OneGrows(Apply(s, schedule, t, m), t, v)
  {
    hide Reallocs, Schedule, Started;
    var u := Apply(s, schedule, t, m);
    StepShared(s, schedule, t, m);
    assert u.threads[v] == s.threads[v];
    assert m != Install ==> u.table == s.table && u.next == s.next;
    var p := s.threads[v];
    if Grows(p) || p.Relocked? {
      SameStart(s, u, schedule, p.otable, p.its);
    }
  }

  /** Other threads stay where they are. */
  lemma StepSame(s: State, schedule: seq<nat>, t: nat, m: Move, v: nat)
    requires Enabled(s, schedule, t, m) && v < |s.threads| && v != t
    ensures |Apply(s, schedule, t, m).threads| == |s.threads| && Apply(s, schedule, t, m).threads[v] == s.threads[v]
  {
  }

  /** Every move of every thread keeps the invariant. */
  lemma StepInv(s: State, schedule: seq<nat>, t: nat, m: Move)
    requires Inv(s, schedule) && Enabled(s, schedule, t, m)
    ensures Inv(Apply(s, schedule, t, m), schedule)
  {
    hide Enabled, Apply, ThreadOk, Schedule, Grows, OneGrows;
    var u := Apply(s, schedule, t, m);
    MoverExists(s, schedule, t, m);
    StepShared(s, schedule, t, m);
    StepGrowing(s, schedule, t, m);
    StepOwn(s, schedule, t, m);
    forall v | 0 <= v < |u.threads| && v != t ensures ThreadOk(u, schedule, v) && OneGrows(u, t, v) {
      Both(s, schedule, t, v);
      StepOther(s, schedule, t, m, v);
    }
    forall v, w | 0 <= v < w < |u.threads| ensures OneGrows(u, v, w) {
      if v == t || w == t {
        Sides(u, v, w);
      } else {
        assert OneGrows(s, v, w);
        StepSame(s, schedule, t, m, v);
        StepSame(s, schedule, t, m, w);
        SameSides(s, u, v, w);
      }
    }
  }

  lemma MoverExists(s: State, schedule: seq<nat>, t: nat, m: Move)
    requires Enabled(s, schedule, t, m)
    ensures t < |s.threads|
  {
  }

  lemma Both(s: State, schedule: seq<nat>, t: nat, v: nat)
    requires Inv(s, schedule) && t < |s.threads| && v < |s.threads| && t != v
    ensures ThreadOk(s, schedule, v) && OneGrows(s, t, v)
  {
    assert t < v ==> OneGrows(s, t, v);
    assert v < t ==> OneGrows(s, v, t);
  }

  lemma Sides(s: State, v: nat, w: nat)
    requires v < |s.threads| && w < |s.threads|
    ensures OneGrows(s, v, w) <==> OneGrows(s, w, v)
  {
  }

  lemma SameSides(s: State, u: State, v: nat, w: nat)
    requires v < |s.threads| == |u.threads| && w < |s.threads| && OneGrows(s, v, w)
    requires u.threads[v] == s.threads[v] && u.threads[w] == s.threads[w]
    ensures OneGrows(u, v, w)
  {
  }

  // ---------------------------------------------------------------- blocks

  /** What a thread is going to install or to free is neither in use nor freed. */
  predicate BlockOk(s: State, t: nat)
    requires t < |s.threads|
  {
    Owned(s.threads[t]).Some? ==> Owned(s.threads[t]).value != s.table && Owned(s.threads[t]).value !in s.freed
  }

  predicate BlocksApart(s: State, t: nat, u: nat)
    requires t < |s.threads| && u < |s.threads|
  {
    Owned(s.threads[t]).Some? ==> Owned(s.threads[t]) != Owned(s.threads[u])
  }

  /** The table in use has not been freed, no block has been freed twice, and neither is about to happen. */
  ghost predicate FreesAreSafe(s: State) {
    && Sound(Memory(s.table, s.freed, s.unused))
    && (forall t :: 0 <= t < |s.threads| ==> BlockOk(s, t))
    && (forall t, u :: 0 <= t < u < |s.threads| ==> BlocksApart(s, t, u))
  }

  predicate GetsTable(m: Move) {
    m.Allocate? && !m.answer.NoMemory?
  }

  lemma GrowsFrom(s: State, schedule: seq<nat>, t: nat, m: Move)
    requires Inv(s, schedule) && Enabled(s, schedule, t, m) && GetsTable(m)
    ensures s.threads[t].otable == s.table
    ensures Reallocs(s, schedule, t) <==> s.size >= 128
  {
    assert ThreadOk(s, schedule, t);
  }

  /** No move but a growth from 128 or more entries. */
  ghost predicate SmallMove(s: State, schedule: seq<nat>, t: nat, m: Move) {
    Inv(s, schedule) && Enabled(s, schedule, t, m) && FreesAreSafe(s) && (GetsTable(m) ==> s.size < 128)
  }

  /** What such a move of thread t does to blocks. */
  ghost predicate Moved(s: State, u: State, t: nat) {
    && t < |s.threads| == |u.threads|
    && (forall v :: 0 <= v < |s.threads| && v != t ==> u.threads[v] == s.threads[v])
    && (u.table == s.table || Owned(s.threads[t]) == Some(u.table))
    && (u.freed == s.freed || (Owned(s.threads[t]).Some? && u.freed == s.freed + multiset{Owned(s.threads[t]).value}))
    && (u.table == s.table || u.freed == s.freed)
    && (|| Owned(u.threads[t]).None?
        || (Owned(u.threads[t]) == Some(s.unused) && u.table == s.table && u.freed == s.freed)
        || (Owned(u.threads[t]) == Some(s.table) && u.table != s.table)
        || (Owned(u.threads[t]) == Owned(s.threads[t]) && u.table == s.table && u.freed == s.freed))
  }

  lemma StepMoved(s: State, schedule: seq<nat>, t: nat, m: Move)
    requires SmallMove(s, schedule, t, m)
    ensures Moved(s, Apply(s, schedule, t, m), t)
  {
    assert ThreadOk(s, schedule, t) && BlockOk(s, t);
  }

  /** Such moves leave the memory safe. */
  lemma StepSafe(s: State, schedule: seq<nat>, t: nat, m: Move)
    requires SmallMove(s, schedule, t, m)
    ensures FreesAreSafe(Apply(s, schedule, t, m))
  {
    hide Enabled, Apply, Schedule, Owned;
    var u := Apply(s, schedule, t, m);
    StepMoved(s, schedule, t, m);
    assert BlockOk(s, t);
    forall v | 0 <= v < |u.threads| ensures BlockOk(u, v) {
      assert BlockOk(s, v) && ThreadOk(s, schedule, v);
      assert v < t ==> BlocksApart(s, v, t);
      assert t < v ==> BlocksApart(s, t, v);
    }
    forall v, w | 0 <= v < w < |u.threads| ensures BlocksApart(u, v, w) {
      assert BlocksApart(s, v, w) && BlockOk(s, v) && BlockOk(s, w);
      assert ThreadOk(s, schedule, v) && ThreadOk(s, schedule, w);
    }
  }

  /** A table that replaces one of 128 or more entries does not: the old block is gone, or it is the new one too. */
  lemma StepUnsafe(s: State, schedule: seq<nat>, t: nat, m: Move)
    requires Inv(s, schedule) && Enabled(s, schedule, t, m)
    requires GetsTable(m) && s.size >= 128
    ensures !FreesAreSafe(Apply(s, schedule, t, m))
  {
    var u := Apply(s, schedule, t, m);
    GrowsFrom(s, schedule, t, m);
    assert m.answer.Extended? ==> !BlockOk(u, t);
    assert m.answer.NewBlock? ==> u.table in u.freed;
  }

  // ---------------------------------------------------------------- every interleaving

  /** An execution: states linked by moves of any threads in any order. */
  ghost predicate Execution(states: seq<State>, moves: seq<(nat, Move)>, schedule: seq<nat>) {
    && |states| == |moves| + 1
    && Init(states[0], schedule)
    && forall i :: 0 <= i < |moves| ==>
         Enabled(states[i], schedule, moves[i].0, moves[i].1)
         && states[i + 1] == Apply(states[i], schedule, moves[i].0, moves[i].1)
  }

  lemma {:induction false} ExecutionInv(states: seq<State>, moves: seq<(nat, Move)>, schedule: seq<nat>, i: nat)
    requires Execution(states, moves, schedule) && i < |states|
    ensures Inv(states[i], schedule)
  {
    if i == 0 {
      InitInv(states[0], schedule);
    } else {
      ExecutionInv(states, moves, schedule, i - 1);
      StepInv(states[i - 1], schedule, moves[i - 1].0, moves[i - 1].1);
    }
  }

  /**
    In every state of every execution at most one thread is growing the table, the flag is_growing says
    whether one is, at most one thread is inside the lock, and the source's assertions hold.
   */
  lemma OneThreadGrows(states: seq<State>, moves: seq<(nat, Move)>, schedule: seq<nat>, i: nat)
    requires Execution(states, moves, schedule) && i < |states|
    ensures var s := states[i];
            && (forall t, u :: 0 <= t < u < |s.threads| ==> !(Grows(s.threads[t]) && Grows(s.threads[u])))
            && (s.growing <==> exists t :: 0 <= t < |s.threads| && Grows(s.threads[t]))
            && (forall t :: 0 <= t < |s.threads| ==> AssertionsHold(s, schedule, t))
            && (forall t, u :: 0 <= t < u < |s.threads| ==> !(InLock(s.threads[t]) && InLock(s.threads[u])))
  {
    var s := states[i];
    ExecutionInv(states, moves, schedule, i);
    forall t, u | 0 <= t < u < |s.threads|
      ensures !(Grows(s.threads[t]) && Grows(s.threads[u]))
      ensures !(InLock(s.threads[t]) && InLock(s.threads[u]))
    {
      assert OneGrows(s, t, u) && ThreadOk(s, schedule, t) && ThreadOk(s, schedule, u);
    }
    forall t | 0 <= t < |s.threads| ensures AssertionsHold(s, schedule, t) {
      assert ThreadOk(s, schedule, t);
      if s.threads[t].Relocked? {
        NextExists(schedule, s.next);
        assert schedule[s.next - 1] <= schedule[s.next];
      }
    }
    assert s.growing <== exists t :: 0 <= t < |s.threads| && Grows(s.threads[t]) by {
      if t :| 0 <= t < |s.threads| && Grows(s.threads[t]) {
        assert ThreadOk(s, schedule, t);
      }
    }
  }

  lemma {:induction false} SafeUpTo(states: seq<State>, moves: seq<(nat, Move)>, schedule: seq<nat>, i: nat)
    requires Execution(states, moves, schedule) && i < |states|
    requires forall k :: 0 <= k < i && GetsTable(moves[k].1) ==> states[k].size < 128
    ensures FreesAreSafe(states[i])
  {
    hide Inv, Enabled, Apply;
    if i > 0 {
      SafeUpTo(states, moves, schedule, i - 1);
      ExecutionInv(states, moves, schedule, i - 1);
      assert SmallMove(states[i - 1], schedule, moves[i - 1].0, moves[i - 1].1);
      StepSafe(states[i - 1], schedule, moves[i - 1].0, moves[i - 1].1);
    }
  }

  /**
    Memory is safe throughout an execution if and only if every growth that got a table started from fewer than
    128 entries.
   */
  lemma FreesAreSafeIff(states: seq<State>, moves: seq<(nat, Move)>, schedule: seq<nat>)
    requires Execution(states, moves, schedule)
    ensures (forall i :: 0 <= i < |states| ==> FreesAreSafe(states[i]))
       <==> (forall k :: 0 <= k < |moves| && GetsTable(moves[k].1) ==> states[k].size < 128)
  {
    hide Inv, Enabled, Apply, FreesAreSafe;
    if forall k :: 0 <= k < |moves| && GetsTable(moves[k].1) ==> states[k].size < 128 {
      forall i | 0 <= i < |states| ensures FreesAreSafe(states[i]) {
        SafeUpTo(states, moves, schedule, i);
      }
    } else {
      var k :| 0 <= k < |moves| && GetsTable(moves[k].1) && states[k].size >= 128;
      ExecutionInv(states, moves, schedule, k);
      StepUnsafe(states[k], schedule, moves[k].0, moves[k].1);
      assert !FreesAreSafe(states[k + 1]);
    }
  }

  // ---------------------------------------------------------------- until every call has ended

  /** The table in use has not been freed, and no block has been freed twice. */
  ghost predicate SoundNow(s: State) {
    Sound(Memory(s.table, s.freed, s.unused))
  }

  /** The block that a thread has allocated in place of the table, if it is there, is the table itself. */
  predicate SameBlock(s: State, t: nat)
    requires t < |s.threads|
  {
    var p := s.threads[t];
    (p.Made? || p.Relocked?) && p.made.Some? ==> p.made.value == s.table
  }

  /** Some thread is bound to free the table in use. */
  ghost predicate Doomed(s: State) {
    && s.size >= 128
    && (exists t :: 0 <= t < |s.threads| && Owned(s.threads[t]) == Some(s.table))
    && forall v :: 0 <= v < |s.threads| ==> SameBlock(s, v)
  }

  /** A growth from 128 entries on frees the table at once, or dooms it. */
  lemma StepDooms(s: State, schedule: seq<nat>, t: nat, m: Move)
    requires Inv(s, schedule) && Enabled(s, schedule, t, m) && GetsTable(m) && s.size >= 128
    ensures !SoundNow(Apply(s, schedule, t, m)) || Doomed(Apply(s, schedule, t, m))
  {
    var u := Apply(s, schedule, t, m);
    GrowsFrom(s, schedule, t, m);
    if m.answer.Extended? {
      assert Owned(u.threads[t]) == Some(u.table);
      forall v | 0 <= v < |u.threads| ensures SameBlock(u, v) {
        assert ThreadOk(s, schedule, t) && ThreadOk(s, schedule, v);
        if v != t { Both(s, schedule, t, v); }
      }
    } else {
      assert u.table in u.freed;
    }
  }

  /** What the mover had, and what it has then, if the table is doomed. */
  lemma StepDoomedOwn(s: State, schedule: seq<nat>, t: nat, m: Move)
    requires Inv(s, schedule) && Enabled(s, schedule, t, m) && Doomed(s) && SoundNow(Apply(s, schedule, t, m))
    ensures var u := Apply(s, schedule, t, m);
            && u.table == s.table && u.size >= s.size && |u.threads| == |s.threads| && t < |s.threads|
            && SameBlock(u, t)
            && (Owned(s.threads[t]) == Some(s.table) ==> Owned(u.threads[t]) == Some(s.table))
  {
    var u := Apply(s, schedule, t, m);
    assert ThreadOk(s, schedule, t) && SameBlock(s, t);
    StepGrows(s, schedule, t, m);
    if GetsTable(m) {
      GrowsFrom(s, schedule, t, m);
      assert m.answer.NewBlock? ==> s.table in u.freed;
    }
    if m == Free {
      assert Owned(s.threads[t]) == Some(s.table) ==> s.table in u.freed;
    }
  }

  lemma StepDoomed(s: State, schedule: seq<nat>, t: nat, m: Move)
    requires Inv(s, schedule) && Enabled(s, schedule, t, m) && Doomed(s) && SoundNow(Apply(s, schedule, t, m))
    ensures Doomed(Apply(s, schedule, t, m))
  {
    hide Inv, Enabled, Apply, SoundNow, Owned;
    var u := Apply(s, schedule, t, m);
    StepDoomedOwn(s, schedule, t, m);
    var w :| 0 <= w < |s.threads| && Owned(s.threads[w]) == Some(s.table);
    if w != t { StepSame(s, schedule, t, m, w); }
    assert Owned(u.threads[w]) == Some(u.table);
    forall v | 0 <= v < |u.threads| ensures SameBlock(u, v) {
      if v != t {
        StepSame(s, schedule, t, m, v);
        assert SameBlock(s, v);
      }
    }
  }

  lemma {:induction false} DoomedOn(states: seq<State>, moves: seq<(nat, Move)>, schedule: seq<nat>, i: nat, j: nat)
    requires Execution(states, moves, schedule) && i <= j < |states| && Doomed(states[i])
    requires forall k :: i <= k <= j ==> SoundNow(states[k])
    ensures Doomed(states[j])
  {
    hide Inv, Enabled, Apply, SoundNow, Doomed;
    if i < j {
      DoomedOn(states, moves, schedule, i, j - 1);
      ExecutionInv(states, moves, schedule, j - 1);
      assert SoundNow(states[j]) && states[j - 1 + 1] == states[j];
      StepDoomed(states[j - 1], schedule, moves[j - 1].0, moves[j - 1].1);
    }
  }

  /**
    In an execution at whose end every call has returned, the table in use is never freed and no block is freed twice
    if and only if every growth that got a table started from fewer than 128 entries.
   */
  lemma SoundIff(states: seq<State>, moves: seq<(nat, Move)>, schedule: seq<nat>)
    requires Execution(states, moves, schedule)
    requires forall t :: 0 <= t < |states[|moves|].threads| ==> states[|moves|].threads[t].Outside?
    ensures (forall i :: 0 <= i < |states| ==> SoundNow(states[i]))
       <==> (forall k :: 0 <= k < |moves| && GetsTable(moves[k].1) ==> states[k].size < 128)
  {
    hide Inv, Enabled, Apply, FreesAreSafe, SoundNow;
    if forall k :: 0 <= k < |moves| && GetsTable(moves[k].1) ==> states[k].size < 128 {
      forall i | 0 <= i < |states| ensures SoundNow(states[i]) {
        SafeUpTo(states, moves, schedule, i);
        SafeIsSound(states[i]);
      }
    } else {
      var k :| 0 <= k < |moves| && GetsTable(moves[k].1) && states[k].size >= 128;
      ExecutionInv(states, moves, schedule, k);
      StepDooms(states[k], schedule, moves[k].0, moves[k].1);
      if forall i :: 0 <= i < |states| ==> SoundNow(states[i]) {
        assert SoundNow(states[k + 1]);
        DoomedOn(states, moves, schedule, k + 1, |moves|);
      }
    }
  }

  lemma SafeIsSound(s: State)
    requires FreesAreSafe(s)
    ensures SoundNow(s)
  {
  }

  /** The table only ever gets larger. */
  lemma {:induction false} SizeNeverShrinks(states: seq<State>, moves: seq<(nat, Move)>, schedule: seq<nat>,
                                            i: nat, j: nat)
    requires Execution(states, moves, schedule) && i <= j < |states|
    ensures states[i].size <= states[j].size && states[i].next <= states[j].next
  {
    hide Inv, Enabled, Apply;
    if i < j {
      SizeNeverShrinks(states, moves, schedule, i, j - 1);
      ExecutionInv(states, moves, schedule, j - 1);
      StepGrows(states[j - 1], schedule, moves[j - 1].0, moves[j - 1].1);
    }
  }

  lemma StepGrows(s: State, schedule: seq<nat>, t: nat, m: Move)
    requires Inv(s, schedule) && Enabled(s, schedule, t, m) && Schedule(schedule)
    ensures s.size <= Apply(s, schedule, t, m).size && s.next <= Apply(s, schedule, t, m).next
  {
    assert ThreadOk(s, schedule, t);
    assert m == Install ==> schedule[s.next - 1] <= schedule[s.next];
  }

  // ---------------------------------------------------------------- who can move, and what moves bring about

  /** A thread can move unless it waits for the lock: no state is stuck, since whoever has the lock can go on. */
  lemma CanMoveIff(states: seq<State>, moves: seq<(nat, Move)>, schedule: seq<nat>, i: nat, t: nat)
    requires Execution(states, moves, schedule) && i < |states| && t < |states[i].threads|
    ensures var s, p := states[i], states[i].threads[t];
            (exists m :: Enabled(s, schedule, t, m))
            <==> s.lock.None? || s.lock == Some(t) || p.Allocating? || p.Discarding? || p.Freeing?
  {
    hide Execution, Schedule;
    ExecutionInv(states, moves, schedule, i);
    var s, p := states[i], states[i].threads[t];
    assert ThreadOk(s, schedule, t);
    if s.lock.None? || s.lock == Some(t) || p.Allocating? || p.Discarding? || p.Freeing? {
      var m := match p
        case Outside => Acquire
        case Holding => Leave
        case Waiting => Wake
        case Allocating(_, _) => Allocate(NoMemory)
        case Made(_, _, _) => Relock
        case Relocked(_, _, made) => if made.None? then GiveUp else if s.active then Install else FindDead
        case Discarding(_) => Free
        case Freeing(_, _) => Free
        case Freed(_) => Recheck
        case Rechecked(_) => Again;
      assert Enabled(s, schedule, t, m);
    }
  }

  /** Of ipc_entry_grow_table exactly one branch is open: to wait, to report that there is no space, or to go on. */
  lemma OneWayIn(states: seq<State>, moves: seq<(nat, Move)>, schedule: seq<nat>, i: nat, t: nat)
    requires Execution(states, moves, schedule) && i < |states| && t < |states[i].threads|
    requires states[i].lock == Some(t) && states[i].active && states[i].threads[t].Holding?
    ensures exists m ::
              && Enabled(states[i], schedule, t, m)
              && forall n :: n in {GrowBusy, GrowFull, GrowBegin} ==> (Enabled(states[i], schedule, t, n) <==> n == m)
  {
    hide Execution, Schedule, Inv;
    ExecutionInv(states, moves, schedule, i);
    var s := states[i];
    assert Shared(s, schedule) by { SharedPart(s, schedule); }
    var m := if s.growing then GrowBusy else if schedule[s.next - 1] == schedule[s.next] then GrowFull else GrowBegin;
    assert Enabled(s, schedule, t, m);
  }

  /** Where the lock has been retaken just one move is open: to give up, to free the new table, or to install it. */
  lemma OneWayOn(states: seq<State>, moves: seq<(nat, Move)>, schedule: seq<nat>, i: nat, t: nat)
    requires Execution(states, moves, schedule) && i < |states| && t < |states[i].threads|
    requires states[i].threads[t].Relocked?
    ensures exists m :: Enabled(states[i], schedule, t, m) && forall n :: Enabled(states[i], schedule, t, n) ==> n == m
  {
    hide Execution, Schedule, Inv;
    ExecutionInv(states, moves, schedule, i);
    var s, p := states[i], states[i].threads[t];
    assert ThreadOk(s, schedule, t) by { ThreadPart(s, schedule, t); }
    var m := if p.made.None? then GiveUp else if s.active then Install else FindDead;
    assert Enabled(s, schedule, t, m);
  }

  lemma SharedPart(s: State, schedule: seq<nat>)
    requires Inv(s, schedule)
    ensures Shared(s, schedule)
  {
  }

  lemma ThreadPart(s: State, schedule: seq<nat>, t: nat)
    requires Inv(s, schedule) && t < |s.threads|
    ensures ThreadOk(s, schedule, t)
  {
  }

  /** A call that has run into a growth ends with the lock in hand, or because there is no space or no memory. */
  lemma CallEnds(s: State, schedule: seq<nat>, t: nat, m: Move)
    requires Enabled(s, schedule, t, m) && !s.threads[t].Outside?
    ensures Apply(s, schedule, t, m).threads[t].Outside? ==>
              || (m == Leave && Has(s, t))
              || (m == GrowFull && Has(s, t) && schedule[s.next - 1] == schedule[s.next])
              || (m == GiveUp && s.threads[t].made.None?)
  {
  }

  /** Only the installing of a table changes table and size, and it takes the next size, which is larger. */
  lemma InstallsNext(states: seq<State>, moves: seq<(nat, Move)>, schedule: seq<nat>, k: nat)
    requires Execution(states, moves, schedule) && k < |moves|
    ensures var s, u := states[k], states[k + 1];
            if moves[k].1 == Install then
              && s.active && s.size < u.size == schedule[s.next] && u.next == s.next + 1
              && Owned(s.threads[moves[k].0]) == Some(u.table)
              && Owned(u.threads[moves[k].0]) == Some(s.table)
            else u.table == s.table && u.size == s.size && u.next == s.next
    ensures states[k + 1].active <==> states[k].active && moves[k].1 != Kill
  {
    ExecutionInv(states, moves, schedule, k);
    var s, t := states[k], moves[k].0;
    assert ThreadOk(s, schedule, t);
    assert Enabled(s, schedule, t, moves[k].1) && states[k + 1] == Apply(s, schedule, t, moves[k].1);
    if moves[k].1 == Install {
      assert schedule[s.next - 1] <= schedule[s.next];
    }
  }

  /** A space that is dead stays so, and keeps its table. */
  lemma {:induction false} DeadStays(states: seq<State>, moves: seq<(nat, Move)>, schedule: seq<nat>, i: nat, j: nat)
    requires Execution(states, moves, schedule) && i <= j < |states| && !states[i].active
    ensures !states[j].active && states[j].table == states[i].table && states[j].size == states[i].size
  {
    hide Execution, Owned;
    assert |states| == |moves| + 1 by { Lengths(states, moves, schedule); }
    if i < j {
      DeadStays(states, moves, schedule, i, j - 1);
      InstallsNext(states, moves, schedule, j - 1);
    }
  }

  lemma Lengths(states: seq<State>, moves: seq<(nat, Move)>, schedule: seq<nat>)
    requires Execution(states, moves, schedule)
    ensures |states| == |moves| + 1
  {
  }

  /** Between two states the place in the schedule stays the same exactly if nobody installs a table. */
  lemma {:induction false} NextSame(states: seq<State>, moves: seq<(nat, Move)>, schedule: seq<nat>, i: nat, j: nat)
    requires Execution(states, moves, schedule) && i <= j < |states|
    ensures |states| == |moves| + 1 && states[i].next <= states[j].next
    ensures states[j].next == states[i].next <==> forall k :: i <= k < j ==> moves[k].1 != Install
  {
    hide Execution, Owned;
    Lengths(states, moves, schedule);
    if i < j {
      NextSame(states, moves, schedule, i, j - 1);
      InstallsNext(states, moves, schedule, j - 1);
    }
  }

  /** From the installing on, a thread remembers its place in the schedule until it has the lock again. */
  lemma {:induction false} PlaceKept(states: seq<State>, moves: seq<(nat, Move)>, schedule: seq<nat>, i: nat, j: nat,
                                     t: nat)
    requires Execution(states, moves, schedule) && i < j < |states| && moves[i] == (t, Install)
    requires forall k :: i < k < j && moves[k].0 == t ==> moves[k].1 == Free
    ensures t < |states[j].threads|
    ensures var p, nits := states[j].threads[t], states[i + 1].next;
            (p.Freeing? && p.nits == nits) || p == Freed(Some(nits))
  {
    hide Enabled, Apply, Inv, Schedule;
    assert Enabled(states[i], schedule, t, Install) && states[i + 1] == Apply(states[i], schedule, t, Install);
    Remembers(states[i], schedule, t, t, Install, states[i + 1].next);
    if i + 1 < j {
      PlaceKept(states, moves, schedule, i, j - 1, t);
      var s, v, m := states[j - 1], moves[j - 1].0, moves[j - 1].1;
      assert Enabled(s, schedule, v, m) && states[j - 1 + 1] == Apply(s, schedule, v, m);
      Remembers(s, schedule, v, t, m, states[i + 1].next);
    }
  }

  /** The part of a move of thread v in that. */
  lemma Remembers(s: State, schedule: seq<nat>, v: nat, t: nat, m: Move, nits: nat)
    requires Enabled(s, schedule, v, m)
    requires v == t ==> m == Free || (m == Install && nits == Apply(s, schedule, v, m).next)
    requires m == Free || v != t ==>
               && t < |s.threads|
               && (s.threads[t] == Freed(Some(nits)) || (s.threads[t].Freeing? && s.threads[t].nits == nits))
    ensures t < |Apply(s, schedule, v, m).threads|
    ensures var p := Apply(s, schedule, v, m).threads[t];
            (p.Freeing? && p.nits == nits) || p == Freed(Some(nits))
  {
  }

  /** A thread that has grown the table is for another round exactly if the space lives and nobody else has grown it. */
  lemma GoesOnIff(states: seq<State>, moves: seq<(nat, Move)>, schedule: seq<nat>, i: nat, j: nat, t: nat)
    requires Execution(states, moves, schedule) && i < j < |moves|
    requires moves[i] == (t, Install) && moves[j] == (t, Recheck)
    requires forall k :: i < k < j && moves[k].0 == t ==> moves[k].1 == Free
    ensures t < |states[j + 1].threads|
    ensures states[j + 1].threads[t].Rechecked?
       <==> states[j].active && forall k :: i < k < j ==> moves[k].1 != Install
  {
    PlaceKept(states, moves, schedule, i, j, t);
    NextSame(states, moves, schedule, i + 1, j);
    assert Enabled(states[j], schedule, t, Recheck) && states[j + 1] == Apply(states[j], schedule, t, Recheck);
  }

  /** Block x is in use, freed, or some thread's to install or to free. */
  ghost predicate Accounted(s: State, x: nat) {
    x == s.table || x in s.freed || exists t :: 0 <= t < |s.threads| && Owned(s.threads[t]) == Some(x)
  }

  /** What a move does with the block in the thread's hands, with the table, and with a new block. */
  lemma StepHands(s: State, schedule: seq<nat>, t: nat, m: Move)
    requires Inv(s, schedule) && Enabled(s, schedule, t, m)
    ensures var u := Apply(s, schedule, t, m);
            var had, has := Owned(s.threads[t]), Owned(u.threads[t]);
            && (had.Some? ==> has == had || u.table == had.value || had.value in u.freed)
            && (u.table == s.table || has == Some(s.table))
            && (u.unused > s.unused ==> has == Some(s.unused))
            && s.freed <= u.freed
  {
    hide Schedule, Inv, OwnedKnown;
    ThreadPart(s, schedule, t);
  }

  lemma StepAccounted(s: State, schedule: seq<nat>, t: nat, m: Move, x: nat)
    requires Inv(s, schedule) && Enabled(s, schedule, t, m) && (Accounted(s, x) || x == s.unused)
    requires x < Apply(s, schedule, t, m).unused
    ensures Accounted(Apply(s, schedule, t, m), x)
  {
    hide Inv, Enabled, Apply, Owned;
    var u := Apply(s, schedule, t, m);
    MoverExists(s, schedule, t, m);
    StepHands(s, schedule, t, m);
    SameThreads(s, schedule, t, m);
    if v :| 0 <= v < |s.threads| && Owned(s.threads[v]) == Some(x) {
      if v != t { StepSame(s, schedule, t, m, v); }
    }
  }

  /** No block is lost: the first table and every block allocated since is in use, freed, or in some thread's hands. */
  lemma {:induction false} NothingLeaks(states: seq<State>, moves: seq<(nat, Move)>, schedule: seq<nat>, i: nat, x: nat)
    requires Execution(states, moves, schedule) && i < |states|
    requires x == states[0].table || states[0].unused <= x < states[i].unused
    ensures Accounted(states[i], x)
  {
    hide Inv, Enabled, Apply, Accounted, Schedule;
    if i == 0 {
      assert Accounted(states[0], states[0].table) by { InUse(states[0]); }
    } else {
      var s, t, m := states[i - 1], moves[i - 1].0, moves[i - 1].1;
      ExecutionInv(states, moves, schedule, i - 1);
      assert Enabled(s, schedule, t, m) && states[i - 1 + 1] == Apply(s, schedule, t, m);
      OneMore(s, schedule, t, m);
      KnownBlocks(states, moves, schedule, i - 1);
      if x != s.unused { NothingLeaks(states, moves, schedule, i - 1, x); }
      KnownBlocks(states, moves, schedule, i);
      StepAccounted(s, schedule, t, m, x);
    }
  }

  lemma SameThreads(s: State, schedule: seq<nat>, t: nat, m: Move)
    requires Enabled(s, schedule, t, m)
    ensures |Apply(s, schedule, t, m).threads| == |s.threads|
  {
  }

  lemma InUse(s: State)
    ensures Accounted(s, s.table)
  {
  }

  lemma OneMore(s: State, schedule: seq<nat>, t: nat, m: Move)
    requires Enabled(s, schedule, t, m)
    ensures s.unused <= Apply(s, schedule, t, m).unused <= s.unused + 1
  {
  }

  lemma {:induction false} KnownBlocks(states: seq<State>, moves: seq<(nat, Move)>, schedule: seq<nat>, i: nat)
    requires Execution(states, moves, schedule) && i < |states|
    ensures states[0].table < states[0].unused <= states[i].unused
  {
    hide Inv, Enabled, Apply;
    if i > 0 {
      KnownBlocks(states, moves, schedule, i - 1);
      var s, t, m := states[i - 1], moves[i - 1].0, moves[i - 1].1;
      assert Enabled(s, schedule, t, m) && states[i - 1 + 1] == Apply(s, schedule, t, m);
      OneMore(s, schedule, t, m);
    }
  }

  /** Once every call has returned, each block but the table in use has been freed, and growths from below 128 entries
      have not freed any twice. */
  lemma AllReturned(states: seq<State>, moves: seq<(nat, Move)>, schedule: seq<nat>, x: nat)
    requires Execution(states, moves, schedule)
    requires forall t :: 0 <= t < |states[|moves|].threads| ==> states[|moves|].threads[t].Outside?
    requires forall k :: 0 <= k < |moves| && GetsTable(moves[k].1) ==> states[k].size < 128
    requires x == states[0].table || states[0].unused <= x < states[|moves|].unused
    ensures !states[|moves|].growing && states[|moves|].lock.None?
    ensures states[|moves|].freed[x] == if x == states[|moves|].table then 0 else 1
  {
    hide Enabled, Apply, Schedule;
    var s := states[|moves|];
    NothingLeaks(states, moves, schedule, |moves|, x);
    SafeUpTo(states, moves, schedule, |moves|);
    ExecutionInv(states, moves, schedule, |moves|);
    assert s.lock.Some? ==> ThreadOk(s, schedule, s.lock.value);
  }

  // ---------------------------------------------------------------- where realloc goes wrong

  /** One more move at the end of an execution. */
  lemma Extend(states: seq<State>, moves: seq<(nat, Move)>, schedule: seq<nat>, t: nat, m: Move)
    requires Execution(states, moves, schedule) && Enabled(states[|moves|], schedule, t, m)
    ensures Execution(states + [Apply(states[|moves|], schedule, t, m)], moves + [(t, m)], schedule)
  {
    hide Enabled, Apply, Init;
  }

  /** A state that some execution of two threads comes to, with the sizes of the program. */
  ghost predicate Reachable(s: State) {
    exists states, moves :: Execution(states, moves, GROWTH_SCHEDULE) && states[|moves|] == s
  }

  lemma Reach(s: State, t: nat, m: Move, u: State)
    requires Reachable(s) && Enabled(s, GROWTH_SCHEDULE, t, m) && u == Apply(s, GROWTH_SCHEDULE, t, m)
    ensures Reachable(u)
  {
    var states, moves :| Execution(states, moves, GROWTH_SCHEDULE) && states[|moves|] == s;
    Extend(states, moves, GROWTH_SCHEDULE, t, m);
  }

  lemma NewReachable()
    ensures Reachable(State(None, true, false, 0, 64, 1, [Outside, Outside], multiset{}, 1))
  {
    var s := State(None, true, false, 0, 64, 1, [Outside, Outside], multiset{}, 1);
    var moves: seq<(nat, Move)> := [];
    assert Execution([s], moves, GROWTH_SCHEDULE) && [s][|moves|] == s;
  }

  /** The first of two threads is about to allocate a table, or has just freed the old one. */
  function Begun(table: nat, its: nat, freed: multiset<nat>, unused: nat): State
    requires 0 < its < |GROWTH_SCHEDULE|
  {
    State(None, true, true, table, GROWTH_SCHEDULE[its - 1], its, [Allocating(table, its), Outside], freed, unused)
  }

  function Ended(table: nat, its: nat, freed: multiset<nat>, unused: nat): State
    requires 0 < its < |GROWTH_SCHEDULE|
  {
    State(None, true, false, table, GROWTH_SCHEDULE[its - 1], its, [Freed(Some(its)), Outside], freed, unused)
  }

  /** From the lock on, once the block is there. */
  lemma Installs(s: State, made: nat)
    requires Reachable(s) && 0 < s.next < |GROWTH_SCHEDULE| - 1 && s.size == GROWTH_SCHEDULE[s.next - 1]
    requires s.lock.None? && s.active && s.growing && s.threads == [Made(s.table, s.next, Some(made)), Outside]
    ensures Reachable(Ended(made, s.next + 1, s.freed + multiset{s.table}, s.unused))
  {
    hide Reachable;
    var s1 := s.(lock := Some(0), growing := false, threads := [Relocked(s.table, s.next, Some(made)), Outside]);
    Reach(s, 0, Relock, s1);
    var s2 := s.(growing := false, threads := [Freeing(s.table, s.next + 1), Outside],
                 table := made, size := GROWTH_SCHEDULE[s.next], next := s.next + 1);
    Reach(s1, 0, Install, s2);
    Reach(s2, 0, Free, Ended(made, s.next + 1, s.freed + multiset{s.table}, s.unused));
  }

  /** One thread has grown the table from 64 to 128 entries and goes on to the next size. */
  lemma GrownOnce()
    ensures Reachable(Begun(1, 2, multiset{0}, 2))
  {
    hide Reachable, Reallocs;
    var s0 := State(None, true, false, 0, 64, 1, [Outside, Outside], multiset{}, 1);
    NewReachable();
    var s1 := s0.(lock := Some(0), threads := [Holding, Outside]);
    Reach(s0, 0, Acquire, s1);
    Reach(s1, 0, GrowBegin, Begun(0, 1, multiset{}, 1));
    Allocates(0, 1, multiset{}, 1, NewBlock);
    var none: multiset<nat> := multiset{};
    assert none + none == none;
    Installs(Begun(0, 1, multiset{}, 1).(unused := 2, threads := [Made(0, 1, Some(1)), Outside]), 1);
    assert multiset{} + multiset{0} == multiset{0};
    GoesOn(1, 2, multiset{0}, 2);
  }

  lemma Allocates(table: nat, its: nat, freed: multiset<nat>, unused: nat, answer: Answer)
    requires 0 < its < |GROWTH_SCHEDULE| && Reachable(Begun(table, its, freed, unused))
    requires answer != NoMemory && (answer.Extended? ==> Reallocable(GROWTH_SCHEDULE[its - 1]))
    ensures var s := Begun(table, its, freed, unused);
            var gone := if Reallocable(GROWTH_SCHEDULE[its - 1]) then multiset{table} else multiset{};
            Reachable(if answer.Extended? then s.(threads := [Made(table, its, Some(table)), Outside])
                      else s.(unused := unused + 1, threads := [Made(table, its, Some(unused)), Outside],
                              freed := freed + gone))
  {
    hide Reachable, Reallocable;
    var s := Begun(table, its, freed, unused);
    var u := Allocated(s, GROWTH_SCHEDULE, 0, answer);
    assert freed + multiset{} == freed;
    assert u.threads == [u.threads[0], Outside];
    Reach(s, 0, Allocate(answer), u);
  }

  lemma GoesOn(table: nat, its: nat, freed: multiset<nat>, unused: nat)
    requires 0 < its < |GROWTH_SCHEDULE| - 1 && Reachable(Ended(table, its, freed, unused))
    ensures Reachable(Begun(table, its, freed, unused))
  {
    hide Reachable;
    var s := Ended(table, its, freed, unused);
    var s1 := s.(lock := Some(0), threads := [Rechecked(its), Outside]);
    Reach(s, 0, Recheck, s1);
    var s2 := s.(lock := Some(0), threads := [Holding, Outside]);
    Reach(s1, 0, Again, s2);
    Reach(s2, 0, GrowBegin, Begun(table, its, freed, unused));
  }

  /**
    The next growth.  If realloc moves the block, the other thread can hold the lock while the table of the space
    has been freed, and in the end the old block is freed once more.
   */
  lemma ReallocMoves()
    ensures exists s :: Reachable(s) && s.active && s.table in s.freed && s.lock == Some(1)
    ensures exists s :: Reachable(s) && s.active && s.freed[1] == 2
  {
    hide Reachable;
    GrownOnce();
    Allocates(1, 2, multiset{0}, 2, NewBlock);
    var s1 := Begun(1, 2, multiset{0, 1}, 3).(threads := [Made(1, 2, Some(2)), Outside]);
    assert multiset{0} + multiset{1} == multiset{0, 1};
    assert Reachable(s1);
    var s2 := s1.(lock := Some(1), threads := [Made(1, 2, Some(2)), Holding]);
    Reach(s1, 1, Acquire, s2);
    assert s2.table in s2.freed;
    Installs(s1, 2);
    assert Ended(2, 3, multiset{0, 1} + multiset{1}, 3).freed[1] == 2;
  }

  /** If realloc extends the block in place, the thread that has grown the table then frees the table in use. */
  lemma ReallocExtends()
    ensures exists s :: Reachable(s) && s.active && s.lock.None? && s.size == 256 && s.table in s.freed
  {
    hide Reachable;
    GrownOnce();
    Allocates(1, 2, multiset{0}, 2, Extended);
    Installs(Begun(1, 2, multiset{0}, 2).(threads := [Made(1, 2, Some(1)), Outside]), 1);
    var s := Ended(1, 3, multiset{0} + multiset{1}, 2);
    assert Reachable(s) && s.table in s.freed;
  }
}
