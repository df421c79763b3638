/**
  Where entry tables live (Kernel/mxwl/compat/ipc/ipc_table.h, as ipc_entry_grow_table uses it).

  A table that fills a page is grown with realloc, which gives the old block back, or extends it in place.
  ipc_entry_grow_table takes the old table to remain in existence, and frees it itself in the end.
 */
module IpcTableMemory {

  /** sizeof(struct ipc_entry) with 8-byte pointers. */
  const ENTRY_SIZE: nat := 32
  const PAGE_SIZE: nat := 4096

  /** The sizes of entry tables in ipc_init.c; the last one is repeated. */
  const GROWTH_SCHEDULE: seq<nat> :=
    [64, 128, 256, 512, 1024, 2048, 4096, 8192, 16384, 32768, 65536, 65536]

  /** it_entries_reallocable. */
  predicate Reallocable(entries: nat) {
    entries * ENTRY_SIZE >= PAGE_SIZE
  }

  /** The block of the table in use, how often each block has been freed, and the first unused number for a block. */
  datatype Memory = Memory(inUse: nat, freed: multiset<nat>, unused: nat)

  ghost predicate Known(m: Memory) {
    m.inUse < m.unused && forall b :: b in m.freed ==> b < m.unused
  }

  /** The table in use has not been freed, and no block has been freed twice. */
  ghost predicate Sound(m: Memory) {
    m.inUse !in m.freed && forall b :: m.freed[b] <= 1
  }

  /** A round of ipc_entry_grow_table that starts with this many entries; realloc may extend the block in place. */
  function Grown(m: Memory, entries: nat, inPlace: bool): Memory {
    if !Reallocable(entries) then Memory(m.unused, m.freed + multiset{m.inUse}, m.unused + 1)
    else if inPlace then m.(freed := m.freed + multiset{m.inUse})
    else Memory(m.unused, m.freed + multiset{m.inUse, m.inUse}, m.unused + 1)
  }

  /** A round leaves the memory sound exactly if the table was too small for realloc; nothing repairs it later. */
  lemma GrownSound(m: Memory, entries: nat, inPlace: bool)
    requires Known(m)
    ensures Known(Grown(m, entries, inPlace))
    ensures Sound(Grown(m, entries, inPlace)) <==> Sound(m) && !Reallocable(entries)
    ensures var g := Grown(m, entries, inPlace);
            && g.inUse == (if Reallocable(entries) && inPlace then m.inUse else m.unused)
            && g.unused == (if g.inUse == m.unused then m.unused + 1 else m.unused)
            && forall b :: b != m.inUse ==> g.freed[b] == m.freed[b]
  {
    var g := Grown(m, entries, inPlace);
    assert m.inUse in g.freed;
    assert forall b :: g.freed[b] >= m.freed[b];
    assert g.freed[m.inUse] >= m.freed[m.inUse] + 1;
  }
}
