# Verified models of a Mach port-name space and a PostScript interpreter

This project models, in Dafny, the branchy stateful code of two systems that live in one repository, and proves what
that code is for.  `dafny verify dfyconfig.toml` checks all of it.

**The port-name space of the Mach IPC kernel** (`Ipc*.dfy`).  A port name is an index and a generation.  Names live in
a table with a free list inside it, or overflow into an ordered tree; a bit in each slot says that the tree also holds
names with that index.  A second structure leads from objects back to names: a linear-probing hash inside the same
table for table entries, and a chained global hash for tree entries.  `IpcTable` holds the joint invariant as values
and lemmas, `IpcSpace` the operations as a class that is changed in place, `IpcLocalHash` and `IpcGlobalHash` the two
hashes, and `IpcRuns` whole runs against a finite map.  `IpcGrowProtocol` is a state machine of any number of threads
around the two windows in which growing a table drops the lock, and `IpcTableMemory` the blocks that tables live in.

**The virtual memory** (`VmLog`, `VmStore`): save and restore as a multi-level undo log, in which only the first write
to a slot at a level is logged.

**The interpreter** (`ExecMachine`, `ExecInterpreter`): the flat execution stack with its loop marks against a
structured semantics that has no such stack.  Operands and dictionaries are threaded through both.

**Dictionaries and name binding** (`Probing`, `PsDict`, `PsNameCache`, `PsDictStack`, `PsDictRuns`): open-addressing
dictionaries as finite maps, and the timestamped name cache against a plain search of the dictionary stack.
`PsSince` and `PsRestore` are about the cache when restore puts dictionaries and entries back under it, and
`PsSession` runs whole sessions with save and restore against an interpreter that has no cache.

**The scanner** (`ScannerTables`, `Scanner`, `ScannerNumbers`): the test whether a line is complete against the
tokenizer that then reads it, and the tables of both against the characters they stand for.

**Interned names** (`NameTable`), **paths** with copy-on-write under gsave and grestore (`PathPool`, `PathBoxes`,
`PathStack`, `PathRuns`), **the scan-line reducer** (`ReducerEdges`, `Reducer`), **the bitmap heap** (`BitmapHeap`) and
**word-parallel drawing** (`FrameBuffer`).

Objects that the C code updates in place are classes whose fields are assigned; their methods are proved against
functions and predicates on values, and the lemmas are about those.  A store is a value (`Store`, `State`) where that
keeps the proofs of several structures together.

## Where the code does not do what it is for

Each of these is a consequence of the code as it stands.  For each there is a lemma or method at a concrete input, and a
statement for all inputs that says when the code does meet its purpose: exactly when, but for the edges that change
places, where that is proved for two edges.

- *Growing a table of a page or more.*  From 128 entries on `ipc_entry_grow_table` takes its new table from realloc,
  which in user mode frees the old block, or extends it in place, while the lock is dropped and the space still names
  it; at the end the old block is freed once more.  `IpcGrowProtocol.ReallocMoves` and `ReallocExtends` reach a table
  that is in use after it was freed, and a block that is freed twice.  `IpcGrowProtocol.SoundIff`: in an
  execution that ends when every call has returned, no table in use is freed and no block freed twice if and only if
  every growth that got a table started from fewer than 128 entries.  `FreesAreSafeIff` says the same of all
  executions, if a free that is about to happen counts too.
  For one thread `IpcSpace.Space.GrowTable` and `SoundUpTo128` say the same.
- *Names below the first table size.*  `ipc_space_create` zeroes the table and links no free list, so the slots below
  the first size are never on it; `ipc_entry_alloc_name` for such an index searches the free list for ever
  (`IpcTable.NewTableSearch`).  `IpcTable.SearchEndsIff` says that the search ends if and only if the index is not
  below the first size, and `IpcSpace.Space.AllocName` reports that it does not return exactly for these names.
- *Loops that end at the greatest integer* do not end, because the number after the last wraps around
  (`ExecMachine.ForNeverEnds`).  `ExecMachine.ForIsEach` says that a loop runs its procedure on just the numbers it
  should if the one after the last is an integer of the machine, and `ForPushesIff` that an empty procedure does so
  only then.
- *The timestamp wraps* after 65534 begins and ends.  `ResetCache` then forgets places but not dictionaries, and the
  next load of such a name fails its assertion (`PsDictRuns.WrappedLoad`).  `PsDictStack.Dictionaries.TryToLoad` says
  exactly when: if the search is not barred and the entry has forgotten its place in the topmost dictionary with the
  name.
- *dput of a new name into a dictionary on the stack* may leave load with the value from below
  (`PsDictRuns.ShadowedPut`).  `PsDictStack.Dictionaries.PutInDict` says exactly when: if the cache answers for the
  name without a search, and no dictionary above the new one holds it.
- *Unreadable dictionaries.*  A load that the cache does not answer may be refused although a plain search would find
  the name elsewhere or nowhere (`PsDictRuns.BarredLoad`).  `TryToLoad` says exactly when: if an unreadable dictionary
  has a bit in common with the name's vector, and none above it holds the name.  A name that has not been put or found
  yet has an empty vector, which stands for all bits, so every unreadable dictionary on the stack refuses it.
- *Deeply nested strings.*  The state of `LineComplete` is an unsigned character, so at 232 open parentheses it wraps to
  the state of an empty source and the line may count as complete (`Scanner.DeepStringMissed`).
  `Scanner.DeepComplete` says what the test answers on every line, and `Scanner.DeepPredicts` exactly when it is right
  about a line with such a string; `Scanner.LinePredicts` says that it is right about all others.
- *Lines that end inside a string.*  The loop for strings asks `feof` of the stream itself, and the stream of the line
  buffer is null (`Scanner.OpenStringRead`).  `Scanner.LineOutcome` says exactly when this is reached: if the last
  lexeme is a string that never closes and something follows its opening parenthesis.
- *8B and long names* are complete for `LineComplete` and errors for the tokenizer (`ScannerNumbers.EightMissed`,
  `ScannerNumbers.LettersMissed`).  `Scanner.LinePredicts` has the condition on the lexemes, and
  `ScannerNumbers.NumbersAndNames` and `LegalTexts` what it means in characters: an octal number with an 8 or a 9, or
  a name of more than 31 characters.
- *Unfinished tokens are used.*  Whenever `StreamToken` sets error it sets found as well, and `exec.c` looks at found
  first: a last string or procedure that is not closed is used as it is, and the syntaxerror for streams is never
  raised (`Scanner.OpenStringUsed`).  `Scanner.LineReader.ReadLine` says so for every line, and `Scanner.LineOutcome`
  exactly which lines end like that.
- *Octal escapes of one or two digits* push back the character after them, but if it is n, t, b, r or f what is pushed
  back is what it stands for (`Scanner.EscapeChangesLine`, for all five letters).  `Scanner.LineReader.ScanEscape` says exactly what becomes
  of the line.
- *Copies of paths.*  When a copy becomes a path of its own it loses its secret flag, which `AppendPath` and
  `TranslatePath` keep (`PathRuns.SecretLost`).  `PathStack.Graphics.AddToPath` says that a secret path stays secret if
  and only if it was no copy.
- *Bounding boxes* are not narrowed when a moveto is replaced by the next one (`PathBoxes.ReplacedMoveTo`).
  `PathBoxes.TightIff` says exactly when the box is the smallest around the path: if no point that was replaced lies
  outside it.
- *Edges that change places.*  The reducer puts the edges of a band in the order of their places on its top line, and
  leaves those that meet there in the order in which they were added.  If they are in another order further down, a
  trapezoid has its left side to the right of its right side and covers nothing (`Reducer.BowTie`, and
  `Reducer.Triangle` for a triangle drawn the wrong way round).  `Reducer.ReduceBand` says that the trapezoids cover
  exactly the inside on every line if the order holds on the bottom line too, and `Reducer.PairIff` that with two edges
  they do so only then.

The compatibility header switches generations off, so no two names share an index and the collision code never runs
(`IpcTable.OneGeneration`); the model takes any number of generations.

## Model

| member | source | states |
|---|---|---|
| `IpcLocalHash.EmptyCellExists` | Kernel/mxwl/ipc/ipc_hash.c:303-335 | In every valid local hash table some cell is empty, because index 0 is never hashed; so every probe loop ends. |
| `IpcLocalHash.Lookup` | Kernel/mxwl/ipc/ipc_hash.c:303-335 | The probe finds an entry that holds the object, or reports none exactly when no hashed entry holds it. |
| `IpcLocalHash.Insert` | Kernel/mxwl/ipc/ipc_hash.c:345-373 | One index is added to the set of hashed indices, and every entry stays reachable from its home. |
| `IpcLocalHash.InsertOk` | Kernel/mxwl/ipc/ipc_hash.c:345-373 | Filling the first empty cell after the home keeps all entries distinct and reachable. |
| `IpcLocalHash.NextDisplaced` | Kernel/mxwl/ipc/ipc_hash.c:425-449 | The scan behind the hole stops at the end of the clump or at the first entry whose home lies outside the stretch after the hole, across wraparound. |
| `IpcLocalHash.MoveHole` | Kernel/mxwl/ipc/ipc_hash.c:424-452 | Moving a displaced entry into the hole keeps all entries reachable when the cell it left counts as filled, and loses none. |
| `IpcLocalHash.CloseHole` | Kernel/mxwl/ipc/ipc_hash.c:424-452 | At the end of the clump the hole can be emptied: nothing is reached through it any more. |
| `IpcLocalHash.Delete` | Kernel/mxwl/ipc/ipc_hash.c:383-453 | Exactly the given index leaves the table; all others stay reachable with no gap, across wraparound. |
| `IpcNames.LeastExists` | Kernel/mxwl/ipc/ipc_entry.c:675-679 | A set of names that is not empty has a least one, from which an ascending traversal starts; the index is the major key. |
| `IpcNames.TreeBounds` | Kernel/mxwl/ipc/ipc_entry.c:58-62 | The neighbours of a name in the tree tell whether the tree holds its index. |
| `IpcNames.SplitFacts` | Kernel/mxwl/ipc/ipc_entry.c:428-438 | Splitting above and below an index isolates exactly the names with that index, and joining gives the tree back. |
| `IpcNames.GrowSplits` | Kernel/mxwl/ipc/ipc_entry.c:661-673 | The three splits of growth cut the tree into the names above, between, inside and below the table sizes, and joining gives it back. |
| `IpcGlobalHash.GlobalHash.Lookup` | Kernel/mxwl/ipc/ipc_hash.c:151-194 | Finds a binding of the space and object if there is one and moves it to the front of its bucket, the others keeping their order; no binding changes. |
| `IpcGlobalHash.GlobalHash.Insert` | Kernel/mxwl/ipc/ipc_hash.c:204-231 | Exactly one binding is added, at the front of its bucket. |
| `IpcGlobalHash.GlobalHash.Delete` | Kernel/mxwl/ipc/ipc_hash.c:241-276 | Exactly the binding of the tree entry is removed, and the others keep their order. |
| `IpcGlobalHash.FrontFacts` | Kernel/mxwl/ipc/ipc_hash.c:178-187 | Moving a node to the front keeps the elements of the bucket and introduces no duplicate. |
| `IpcTable.LookupMeaning` | Kernel/mxwl/ipc/ipc_entry.c:74-102 | The search of table, collision bit and tree gives the binding of the abstract map from names to entries, for every name. |
| `IpcTable.TakeSlot` | Kernel/mxwl/ipc/ipc_entry.c:126-159 | Taking any slot off the free list keeps the joint invariant and adds exactly one binding. |
| `IpcTable.FreeSlot` | Kernel/mxwl/ipc/ipc_entry.c:469-473 | A freed slot joins the free list, its binding goes, and the free list is again exactly the free slots. |
| `IpcTable.MoveTwin` | Kernel/mxwl/ipc/ipc_entry.c:418-468 | Moving a tree entry into the freed slot of the same index keeps every binding; the collision bit stays set just when another twin is left. |
| `IpcTable.RemoveFromTree` | Kernel/mxwl/ipc/ipc_entry.c:474-496 | A tree entry goes, with its binding and no other; the collision bit of its index is cleared just when it was the last. |
| `IpcTable.AddToTree` | Kernel/mxwl/ipc/ipc_entry.c:296-343 | A tree entry and its binding come, and the collision bit of its slot is set if there is such a slot. |
| `IpcTable.SearchEndsIff` | Kernel/mxwl/ipc/ipc_entry.c:272-276 | The search of the free list for a free slot ends if and only if the slot has been linked into it, that is, if its index is not below the first table size. |
| `IpcTable.NewTableSearch` | Kernel/mxwl/ipc/ipc_entry.c:272-276 | In a new space the search for slot 1 never ends. |
| `IpcTable.StartGrow` | Kernel/mxwl/ipc/ipc_entry.c:599-618 | Copying a table into a longer, zeroed one starts growth in a state in which only the new indices are unsettled. |
| `IpcTable.PassFlag` | Kernel/mxwl/ipc/ipc_entry.c:696-707 | A tree entry whose slot is already live becomes a collision, and no binding changes. |
| `IpcTable.PassMove` | Kernel/mxwl/ipc/ipc_entry.c:709-725 | A tree entry moves to the empty new slot of its index, and no binding changes. |
| `IpcTable.FinishLink` | Kernel/mxwl/ipc/ipc_entry.c:757-774 | Linking the new free slots in front of the old list restores the joint invariant. |
| `IpcTable.OneGeneration` | Kernel/mxwl/compat/ipc/ipc_entry.h:84-90 | With one generation, as the compatibility header defines it, no collision bit is ever set and no slot has a twin. |
| `IpcSpace.Space.constructor` | Kernel/mxwl/ipc/ipc_init.c:240-279 | A new space binds no name, satisfies the joint invariant, and has an empty free list. |
| `IpcSpace.Space.TreeCollision` | Kernel/mxwl/ipc/ipc_entry.c:43-65 | True exactly when the tree holds another name with the same index. |
| `IpcSpace.Space.Lookup` | Kernel/mxwl/ipc/ipc_entry.c:74-102 | The answer is the live binding of the abstract map, and nothing for every other name. |
| `IpcSpace.Space.HashLookup` | Kernel/mxwl/ipc/ipc_hash.c:49-62 | Succeeds exactly when some send entry holds the object, and returns a name that does. |
| `IpcSpace.Space.Get` | Kernel/mxwl/ipc/ipc_entry.c:116-163 | The head of the free list is taken with the next generation, or no slot from the first size on is free and nothing changes. |
| `IpcSpace.Space.FindOnFreeList` | Kernel/mxwl/ipc/ipc_entry.c:272-279 | The walk along the free list finds the slot before the wanted one, or comes back to slot 0, from where the source goes on for ever, exactly for the slots that are not on the list. |
| `IpcSpace.Space.MoveEntries` | Kernel/mxwl/ipc/ipc_entry.c:675-727 | The traversal moves one entry per new index from the tree to the table, flags the rest, and leaves the map from names to entries unchanged. |
| `IpcSpace.Space.CountIndices` | Kernel/mxwl/ipc/ipc_entry.c:729-748 | is_tree_small becomes the number of distinct tree indices below the next size. |
| `IpcSpace.Space.LinkNewSlots` | Kernel/mxwl/ipc/ipc_entry.c:757-774 | The free new slots, in ascending order and of the last generation, come in front of the old free list. |
| `IpcSpace.Space.Rehash` | Kernel/mxwl/ipc/ipc_entry.c:614-631 | The local hash of the larger table holds exactly the send entries of the table. |
| `IpcSpace.Space.GrowOnce` | Kernel/mxwl/ipc/ipc_entry.c:541-785 | One round of growth goes to the next size and keeps the map from names to entries, the old slots and every invariant; no block is freed in use or twice exactly if that held before and the old table was smaller than a page. |
| `IpcSpace.Space.GrowTable` | Kernel/mxwl/ipc/ipc_entry.c:515-802 | Growth keeps the map and goes on exactly as long as the entries that the next size would take in use less room there; it fails only at the greatest size or when the allocator refuses, and asks once a round; the blocks are sound exactly if the last table replaced was smaller than a page. |
| `IpcSpace.Space.SoundUpTo128` | Kernel/mxwl/ipc/ipc_init.c:47-60 | With the sizes of the program, no table has been freed in use or twice if and only if the table has at most 128 entries. |
| `IpcSpace.Space.Alloc` | Kernel/mxwl/ipc/ipc_entry.c:179-205 | If nothing is refused, succeeds exactly if some index between the first and the last size has no name; the slot freed last is taken first, with the next generation, and a slot of a grown table with generation 0; memory is asked for once a round of growth, and not at all if a slot is free. |
| `IpcSpace.Space.InsertName` | Kernel/mxwl/ipc/ipc_entry.c:296-346 | A name that the table cannot hold is bound in the tree. |
| `IpcSpace.Space.AllocName` | Kernel/mxwl/ipc/ipc_entry.c:220-387 | Finds the name if it is bound, and binds it otherwise, refused memory apart; it grows the table exactly if the next size would take the index in and pay off, and asks for a tree entry exactly if the name goes into the tree; it does not return exactly for the free indices of the first table. |
| `IpcSpace.Space.RefillSlot` | Kernel/mxwl/ipc/ipc_entry.c:418-468 | Some twin of a freed slot takes its place with the collision bit telling whether another is left, and its hash entry moves from the global to the local table. |
| `IpcSpace.Space.FreeTableSlot` | Kernel/mxwl/ipc/ipc_entry.c:415-473 | The binding of a table entry without twins goes, and its slot becomes the head of the free list. |
| `IpcSpace.Space.FreeTreeEntry` | Kernel/mxwl/ipc/ipc_entry.c:474-496 | The binding of a tree entry goes, and the counters follow. |
| `IpcSpace.Space.Release` | Kernel/mxwl/ipc/ipc_entry.c:397-497 | Exactly the given name is unbound; its slot becomes the head of the free list exactly if no other name has its index. |
| `IpcRuns.Replay` | Kernel/mxwl/ipc/ipc_entry.c:74-497 | Every sequence of calls behaves as the same calls on a finite map from names to capabilities, up to the first that does not return; an allocation fails only if the allocator refused, or no index between the sizes was without a name; the blocks are sound exactly if no table of a page or more was replaced. |
| `IpcRuns.StaysBound` | Kernel/mxwl/ipc/ipc_entry.c:74-497 | A name given to a capability stays bound to it until it is released. |
| `IpcRuns.NeverReissued` | Kernel/mxwl/ipc/ipc_entry.c:116-163 | A name is not given out again while it is bound. |
| `IpcRuns.LookupAnswers` | Kernel/mxwl/ipc/ipc_entry.c:74-102 | A lookup after an allocation, with no release in between, returns the capability. |
| `IpcRuns.ReleasedThenAllocated` | Kernel/mxwl/ipc/ipc_entry.c:142-150 | A released name of the table is not the next to be given out, if there are generations; its index is, with the next generation, unless other names share it. |
| `IpcTableMemory.GrownSound` | Kernel/mxwl/compat/ipc/ipc_table.h:62-104 | A round of growth leaves blocks sound exactly if they were and the table was too small for realloc, wherever realloc puts the new block. |
| `IpcGrowProtocol.StepInv` | Kernel/mxwl/ipc/ipc_entry.c:515-597 | Every move of every thread, allocations and releases outside the lock included, keeps the invariant of the growth protocol. |
| `IpcGrowProtocol.ExecutionInv` | Kernel/mxwl/ipc/ipc_entry.c:515-802 | The invariant holds in every state of every interleaving. |
| `IpcGrowProtocol.OneThreadGrows` | Kernel/mxwl/ipc/ipc_entry.c:541-597 | At most one thread grows the table and one is inside the lock, and the assertions after the lock is retaken hold. |
| `IpcGrowProtocol.FreesAreSafeIff` | Kernel/mxwl/ipc/ipc_entry.c:561-567 | Throughout an execution the table in use is never freed, no block is freed twice, and no thread is about to do either, if and only if every growth that got a table started from fewer than 128 entries. |
| `IpcGrowProtocol.SoundIff` | Kernel/mxwl/ipc/ipc_entry.c:561-567 | In an execution at whose end every call has returned, the table in use is never freed and no block freed twice, if and only if every growth that got a table started from fewer than 128 entries. |
| `IpcGrowProtocol.ReallocMoves` | Kernel/mxwl/compat/ipc/ipc_table.h:62-74 | A reachable state in which one thread holds the lock on a table that another has freed, and one in which a block has been freed twice. |
| `IpcGrowProtocol.ReallocExtends` | Kernel/mxwl/ipc/ipc_entry.c:782-787 | A reachable state of an unlocked, active space whose table has been freed. |
| `IpcGrowProtocol.SizeNeverShrinks` | Kernel/mxwl/ipc/ipc_entry.c:598-606 | Along every execution the size never falls. |
| `IpcGrowProtocol.CanMoveIff` | Kernel/mxwl/ipc/ipc_entry.c:515-802 | In every state of every execution a thread can move unless it waits for a lock that another has; so no state is stuck. |
| `IpcGrowProtocol.OneWayIn` | Kernel/mxwl/ipc/ipc_entry.c:525-551 | With the lock in an active space exactly one of waiting, failing and growing is open. |
| `IpcGrowProtocol.OneWayOn` | Kernel/mxwl/ipc/ipc_entry.c:575-599 | With the lock retaken exactly one of giving up, freeing the new table and installing it is open. |
| `IpcGrowProtocol.CallEnds` | Kernel/mxwl/ipc/ipc_entry.c:515-802 | A call ends with the lock given up by its holder, at the greatest size, or for want of memory. |
| `IpcGrowProtocol.InstallsNext` | Kernel/mxwl/ipc/ipc_entry.c:599-606 | Only the installing of a table changes table and size, in a space that is active, to the next size; the old table is then in the hands of the thread. |
| `IpcGrowProtocol.DeadStays` | Kernel/mxwl/ipc/ipc_entry.c:578-589 | A dead space stays dead and keeps its table. |
| `IpcGrowProtocol.GoesOnIff` | Kernel/mxwl/ipc/ipc_entry.c:782-799 | A thread that has grown the table is for another round exactly if the space is active and nobody else has installed a table since. |
| `IpcGrowProtocol.NothingLeaks` | Kernel/mxwl/ipc/ipc_entry.c:561-589 | Every block ever allocated is in use, freed, or in the hands of a thread that will install or free it. |
| `IpcGrowProtocol.AllReturned` | Kernel/mxwl/ipc/ipc_entry.c:515-802 | Where every call has returned and every growth started below 128 entries, each block but the table in use has been freed exactly once. |
| `VmLog.StepBackRecovers` | PostScript/Adobe/vm.c:671-706 | Undoing the newest save record gives back every slot below the saved free pointer as it was when the level was opened; cache entries lose at most their timestamp. |
| `VmLog.BackInv` | PostScript/Adobe/vm.c:805-842 | After the newest record is undone the invariant of the levels below holds again, with every slot level at most the current one. |
| `VmLog.OnePassIsStepwise` | PostScript/Adobe/vm.c:805-825 | Restoring from level k to n in one pass, skipping records whose saved level exceeds n, equals restoring one level at a time. |
| `VmLog.RestoreComposes` | PostScript/Adobe/vm.c:805-825 | Restoring to j and then to n is restoring to n. |
| `VmLog.FirstWrite` | PostScript/Adobe/vm.c:451-464 | The first write to a slot at a level logs the old contents and keeps the invariant. |
| `VmLog.LogWrite` | PostScript/Adobe/vm.c:451-464 | Any write, first or later at its level, keeps the invariant. |
| `VmLog.LoggedOnce` | PostScript/Adobe/vm.c:451-464 | No slot is in one save record twice. |
| `VmLog.OpenLevel` | PostScript/Adobe/vm.c:827-842 | Opening a level keeps the invariant. |
| `VmLog.RestoreRecovers` | PostScript/Adobe/vm.c:671-706 | Restoring to level n recovers the memory below the saved free pointer as it was when level n + 1 was opened. |
| `VmStore.Store.AllocArray` | PostScript/Adobe/vm.c:439-452 | Null objects at the current level from the next word on, and nothing else changes. |
| `VmStore.Store.AllocDict` | PostScript/Adobe/vm.c:411-429 | A new body from the next word on and null cells after it, at the current level, and nothing else changes. |
| `VmStore.Store.PutObj` | PostScript/Adobe/vm.c:636-645 | One slot changes; its old contents go to the head of the newest list for objects exactly if they were written at a lower level. |
| `VmStore.Store.PutElem` | PostScript/Adobe/vm.c:647-658 | The same for an array element, refused exactly if the array may not be written. |
| `VmStore.Store.PutKeyVal` | PostScript/Adobe/vm.c:623-634 | Key and value change, each logged on its own. |
| `VmStore.Store.PutBody` | PostScript/Adobe/vm.c:605-621 | A dictionary body changes, logged whole. |
| `VmStore.Store.PutEntry` | PostScript/Adobe/vm.c:590-603 | A cache entry changes, logged whole. |
| `VmStore.Store.CopyArray` | PostScript/Adobe/vm.c:506-527 | The copied slots get the source's old contents, even when source and destination overlap. |
| `VmStore.Store.Save` | PostScript/Adobe/vm.c:827-842 | A level is opened with a new record at the next word, which the root then names, or the limit of levels is reported and nothing changes. |
| `VmStore.Store.RestoreList` | PostScript/Adobe/vm.c:671-706 | The loop over a log list undoes exactly the items saved at level n or before. |
| `VmStore.Store.RestoreToLevel` | PostScript/Adobe/vm.c:805-825 | Memory, root and free pointer are those of the time level n + 1 was opened. |
| `VmStore.Store.SaveOperator` | PostScript/Adobe/vm.c:844-850 | save returns the level to restore to. |
| `VmStore.Store.RestoreOperator` | PostScript/Adobe/vm.c:758-859 | restore accepts exactly the levels below the current one, and restores to them; then it raises invalidrestore exactly if some object on a stack, of a type other than null, integer, real, boolean, mark, exec and loop, has a level above the one restored to; with that taken off the operand and dictionary stacks. |
| `VmStore.SomeNewer` | PostScript/Adobe/vm.c:758-769 | A stack is refused exactly if it has an object of such a type and level, and what cleaning leaves has none. |
| `VmStore.CleanedMeans` | PostScript/Adobe/vm.c:786-800 | Cleaning leaves just what lies under the lowest such object. |
| `VmStore.IntegerStays` | PostScript/Adobe/vm.c:758-769 | save 5 exch restore is accepted, and the 5 stays. |
| `VmStore.StringGoes` | PostScript/Adobe/vm.c:758-800 | The same with a string is invalidrestore, and takes the string away. |
| `ExecMachine.ExecuteMeaning` | PostScript/Adobe/exec.c:119-240 | InnerExecute halts with exactly the result of the structured semantics of if, ifelse, repeat, for, loop, exec, def and exit, whatever happens to the dictionaries on the way, and the caller's execution stack is as it was but for an exit that is passed on. |
| `ExecMachine.HaltingIsFinished` | PostScript/Adobe/exec.c:119-240 | Where the machine halts, the structured semantics is defined and says the same. |
| `ExecMachine.FinishedOnce` | PostScript/Adobe/exec.c:119-240 | The structured semantics of an object is one result, whatever the depth it is computed with. |
| `ExecMachine.BodyRuns` | PostScript/Adobe/exec.c:157-173 | A procedure that is on the stack runs to its structured meaning and leaves the stack beneath it unchanged. |
| `ExecMachine.RepeatRuns` | PostScript/Adobe/exec.c:322-343 | repeat with its counter, command and loop mark runs to its structured meaning. |
| `ExecMachine.ForRuns` | PostScript/Adobe/exec.c:375-416 | An integer for loop, increments that wrap around included, runs to its structured meaning. |
| `ExecMachine.LoopRuns` | PostScript/Adobe/exec.c:418-433 | loop runs to its structured meaning. |
| `ExecMachine.UnwindLoop` | PostScript/Adobe/exec.c:54-75 | exit resumes just after the innermost loop mark. |
| `ExecMachine.TailCallKeepsHeight` | PostScript/Adobe/exec.c:157-200 | A procedure that ends in a name comes to the start of what the name then stands for, its own procedure for instance, with the same execution stack beneath. |
| `ExecMachine.PrefixRuns` | PostScript/Adobe/exec.c:157-173 | When its first elements are done, a procedure is on the stack with exactly the rest of its elements. |
| `ExecMachine.AddMeans` | PostScript/Adobe/exec.c:412-412 | The next number of a loop is the sum if that is in range, and otherwise differs from it by a multiple of the number of integers. |
| `ExecMachine.FindMeans` | PostScript/Adobe/exec.c:173-179 | A name has the value that the topmost dictionary with it gives it, and none just if no dictionary has it. |
| `ExecMachine.ForIsEach` | PostScript/Adobe/exec.c:402-416 | for runs any procedure on i, i + j, i + 2j and so on, up to the last number that has not passed k, if the one after it is still in range. |
| `ExecMachine.ForPushesIff` | PostScript/Adobe/exec.c:402-416 | With an empty procedure the loop leaves just the numbers from i to k in steps of j on the stack, (k - i) / j + 1 of them or none if i lies beyond k, if and only if the number after the last is an integer of the machine. |
| `ExecMachine.ForStill` | PostScript/Adobe/exec.c:402-416 | With 0 for a step the loop ends at once if i is below k, and at no depth otherwise. |
| `ExecMachine.ForNeverEnds` | PostScript/Adobe/exec.c:402-416 | A loop up to the greatest integer, or down to the least one, ends at no depth. |
| `ExecMachine.RepeatPushes` | PostScript/Adobe/exec.c:334-343 | i {1} repeat leaves i ones on the stack, and none for an i below 1. |
| `ExecMachine.ExecutedOrPushed` | PostScript/Adobe/exec.c:135-173 | Numbers, booleans and whatever is tagged literal are pushed, and so is a procedure met in a procedure; an executable name that no dictionary has is an error. |
| `ExecMachine.DefMeans` | PostScript/Adobe/dict.c:206-219 | After def the name has the value, and all other names and the dictionaries below have what they had. |
| `ExecInterpreter.Interpreter.UnwindExecStk` | PostScript/Adobe/exec.c:54-75 | For exit the stack is popped to the innermost loop mark, or to the caller's mark, which is told to clean up and to exit in turn; for stop the innermost call goes with its mark and its loops. |
| `ExecInterpreter.StopUnwinds` | PostScript/Adobe/exec.c:269-273 | Whatever a call has put on the execution stack, a stop in it leaves the stack of its caller. |
| `ExecInterpreter.Interpreter.InnerExecute` | PostScript/Adobe/exec.c:119-240 | If the object finishes, both stacks end as the structured semantics says. |
| `PsDict.NullCellExists` | PostScript/Adobe/dict.c:77-100 | There is always a null key in the table, so a search ends and 'no empty kvlocs' is never reached. |
| `PsDict.SearchDict` | PostScript/Adobe/dict.c:77-100 | The circular probe finds the key's location; an absent key is reported with a place for it exactly when the dictionary is not full. |
| `PsDict.ContentsSize` | PostScript/Adobe/dict.c:318-322 | curlength is the number of keys of the finite map. |
| `PsDict.ContentsMeaning` | PostScript/Adobe/dict.c:77-100 | The cells and the finite map hold the same keys and values. |
| `PsDict.InsertOk` | PostScript/Adobe/dict.c:186-194 | Inserting extends the finite map by one key, and no other key moves. |
| `PsDict.StoreOk` | PostScript/Adobe/dict.c:181-186 | Storing replaces one value of the finite map, and no key moves. |
| `PsDict.PrimeSize` | PostScript/Adobe/dict.c:267-296 | The length of the table for every legal capacity, which it exceeds: from a list up to 10, and from there on the greatest prime of the table not above the capacity and a half, or and a fifth above 500; limitcheck exactly above 2000. |
| `PsNameCache.PutOnTop` | PostScript/Adobe/dict.c:166-204 | A put makes the dictionary the topmost holder of the key exactly when it is on the stack with no holder above it. |
| `PsNameCache.PutSound` | PostScript/Adobe/dict.c:166-204 | A put keeps the cache's invariant and what the cache answers for all other names. |
| `PsNameCache.PutCurrent` | PostScript/Adobe/dict.c:195-204 | After a put with top the cache answers right for the name exactly if the dictionary is on top for it; after one without top, exactly if the put shadows nothing. |
| `PsNameCache.VectorSearches` | PostScript/Adobe/dict.c:121-129 | The vector a search uses covers every dictionary with the name; an empty one stands for all. |
| `PsNameCache.OwnKept` | PostScript/Adobe/dict.c:27-39 | An entry with the dictionary's bit added is right after a put of its name. |
| `PsDictStack.Dictionaries.constructor` | PostScript/Adobe/dict.c:41-49 | Two dictionaries on the stack and new entries satisfy the invariant. |
| `PsDictStack.Dictionaries.NewDict` | PostScript/Adobe/dict.c:298-316 | A new dictionary is empty and readable and changes no answer; bits are dealt out in turn, the first only when the count of dictionaries is 0. |
| `PsDictStack.Dictionaries.TryToLoad` | PostScript/Adobe/dict.c:112-154 | A timely entry answers by itself; otherwise invalidaccess is raised exactly if an unreadable dictionary with a bit of the vector lies above any holder, the assertion fails exactly if the entry has forgotten its place in the topmost holder, and in all other cases the answer is that of a plain search; the entry then names what was found, is timely, and has its bit added. |
| `PsDictStack.Dictionaries.LoadName` | PostScript/Adobe/dict.c:112-154 | While no place is forgotten and the stack may be read, the cached lookup equals the plain search. |
| `PsDictStack.Dictionaries.PutInDict` | PostScript/Adobe/dict.c:166-204 | The put changes one value of one finite map; what it makes of the entry of the name, and of no other; it leaves the cache right for the name exactly if the dictionary is on top for it, or, without top, if it does not shadow the cached answer. |
| `PsDictStack.Dictionaries.Def` | PostScript/Adobe/dict.c:206-219 | def puts into the topmost dictionary and keeps the cached answers right. |
| `PsDictStack.Dictionaries.Store` | PostScript/Adobe/dict.c:434-445 | store fails exactly where load does, and otherwise puts into the dictionary a load answers from, or else into the topmost one. |
| `PsDictStack.Dictionaries.PutTo` | PostScript/Adobe/dict.c:412-419 | dput puts into the given dictionary; the exact condition under which a cached answer goes stale. |
| `PsDictStack.Dictionaries.Begin` | PostScript/Adobe/dict.c:221-231 | The dictionary is pushed unless it has no access, no entry is timely any more, and at the wrap every entry forgets its place and its time, but not its dictionary. |
| `PsDictStack.Dictionaries.End` | PostScript/Adobe/dict.c:238-247 | The top is popped unless only two are left, and no entry is timely any more. |
| `PsDictStack.Dictionaries.Known` | PostScript/Adobe/dict.c:324-334 | True exactly when the dictionary holds the key, with or without help from the cache. |
| `PsDictStack.Dictionaries.ReadOnlyDict` | PostScript/Adobe/dict.c:509-524 | The write access goes in the dictionary and in every mirrored entry, and no answer changes. |
| `PsDictStack.Dictionaries.NoAccess` | PostScript/Adobe/type.c:354-377 | All access goes in the dictionary and in every mirrored entry, and no answer changes. |
| `PsDictRuns.Perform` | PostScript/Adobe/dict.c:112-247 | Each operator gives the answer, and has the effect, that it has in an interpreter without a cache. |
| `PsDictRuns.Replay` | PostScript/Adobe/dict.c:112-247 | Every run of load, def, store, begin, end and dput of new names only off the stack, with too few begins and ends to make the timestamp wrap, is a run of the interpreter without a cache. |
| `PsDictRuns.ShadowedPut` | PostScript/Adobe/dict.c:195-204 | A concrete run in which dput of a new name into the topmost dictionary leaves load with the value from below. |
| `PsDictRuns.WrappedLoad` | PostScript/Adobe/dict.c:51-57 | A concrete run in which the timestamp wraps and the next load fails its assertion. |
| `PsDictRuns.BarredLoad` | PostScript/Adobe/dict.c:125-139 | A concrete run in which a load of a name that no dictionary holds is refused. |
| `PsRestore.OperateAll` | PostScript/Adobe/dict.c:112-247 | Whatever operators run after a save, dict, readonly and noaccess and those on newer dictionaries included, entries that were not written are as they were, and there has been no begin or end, or the timestamp is later, or no old timestamp is left. |
| `PsSince.RestoreKeepsCache` | PostScript/Adobe/vm.c:683-694 | After any restore the cache is sound for the dictionaries of the save, and right for all names if it was then, though the timestamp is not restored, and the stack only loses what is newer. |
| `PsSince.NestedRestore` | PostScript/Adobe/vm.c:805-825 | Seen from an outer save, an inner save with its restore keeps what the argument needs. |
| `PsRestore.Operate` | PostScript/Adobe/dict.c:112-247 | Each operator does what it does, and the entries written are those that have changed, or all where the timestamp wraps. |
| `PsRestore.MemoryRestores` | PostScript/Adobe/vm.c:671-706 | What restore does to the memory puts back every dictionary and, but for timestamps, every entry written since. |
| `PsSession.SessionBack` | PostScript/Adobe/vm.c:749-825 | A restore to any level keeps the invariant of a session: levels of entries and objects tell what has been written and made since each save that is left, and the cache is right. |
| `PsSession.Session.DoRestore` | PostScript/Adobe/vm.c:749-859 | restore, which puts back the dictionaries and, entry by entry, what the cache held of names written since, and takes newer objects off the stack, answers and acts as an interpreter without a cache does. |
| `PsSession.PerformAct` | PostScript/Adobe/dict.c:112-247 | Each operator, dict, readonly, noaccess, save and restore included, answers and acts as without a cache. |
| `PsSession.ReplaySession` | PostScript/Adobe/vm.c:805-859 | Every session of dictionary operators, saves and nested restores in which the timestamp does not wrap, no dput shadows, and noaccess spares the stack gives the answers, and leaves the dictionaries and the stack, of an interpreter without a cache. |
| `Scanner.SkipLexeme` | PostScript/Adobe/scanner.c:558-583 | The table-driven loop of LineComplete ends where the lexeme ends, with an eight-bit state that may wrap. |
| `Scanner.LineComplete` | PostScript/Adobe/scanner.c:552-594 | True exactly if the count that goes up at { and down to no less than 0 at } ends at 0, no string is open, and comments and strings count for nothing, up to the first string that makes the state wrap; the same is said by lexemes. |
| `Scanner.CompleteAccepts` | PostScript/Adobe/scanner.c:552-594 | The test by lexemes, as the tables have them, is a test by characters. |
| `Scanner.BracesDecide` | PostScript/Adobe/scanner.c:587-593 | A text without parentheses and comments is complete exactly if the count of braces, which never goes below 0, ends at 0. |
| `Scanner.CommentSkipped` | PostScript/Adobe/scanner.c:119-133 | A comment up to its line end counts for nothing. |
| `Scanner.StringSkipped` | PostScript/Adobe/scanner.c:565-577 | A string up to its closing parenthesis counts for nothing. |
| `Scanner.LineReader.ScanEscape` | PostScript/Adobe/scanner.c:406-430 | An escape takes the characters that the plain rule takes; the line changes exactly where one or two octal digits are followed by a letter that stands for something else. |
| `Scanner.LineReader.ScanString` | PostScript/Adobe/scanner.c:396-440 | A string ends where the plain rule says with the rest of the line untouched; if it does not end, feof is asked of a null stream exactly if something follows its parenthesis. |
| `Scanner.LineReader.ScanLexeme` | PostScript/Adobe/scanner.c:394-449 | One lexeme, with exactly its characters in the token buffer. |
| `Scanner.LineReader.StreamToken` | PostScript/Adobe/scanner.c:381-478 | A token, the end of the source, something unfinished, a null stream or an error, as the lexemes say; found is set for a token and for what is unfinished, error just for the latter. |
| `Scanner.LineReader.ReadLine` | PostScript/Adobe/exec.c:150-156 | Tokens are executed until none is found; the line ends as its lexemes say, but that something unfinished is used as a token, and the syntax error for it is never raised. |
| `Scanner.LinePredicts` | PostScript/Adobe/scanner.c:552-627 | On lines without too deep strings: the tokenizer ends at the end of the source, with nothing open and no error, exactly when LineComplete holds and every lexeme is legal; and an accepted line never leads to a null stream. |
| `Scanner.LineOutcome` | PostScript/Adobe/scanner.c:381-478 | How reading ends and what the test says, for every line; a null stream is reached exactly if the lexemes are legal and the last is a string that never closes with something after its parenthesis. |
| `Scanner.DeepPredicts` | PostScript/Adobe/scanner.c:552-594 | On a line with a too deep string and legal lexemes the test is right exactly when the line is complete just if no brace is open before the first such string. |
| `Scanner.DeepComplete` | PostScript/Adobe/scanner.c:558-594 | What the test answers on every line: if a string nests too deep, whether a brace is open before the first such string; otherwise whether the line is complete. |
| `Scanner.DeepStringMissed` | PostScript/Adobe/scanner.c:558-594 | From 232 opening parentheses on the test calls an open string complete, on which the tokenizer meets a null stream. |
| `Scanner.OpenStringRead` | PostScript/Adobe/scanner.c:396-440 | A parenthesis and a letter end at a null stream; a parenthesis alone is unfinished. |
| `Scanner.OpenStringUsed` | PostScript/Adobe/exec.c:150-156 | The line of one parenthesis is an open string that is used, without an error. |
| `Scanner.EscapeChangesLine` | PostScript/Adobe/scanner.c:406-430 | An escape of one digit before n, t, b, r or f leaves what that letter stands for in the line. |
| `Scanner.LexLimit` | PostScript/Adobe/scanner.c:558-583 | The wrap of the state matters exactly for strings that nest too deep. |
| `ScannerNumbers.NumbersAndNames` | PostScript/Adobe/scanner.c:119-230 | A run of regular characters is one lexeme: an integer, an octal number or a real number just if it has that form, and a name otherwise. |
| `ScannerNumbers.LiteralNames` | PostScript/Adobe/scanner.c:119-230 | A slash and the run after it, which may be empty, are a literal name. |
| `ScannerNumbers.BackslashNames` | PostScript/Adobe/scanner.c:119-230 | A backslash outside strings and the run after it are a name. |
| `ScannerNumbers.OtherCharacters` | PostScript/Adobe/scanner.c:119-130 | Blanks are skipped; brackets, braces and a lone closing parenthesis are lexemes of one character. |
| `ScannerNumbers.LegalTexts` | PostScript/Adobe/scanner.c:290-313 | An octal number is accepted just if it has no 8 and no 9, a name just if it has no more than 31 characters, and other numbers always. |
| `ScannerNumbers.OctalMissed` | PostScript/Adobe/scanner.c:290-313 | An octal number with an 8 or a 9 is complete for the test and a syntax error for the tokenizer. |
| `ScannerNumbers.EightMissed` | PostScript/Adobe/scanner.c:290-313 | For instance 8B. |
| `ScannerNumbers.LongNameMissed` | PostScript/Adobe/scanner.c:457-460 | A name alone in a line is complete for the test, and an error for the tokenizer just if it has more than 31 characters. |
| `ScannerNumbers.LettersMissed` | PostScript/Adobe/scanner.c:457-460 | For instance n letters, with n above 31. |
| `PathPool.AppendFits` | PostScript/Adobe/path.c:84-107 | Taking an element off the free list and linking it to a path keeps the partition and all other paths, and adds one point. |
| `PathPool.ReplaceFits` | PostScript/Adobe/path.c:82-83 | A moveto after a moveto overwrites it in place, and nothing else changes. |
| `PathPool.GrowFits` | PostScript/Adobe/path.c:36-53 | A new chunk becomes the free list, and no path changes. |
| `PathPool.ReleaseFits` | PostScript/Adobe/path.c:111-125 | The elements of a freed path join the free list, and no other path changes. |
| `PathPool.SaveFits` | PostScript/Adobe/graphics.c:604-613 | gsave gives a state with the same points that shares its elements, marked as copies. |
| `PathPool.DropFits` | PostScript/Adobe/graphics.c:616-625 | Dropping an emptied top keeps every other path. |
| `PathStack.Graphics.GetPathStorage` | PostScript/Adobe/path.c:36-53 | A chunk of a thousand linked elements, or limitcheck after 64 chunks. |
| `PathStack.Graphics.AddToPath` | PostScript/Adobe/path.c:76-108 | The point is added to the path of the top only; a copy becomes a path of its own first, with the box of its points and without its secret flag; the box is widened by the point. It fails only when all storage is in use, and then leaves the path as it was or, of a copy, the points that could be copied. |
| `PathBoxes.BoxIsLeast` | PostScript/Adobe/path.c:93-105 | The box of points added without replacement is the smallest one around them. |
| `PathBoxes.TightIff` | PostScript/Adobe/path.c:82-105 | After any points have been added, the box is the smallest one around the path if and only if no replaced point lies outside that. |
| `PathBoxes.StillComesFrom` | PostScript/Adobe/path.c:82-105 | Adding a point to such a path and box gives such a path and box. |
| `PathStack.AddedBox` | PostScript/Adobe/path.c:82-105 | Every path of every graphics state has the points and the box of some points that were added one by one, and adding another keeps that. |
| `PathBoxes.ReplacedMoveTo` | PostScript/Adobe/path.c:82-105 | Two movetos in a row leave a box that reaches to the first. |
| `PathStack.Graphics.AppendCopyToPath` | PostScript/Adobe/path.c:128-129 | The copy has the points of its source, and the source keeps them; if the storage runs out, the first of them. |
| `PathStack.Graphics.FreePath` | PostScript/Adobe/path.c:111-125 | The path is empty; the elements of a copy stay where they are. |
| `PathStack.Graphics.NewPath` | PostScript/Adobe/path.c:200-205 | The path is empty, and secret just within charpath; the current point is the origin, and no other path changes. |
| `PathStack.Graphics.SetCharPath` | PostScript/Adobe/path.c:852-856 | charpath marks the top for the time it shows its string; no path changes. |
| `PathStack.Graphics.MoveTo` | PostScript/Adobe/path.c:227-227 | One point, replacing an immediately preceding moveto, with the record that AddToPath gives the path. |
| `PathStack.Graphics.LineTo` | PostScript/Adobe/path.c:238-239 | One point, a moveto if the path was empty, with the record that AddToPath gives the path; it fails only when all storage is in use. |
| `PathStack.Graphics.CurveTo` | PostScript/Adobe/path.c:250-256 | Three points with their box, or an error and no change if the path was empty; otherwise it fails only when all storage is in use. |
| `PathStack.Graphics.ClosePath` | PostScript/Adobe/path.c:402-407 | Back to where the current subpath began, or no change if there is none or it is closed; it fails only when all storage is in use. |
| `PathStack.Graphics.ClipToPath` | PostScript/Adobe/graphics.c:374-391 | The clip gets the points of the path and its secret flag, and both keep elements of their own; it fails only when all storage is in use. |
| `PathStack.Graphics.GSave` | PostScript/Adobe/graphics.c:604-613 | The stack of pictures gets its top doubled. |
| `PathStack.Graphics.GRestore` | PostScript/Adobe/graphics.c:616-625 | The stack of pictures loses its top, and all below are as they were. |
| `PathStack.Partition` | PostScript/Adobe/path.c:36-129 | Each element is free or in exactly one path that is not a copy. |
| `PathRuns.PerformOne` | PostScript/Adobe/path.c:76-407 | Each operator acts on the picture of the top as on a plain sequence of points. |
| `PathRuns.Perform` | PostScript/Adobe/graphics.c:604-625 | gsave, any operators with nested gsaves and errors among them, and grestore leave every record and every point as they were; in between, the top is what the operators do to a plain sequence of points, without an error unless storage or the stack runs out or a curve has no point to start from. |
| `PathRuns.SecretLost` | PostScript/Adobe/path.c:76-80 | Within charpath: newpath, moveto, gsave and moveto leave a secret path below and a path on top that is not secret. |
| `ReducerEdges.EdgeXAtEnds` | PostScript/Adobe/reducer.c:61-68 | edgeXFixed is exact at both ends. |
| `ReducerEdges.EdgeXAccuracy` | PostScript/Adobe/reducer.c:61-68 | In between it is less than one unit of 1/65536 off the straight line. |
| `ReducerEdges.StepWinding` | PostScript/Adobe/reducer.c:41-59 | An edge changes the winding number at a level by whether the step starts and ends above it. |
| `ReducerEdges.BandWinding` | PostScript/Adobe/reducer.c:186-192 | In a band the edges that go through it are those that cross a level in it. |
| `ReducerEdges.SortedMeaning` | PostScript/Adobe/reducer.c:109-137 | The insertion sorts give an ascending list with the same elements. |
| `ReducerEdges.SortedSum` | PostScript/Adobe/reducer.c:123-137 | Sorting the edges does not change their winding numbers. |
| `Reducer.SortBy` | PostScript/Adobe/reducer.c:109-137 | The sorts in place compute the sorted list of the array's first n elements. |
| `Reducer.DropRepeats` | PostScript/Adobe/reducer.c:168-179 | The levels that are left descend strictly and are the same set. |
| `Reducer.EmitSpans` | PostScript/Adobe/reducer.c:207-241 | The spans cover exactly the gaps in which the running winding numbers fill, with no place covered twice; where the winding numbers end filled, the last trapezoid reaches to the last edge. |
| `Reducer.NotFilledAtEnd` | PostScript/Adobe/reducer.c:237-241 | With closed subpaths the winding numbers of a band end at zero, so the trailing trapezoid is never emitted. |
| `Reducer.InsideAt` | PostScript/Adobe/reducer.c:212-224 | Where the edges are in order on a line, the running winding numbers at a position are the sums over all edges of the band to its left. |
| `Reducer.ReduceBand` | PostScript/Adobe/reducer.c:186-241 | On the top line of a band, and on every line if the edges keep their order, a place off the edges is covered by one trapezoid if its winding numbers satisfy the rule and the clip, and by none otherwise. |
| `Reducer.Levels` | PostScript/Adobe/reducer.c:161-179 | Exactly the levels at which edges begin or end, from the top down. |
| `Reducer.BandLevels` | PostScript/Adobe/reducer.c:181-184 | Every band is one of neighbouring levels in the list. |
| `Reducer.Path.NewPoint` | PostScript/Adobe/reducer.c:70-80 | The windings stay balanced: closed subpaths give zero, an open one its first and last point. |
| `Reducer.Path.ReducerClosePath` | PostScript/Adobe/reducer.c:82-88 | The subpath is closed and winds zero at every level. |
| `Reducer.Path.NewPathIsClip` | PostScript/Adobe/reducer.c:97-101 | An open subpath is closed as what it was before the kind changes. |
| `Reducer.Path.Reduce` | PostScript/Adobe/reducer.c:139-243 | For closed subpaths within the limits, a place off the edges is covered, and only once, exactly if the figure winds around it, and the clip too if it counts: not zero times, or an odd number of times under even-odd. That holds on the top line of every band, and on all its lines if its edges keep their order; every trapezoid runs along edges through its band. |
| `Reducer.OrderOnLine` | PostScript/Adobe/reducer.c:123-137 | Edges that are in order on the first and on the last line of a band are in order on all its lines. |
| `Reducer.PairIff` | PostScript/Adobe/reducer.c:186-241 | Between two edges alone in a band the trapezoids cover exactly the inside on every line, if and only if the second of them is not to the left of the first on the bottom line. |
| `Reducer.Triangle` | PostScript/Adobe/reducer.c:123-137 | A triangle with given corners, its top between the others, is covered on every line exactly if it is drawn clockwise. |
| `Reducer.BowTie` | PostScript/Adobe/reducer.c:186-241 | Between two edges that cross, a place on the bottom line is inside and not covered. |
| `Reducer.HalfClipped` | PostScript/Adobe/reducer.c:216-224 | Of a figure that lies half in a clip rectangle the other half is covered exactly if the clip does not count. |
| `Reducer.SquareInSquare` | PostScript/Adobe/reducer.c:216-224 | A square within a square drawn the same way round is filled under the nonzero rule and left out under even-odd. |
| `BitmapHeap.SumAll` | PostScript/Adobe/fontcache.c:43-65 | Used and free lengths make up the heap. |
| `BitmapHeap.Ordered` | PostScript/Adobe/fontcache.c:43-65 | Blocks do not overlap. |
| `BitmapHeap.Cut` | PostScript/Adobe/fontcache.c:55-60 | Cutting a free block leaves a used one and a free one that tile the same bytes. |
| `BitmapHeap.Merge` | PostScript/Adobe/fontcache.c:313-322 | Merging a run of free blocks keeps the tiling, every used block and the used total. |
| `BitmapHeap.Heap.constructor` | PostScript/Adobe/fontcache.c:80-94 | Sentinel, one free block that the free pointer names, and scratch block tile the heap. |
| `BitmapHeap.Heap.FindBMHole` | PostScript/Adobe/fontcache.c:43-65 | Finds a hole exactly when some free block has room, and takes the first. |
| `BitmapHeap.Heap.AllocBM` | PostScript/Adobe/fontcache.c:96-137 | Succeeds exactly when some free block has room: the one the free pointer names, or else the first; it is cut exactly if more than a header would be over, every other block is untouched, and free pointer and used total follow. |
| `BitmapHeap.Heap.FreeBM` | PostScript/Adobe/fontcache.c:263-271 | One used block becomes free, and the used total follows. |
| `BitmapHeap.Heap.CoalesceBM` | PostScript/Adobe/fontcache.c:305-325 | No two adjacent blocks are free, every used block is kept, and the free pointer names the last free block, or none if there is none. |
| `FrameBuffer.RowMaskBit` | PostScript/Adobe/framedevice.c:117-135 | The masks of a row have exactly the bits from xl to before xr. |
| `FrameBuffer.SplitUnit` | PostScript/Adobe/framedevice.c:245-252 | A word shifted right and its overflow shifted left lay the same bits at a bit offset. |
| `FrameBuffer.WordAndBit` | PostScript/Adobe/framedevice.c:241-244 | Word and shift of a start position are its quotient and remainder, for negative positions as well. |
| `FrameBuffer.FillRow` | PostScript/Adobe/framedevice.c:130-135 | One row gets exactly the pixels from xl to before xr. |
| `FrameBuffer.FrameBlackRect` | PostScript/Adobe/framedevice.c:112-138 | Exactly the pixels of rows yb to yt from xl to before xr are added, also if xl is negative and the rectangle begins in the row before. |
| `FrameBuffer.OrRow` | PostScript/Adobe/framedevice.c:247-260 | One row of the mask is added bit by bit. |
| `FrameBuffer.FrameBlackMask` | PostScript/Adobe/framedevice.c:231-262 | Every bit of the mask is added at its place, also for negative x, and nothing else changes. |
| `NameTable.EverySlotMet` | PostScript/Adobe/name.c:82-88 | With half an odd length for a step every slot is met, at a step that can be computed from it. |
| `NameTable.NoSlotTwice` | PostScript/Adobe/name.c:82-88 | No slot is met twice before all have been met. |
| `NameTable.MetFirst` | PostScript/Adobe/name.c:82-88 | A text that is in the table is met before any empty slot. |
| `NameTable.InternAll` | PostScript/Adobe/name.c:49-124 | Over any sequence of lookups two names are the same exactly if their texts are, every name is turned back into its text in the end, and a text with a name never overflows the table. |
| `NameTable.Names.NameToString` | PostScript/Adobe/name.c:49-57 | The text that this name and no other stands for, or an error if it stands for none. |
| `NameTable.Names.ThereAndBack` | PostScript/Adobe/name.c:49-98 | Looking up the text of a name gives the name back, and changes nothing. |
| `NameTable.InsertOk` | PostScript/Adobe/name.c:89-97 | Filling the first empty slot keeps every text reachable. |
| `NameTable.Names.Intern` | PostScript/Adobe/name.c:100-124 | The text's own slot, or the first empty one; overflow exactly when the table is full of other texts. |
| `NameTable.Names.StringToName` | PostScript/Adobe/name.c:72-98 | The same, with limitcheck above 31 characters and invalidaccess for an unreadable string. |

## Left out

- The splay tree's internals, zone allocation, reference counts, host threads and lock implementation: the tree is an ordered map, and the lock a state of the growth protocol.
- Locks in the class `IpcSpace.Space`: its operations are sequential, and the windows without a lock are those of `IpcGrowProtocol`; the retry after a table has been grown by somebody else is modelled there only.
- Liveness of waiters for growth: a waiter may return at any time and check again; that it is woken is not claimed.
- Setting the type bits and the object of a new entry, and entering it in a hash, are what the callers of the entry functions do; they are folded into each allocation, and clearing them into each release.
- What a table holds after its block has been freed: the model tells the slots as if it had not, and keeps account of the blocks beside them.
- Reading the size after the last one of the growth schedule, which `ipc_entry_grow_table` does before it compares two equal sizes, is done after the comparison.
- VM file images, expansion of the memory, ROM, the C heap and a full memory: the memory is unbounded, and log records are values rather than bytes in it.
- String contents, which the log does not cover.
- Stack overflow, interrupts, the error handler of the interpreter, and stop but for what it takes off the execution stack: an error ends the model of `InnerExecute`.
- Strings, files, reals and dictionaries as executable objects, the real-valued for loop, and access checks on procedures. Operators other than the control operators and def are any function of operands and dictionaries.
- `VMCopyDict` and `VMAllocCopyDict`, dget, where and dictforall; keys of load and store that are not names, because `trytoload` then compares a variable that has not been set.
- The contents of strings and procedures that the scanner makes, and the values of numbers, though not what is a number; tokens too long for the memory; `StringToken`.
- Arcs, curves, stroking, matrices, colours and all other floating-point geometry; coordinates of paths are compared and copied only.
- `AppendPath`, `TranslatePath`, paths of characters and what charpath does but for its mark, and the branches of clip that use the reducer.
- Save levels in `grestore`: only the outermost bottom of the stack is modelled.
- The limits on edges and on edges of a band are modelled, but the exactness of `Reduce` is stated for figures within them. Within a band an edge is the straight line between its rounded places on the top and the bottom line, and what trapezoids cover of more than two edges that change places is not told.
- The width of the integers in `edgeXFixed`: coordinates are small enough in the program.
- Growing the bitmap heap on one kind of machine, disk caches, and the choice of fonts to purge. The call in `AllocBM` that leaves out an argument is taken to pass `scratch`.
- Gray patterns and masks, image masks, and frame buffers with words of 8 or 32 pixels.
- BSD server, boot, device, window system and Objective-C parts of the repository: host calls, user interface and text plumbing.
- PathStack.Graphics.ClipToPath: the test for this branch of clip, whether the clip is a rectangle afterwards and the device's box are left out.
- BitmapHeap.Heap.FreeBM: taking the purged character off its chain in the character cache is left out; the block is freed and accounted for.
- VmStore.Store.RestoreOperator: registered restore procedures, closing the files among the objects popped, the reset of the execution stack (`ResetExecStk`), and the dictionary stack that the error handler then begins anew are left out.
- PsSession.ReplaySession: dictionaries come back as copies, which `PsRestore.MemoryRestores` shows the log to amount to; and a restore that raises an error leaves the dictionary stack as cleaning does, before the error handler acts on it.
