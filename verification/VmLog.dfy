/**
  The undo log behind the save and restore operators (PostScript/Adobe/vm.c), as values.

  Every slot of the virtual memory carries the level of its last write.  The first write to a slot at a level
  puts the old contents into the log of the save record of that level; later writes at the same level do not.
  Restoring to level n walks the save records above n once and puts back only contents that were written at
  level n or before.
 */
module VmLog {

  /** An object, a name cache entry with its timestamp, or the body of a dictionary. */
  datatype Slot =
    | Obj(level: nat, val: int)
    | Entry(level: nat, ts: nat, val: int)
    | Body(level: nat, val: int)

  /** Slots by offset; an offset that is not a key does not hold a slot. */
  type Mem = map<nat, Slot>

  /** The root record: its level, the offset of the newest save record, and everything else. */
  datatype Root = Root(level: nat, sr: nat, rest: int)

  datatype Item = Item(offset: nat, slot: Slot)

  /** A save record with its three log lists, newest item first. */
  datatype Record = Record(level: nat, free: nat, root: Root, objs: seq<Item>, ces: seq<Item>, dbs: seq<Item>)

  /** What the memory was like when a level was opened. */
  datatype Snap = Snap(vm: Mem, free: nat, root: Root)

  function Items(r: Record): seq<Item> {
    r.objs + r.ces + r.dbs
  }

  /** A restored cache entry loses its timestamp. */
  function Restored(s: Slot): Slot {
    match s
    case Entry(_, _, _) => s.(ts := 0)
    case _ => s
  }

  /** The same contents, except that the timestamp may have been lost. */
  predicate Same(now: Slot, was: Slot) {
    now == was || now == Restored(was)
  }

  // ---------------------------------------------------------------- undoing

  /** One round of the loops of RestoreObj, RestoreCE and RestoreDB. */
  function UndoItem(vm: Mem, x: Item, n: nat): Mem {
    if x.slot.level <= n then vm[x.offset := Restored(x.slot)] else vm
  }

  function UndoItems(vm: Mem, items: seq<Item>, n: nat): Mem
    decreases |items|
  {
    if items == [] then vm else UndoItems(UndoItem(vm, items[0], n), items[1..], n)
  }

  function UndoRecord(vm: Mem, r: Record, n: nat): Mem {
    UndoItems(UndoItems(UndoItems(vm, r.objs, n), r.ces, n), r.dbs, n)
  }

  /** The memory after one pass over the records, newest first. */
  function UndoAll(vm: Mem, log: seq<Record>, n: nat): Mem
    decreases |log|
  {
    if log == [] then vm else UndoAll(UndoRecord(vm, log[0], n), log[1..], n)
  }

  /** The slots that remain when everything from free on is given up. */
  function Below(vm: Mem, free: nat): (below: Mem)
    ensures forall o :: o in below <==> o in vm && o < free
    ensures forall o :: o in below ==> below[o] == vm[o]
  {
    map o | o in vm && o < free :: vm[o]
  }

  // ---------------------------------------------------------------- the invariant

  ghost predicate DistinctOffsets(items: seq<Item>) {
    forall i, j :: 0 <= i < j < |items| ==> items[i].offset != items[j].offset
  }

  /** The log of r tells the memory apart from what it was when the level of r was opened. */
  ghost predicate TopOk(vm: Mem, r: Record, s: Snap) {
    && r.free == s.free && r.root == s.root
    && (forall o :: o in s.vm ==> o in vm && o < s.free)
    && (forall o :: o in vm && o !in s.vm ==> vm[o].level == r.level && s.free <= o)
    && DistinctOffsets(Items(r))
    && (forall x :: x in Items(r) ==> x.offset in s.vm && Same(x.slot, s.vm[x.offset]) && vm[x.offset].level == r.level)
    && (forall o :: o in s.vm ==> vm[o].level < r.level ==> Same(vm[o], s.vm[o]))
    && (forall o :: o in s.vm ==> vm[o].level == r.level ==> Logged(r, o))
  }

  ghost predicate Logged(r: Record, o: nat) {
    exists x :: x in Items(r) && x.offset == o
  }

  /** The memory of a level, its save records (newest first), and the memories saved below it. */
  ghost predicate Inv(vm: Mem, free: nat, level: nat, log: seq<Record>, snaps: seq<Snap>) {
    && |log| == level == |snaps|
    && (forall o :: o in vm ==> o < free && vm[o].level <= level)
    && (level > 0 ==>
          var r, s := log[0], snaps[level - 1];
          && r.level == level && s.free <= free && TopOk(vm, r, s)
          && Inv(s.vm, s.free, level - 1, log[1..], snaps[..level - 1]))
  }

  // ---------------------------------------------------------------- undoing the items of one record

  lemma {:induction false} UndoItemsKeys(vm: Mem, items: seq<Item>, n: nat)
    requires forall x :: x in items ==> x.offset in vm
    ensures UndoItems(vm, items, n).Keys == vm.Keys
  {
    if items != [] {
      assert UndoItem(vm, items[0], n).Keys == vm.Keys;
      UndoItemsKeys(UndoItem(vm, items[0], n), items[1..], n);
    }
  }

  /** A slot that no item puts back keeps its contents. */
  lemma {:induction false} UndoItemsMiss(vm: Mem, items: seq<Item>, n: nat, o: nat)
    requires o in vm && forall x :: x in items && x.offset == o ==> x.slot.level > n
    ensures o in UndoItems(vm, items, n) && UndoItems(vm, items, n)[o] == vm[o]
    decreases |items|
  {
    if items != [] {
      assert items[0] in items;
      UndoItemsMiss(UndoItem(vm, items[0], n), items[1..], n, o);
    }
  }

  /** A slot with an item that is old enough gets the contents of that item. */
  lemma {:induction false} UndoItemsHit(vm: Mem, items: seq<Item>, n: nat, x: Item)
    requires DistinctOffsets(items) && x in items && x.slot.level <= n
    ensures x.offset in UndoItems(vm, items, n) && UndoItems(vm, items, n)[x.offset] == Restored(x.slot)
    decreases |items|
  {
    var next := UndoItem(vm, items[0], n);
    if items[0] == x {
      assert forall y :: y in items[1..] ==> y.offset != x.offset;
      UndoItemsMiss(next, items[1..], n, x.offset);
    } else {
      UndoItemsHit(next, items[1..], n, x);
    }
  }

  lemma {:induction false} UndoItemsAppend(vm: Mem, a: seq<Item>, b: seq<Item>, n: nat)
    ensures UndoItems(vm, a + b, n) == UndoItems(UndoItems(vm, a, n), b, n)
    decreases |a|
  {
    if a == [] {
      assert a + b == b;
    } else {
      assert (a + b)[1..] == a[1..] + b;
      UndoItemsAppend(UndoItem(vm, a[0], n), a[1..], b, n);
    }
  }

  lemma UndoRecordItems(vm: Mem, r: Record, n: nat)
    ensures UndoRecord(vm, r, n) == UndoItems(vm, Items(r), n)
  {
    UndoItemsAppend(vm, r.objs + r.ces, r.dbs, n);
    UndoItemsAppend(vm, r.objs, r.ces, n);
  }

  // ---------------------------------------------------------------- going back one level

  /** The memory when the newest level is given up. */
  function StepBack(vm: Mem, r: Record): Mem
    requires r.level > 0
  {
    Below(UndoRecord(vm, r, r.level - 1), r.free)
  }

  /** Going back one level recovers the memory of the moment the level was opened. */
  lemma StepBackRecovers(vm: Mem, r: Record, s: Snap)
    requires TopOk(vm, r, s) && r.level > 0
    requires forall o :: o in s.vm ==> s.vm[o].level < r.level
    requires forall o :: o in vm ==> vm[o].level <= r.level
    ensures StepBack(vm, r).Keys == s.vm.Keys
    ensures forall o :: o in s.vm ==>
              StepBack(vm, r)[o] == if vm[o].level == r.level then Restored(s.vm[o]) else vm[o]
    ensures forall o :: o in s.vm ==> Same(StepBack(vm, r)[o], s.vm[o])
  {
    var n := r.level - 1;
    UndoRecordItems(vm, r, n);
    UndoItemsKeys(vm, Items(r), n);
    forall o | o in s.vm
      ensures UndoRecord(vm, r, n)[o] == if vm[o].level == r.level then Restored(s.vm[o]) else vm[o]
    {
      if vm[o].level == r.level {
        assert Logged(r, o);
        var x :| x in Items(r) && x.offset == o;
        UndoItemsHit(vm, Items(r), n, x);
      } else {
        UndoItemsMiss(vm, Items(r), n, o);
      }
    }
  }

  /** The invariant does not depend on timestamps. */
  lemma InvSame(vm: Mem, was: Mem, free: nat, level: nat, log: seq<Record>, snaps: seq<Snap>)
    requires Inv(was, free, level, log, snaps)
    requires vm.Keys == was.Keys && forall o :: o in was ==> Same(vm[o], was[o])
    ensures Inv(vm, free, level, log, snaps)
  {
    hide TopOk;
    assert forall o :: o in was ==> vm[o].level == was[o].level;
    if level > 0 {
      TopSame(vm, was, log[0], snaps[level - 1]);
    }
  }

  lemma TopSame(vm: Mem, was: Mem, r: Record, s: Snap)
    requires TopOk(was, r, s) && vm.Keys == was.Keys && forall o :: o in was ==> Same(vm[o], was[o])
    ensures TopOk(vm, r, s)
  {
    hide Items, DistinctOffsets, Logged;
    assert forall o :: o in was ==> vm[o].level == was[o].level;
  }

  lemma BackInv(vm: Mem, free: nat, level: nat, log: seq<Record>, snaps: seq<Snap>)
    requires Inv(vm, free, level, log, snaps) && level > 0
    ensures Inv(StepBack(vm, log[0]), log[0].free, level - 1, log[1..], snaps[..level - 1])
    ensures StepBack(vm, log[0]).Keys == snaps[level - 1].vm.Keys
    ensures forall o :: o in snaps[level - 1].vm ==>
              Same(StepBack(vm, log[0])[o], snaps[level - 1].vm[o])
              && StepBack(vm, log[0])[o] == if vm[o].level == level then Restored(snaps[level - 1].vm[o]) else vm[o]
  {
    var r, s := log[0], snaps[level - 1];
    StepBackRecovers(vm, r, s);
    InvSame(StepBack(vm, r), s.vm, s.free, level - 1, log[1..], snaps[..level - 1]);
  }

  // ---------------------------------------------------------------- one pass over several records

  lemma {:induction false} UndoItemsAgree(u: Mem, v: Mem, items: seq<Item>, n: nat, o: nat)
    requires o in u && o in v && u[o] == v[o]
    ensures o in UndoItems(u, items, n) && o in UndoItems(v, items, n)
    ensures UndoItems(u, items, n)[o] == UndoItems(v, items, n)[o]
    decreases |items|
  {
    if items != [] {
      UndoItemsAgree(UndoItem(u, items[0], n), UndoItem(v, items[0], n), items[1..], n, o);
    }
  }

  lemma {:induction false} UndoItemsKeep(u: Mem, items: seq<Item>, n: nat, o: nat)
    requires o in u
    ensures o in UndoItems(u, items, n)
    decreases |items|
  {
    if items != [] {
      UndoItemsKeep(UndoItem(u, items[0], n), items[1..], n, o);
    }
  }

  lemma {:induction false} UndoAllAgree(u: Mem, v: Mem, log: seq<Record>, n: nat, o: nat)
    requires o in u && o in v && u[o] == v[o]
    ensures o in UndoAll(u, log, n) && o in UndoAll(v, log, n)
    ensures UndoAll(u, log, n)[o] == UndoAll(v, log, n)[o]
    decreases |log|
  {
    if log != [] {
      UndoRecordItems(u, log[0], n);
      UndoRecordItems(v, log[0], n);
      UndoItemsAgree(u, v, Items(log[0]), n, o);
      UndoAllAgree(UndoRecord(u, log[0], n), UndoRecord(v, log[0], n), log[1..], n, o);
    }
  }

  /** What was there when a level was opened is there ever since; n may be the level itself. */
  lemma {:induction false} SnapKeys(vm: Mem, free: nat, level: nat, log: seq<Record>, snaps: seq<Snap>, n: nat, o: nat)
    requires Inv(vm, free, level, log, snaps) && n <= level
    requires n < level ==> o in snaps[n].vm
    requires n == level ==> o in vm
    ensures o in vm && o < free
    ensures n < level ==> o < snaps[n].free
    decreases level
  {
    if n < level {
      var s := snaps[level - 1];
      if n < level - 1 {
        SnapKeys(s.vm, s.free, level - 1, log[1..], snaps[..level - 1], n, o);
      }
    }
  }

  lemma InvTail(vm: Mem, free: nat, level: nat, log: seq<Record>, snaps: seq<Snap>)
    requires Inv(vm, free, level, log, snaps)
    ensures |log| == level == |snaps|
    ensures forall o :: o in vm ==> vm[o].level <= level
    ensures level > 0 ==>
              var s := snaps[level - 1];
              log[0].level == level && log[0].free == s.free && log[0].root == s.root && s.free <= free
              && Inv(s.vm, s.free, level - 1, log[1..], snaps[..level - 1])
  {
  }

  /** A slot that went from level n or below to a level above n at the newest level has its old contents in the log. */
  lemma ItemFor(vm: Mem, free: nat, level: nat, log: seq<Record>, snaps: seq<Snap>, n: nat, o: nat) returns (x: Item)
    requires Inv(vm, free, level, log, snaps) && level > 0
    requires o in snaps[level - 1].vm && o in vm && snaps[level - 1].vm[o].level <= n < vm[o].level
    ensures x in Items(log[0]) && x.offset == o && x.slot.level <= n && DistinctOffsets(Items(log[0]))
  {
    assert Logged(log[0], o);
    x :| x in Items(log[0]) && x.offset == o;
  }

  /** A slot written above level n is put back by the pass, whatever it holds when the pass begins. */
  lemma {:induction false} Overwritten(u: Mem, v: Mem, vm: Mem, free: nat, level: nat, log: seq<Record>,
                                       snaps: seq<Snap>, n: nat, o: nat)
    requires Inv(vm, free, level, log, snaps) && n < level == |log| == |snaps|
    requires o in snaps[n].vm && o in vm && vm[o].level > n
    requires o in u && o in v
    ensures o in UndoAll(u, log[..level - n], n) && o in UndoAll(v, log[..level - n], n)
    ensures UndoAll(u, log[..level - n], n)[o] == UndoAll(v, log[..level - n], n)[o]
    decreases level
  {
    hide Inv, TopOk, UndoItems, UndoRecord, Items, DistinctOffsets;
    InvTail(vm, free, level, log, snaps);
    var r, s, k := log[0], snaps[level - 1], level - n;
    var u', v' := UndoRecord(u, r, n), UndoRecord(v, r, n);
    assert log[..k][0] == r && log[..k][1..] == log[1..][..k - 1];
    SnapKeys(s.vm, s.free, level - 1, log[1..], snaps[..level - 1], n, o);
    UndoRecordItems(u, r, n);
    UndoRecordItems(v, r, n);
    UndoItemsKeep(u, Items(r), n, o);
    UndoItemsKeep(v, Items(r), n, o);
    if s.vm[o].level <= n {
      var x := ItemFor(vm, free, level, log, snaps, n, o);
      UndoItemsHit(u, Items(r), n, x);
      UndoItemsHit(v, Items(r), n, x);
      UndoAllAgree(u', v', log[1..][..k - 1], n, o);
    } else {
      Overwritten(u', v', s.vm, s.free, level - 1, log[1..], snaps[..level - 1], n, o);
    }
  }

  // ---------------------------------------------------------------- one pass is as good as one level at a time

  /** Going back k levels, one at a time. */
  function StepDown(vm: Mem, log: seq<Record>, k: nat): Mem
    requires k <= |log| && forall i :: 0 <= i < |log| ==> log[i].level > 0
    decreases k
  {
    if k == 0 then vm else StepDown(StepBack(vm, log[0]), log[1..], k - 1)
  }

  lemma {:induction false} LevelsPositive(vm: Mem, free: nat, level: nat, log: seq<Record>, snaps: seq<Snap>)
    requires Inv(vm, free, level, log, snaps)
    ensures |log| == level == |snaps| && forall i :: 0 <= i < |log| ==> log[i].level == level - i
    ensures forall i :: 0 <= i < |log| ==>
              log[i].free == snaps[level - 1 - i].free && log[i].root == snaps[level - 1 - i].root
    decreases level
  {
    InvTail(vm, free, level, log, snaps);
    if level > 0 {
      var s := snaps[level - 1];
      LevelsPositive(s.vm, s.free, level - 1, log[1..], snaps[..level - 1]);
      forall i | 0 < i < |log|
        ensures log[i].level == level - i
        ensures log[i].free == snaps[level - 1 - i].free && log[i].root == snaps[level - 1 - i].root
      {
        assert log[1..][i - 1] == log[i];
      }
    }
  }

  /** What stepping back leaves in a slot that was there when level n + 1 was opened. */
  lemma {:induction false} StepDownValues(vm: Mem, free: nat, level: nat, log: seq<Record>, snaps: seq<Snap>, n: nat)
    requires Inv(vm, free, level, log, snaps) && n < level == |log| == |snaps|
    requires forall i :: 0 <= i < |log| ==> log[i].level > 0
    ensures var down := StepDown(vm, log, level - n);
            && down.Keys == snaps[n].vm.Keys
            && (forall o :: o in snaps[n].vm ==> o in vm && Same(down[o], snaps[n].vm[o]))
            && (forall o :: o in snaps[n].vm ==> down[o] == if vm[o].level > n then Restored(snaps[n].vm[o]) else vm[o])
    decreases level
  {
    hide Inv, TopOk, StepBack;
    InvTail(vm, free, level, log, snaps);
    BackInv(vm, free, level, log, snaps);
    var s, back := snaps[level - 1], StepBack(vm, log[0]);
    if n < level - 1 {
      StepDownValues(back, log[0].free, level - 1, log[1..], snaps[..level - 1], n);
      forall o | o in snaps[n].vm ensures o in vm {
        SnapKeys(vm, free, level, log, snaps, n, o);
      }
    } else {
      assert StepDown(vm, log, 1) == back;
      forall o | o in snaps[n].vm ensures o in vm {
        SnapKeys(vm, free, level, log, snaps, n, o);
      }
    }
  }

  lemma {:induction false} UndoAllKeys(vm: Mem, free: nat, level: nat, log: seq<Record>, snaps: seq<Snap>, w: Mem,
                                       k: nat, n: nat)
    requires Inv(vm, free, level, log, snaps) && k <= level == |log| == |snaps| && w.Keys >= vm.Keys
    ensures UndoAll(w, log[..k], n).Keys == w.Keys
    decreases k
  {
    if k > 0 {
      var r, s := log[0], snaps[level - 1];
      assert log[..k][0] == r && log[..k][1..] == log[1..][..k - 1];
      UndoRecordItems(w, r, n);
      UndoItemsKeys(w, Items(r), n);
      UndoAllKeys(s.vm, s.free, level - 1, log[1..], snaps[..level - 1], UndoRecord(w, r, n), k - 1, n);
    }
  }

  /** The first record of a pass leaves a slot as stepping back does, unless the rest of the pass overwrites it. */
  lemma FirstRecord(vm: Mem, free: nat, level: nat, log: seq<Record>, snaps: seq<Snap>, n: nat, o: nat)
    requires Inv(vm, free, level, log, snaps) && n < level - 1 && level == |log| == |snaps|
    requires o in snaps[n].vm
    ensures o in UndoRecord(vm, log[0], n) && o in StepBack(vm, log[0])
    ensures UndoRecord(vm, log[0], n)[o] == StepBack(vm, log[0])[o] || StepBack(vm, log[0])[o].level > n
  {
    var r, s := log[0], snaps[level - 1];
    SnapKeys(s.vm, s.free, level - 1, log[1..], snaps[..level - 1], n, o);
    BackInv(vm, free, level, log, snaps);
    UndoRecordItems(vm, r, n);
    UndoItemsKeep(vm, Items(r), n, o);
    if vm[o].level == level {
      assert Logged(r, o);
      var x :| x in Items(r) && x.offset == o;
      if x.slot.level <= n {
        UndoItemsHit(vm, Items(r), n, x);
      }
    } else {
      UndoItemsMiss(vm, Items(r), n, o);
    }
  }

  /**
    After the first record, whether undone for level n or only for the level below, the rest of the pass is the same.
   */
  lemma RestAgrees(vm: Mem, free: nat, level: nat, log: seq<Record>, snaps: seq<Snap>, n: nat, o: nat)
    requires Inv(vm, free, level, log, snaps) && n < level - 1 && level == |log| == |snaps| && o in snaps[n].vm
    ensures var rest := log[1..][..level - n - 1];
            var one, two := UndoAll(UndoRecord(vm, log[0], n), rest, n), UndoAll(StepBack(vm, log[0]), rest, n);
            o in one && o in two && one[o] == two[o]
  {
    hide Inv, TopOk, UndoItems, Items, UndoItem, StepBack, UndoRecord, Below;
    InvTail(vm, free, level, log, snaps);
    var r, rest := log[0], log[1..][..level - n - 1];
    var back, first := StepBack(vm, r), UndoRecord(vm, r, n);
    BackInv(vm, free, level, log, snaps);
    FirstRecord(vm, free, level, log, snaps, n, o);
    if first[o] == back[o] {
      UndoAllAgree(first, back, rest, n, o);
    } else {
      Overwritten(first, back, back, r.free, level - 1, log[1..], snaps[..level - 1], n, o);
    }
  }

  /** Below the free pointer of level n + 1 the pass leaves the slots that were there when it was opened. */
  lemma RestKeys(vm: Mem, free: nat, level: nat, log: seq<Record>, snaps: seq<Snap>, n: nat, o: nat)
    requires Inv(vm, free, level, log, snaps) && n < level - 1 && level == |log| == |snaps|
    ensures var rest := log[1..][..level - n - 1];
            var one, two := UndoAll(UndoRecord(vm, log[0], n), rest, n), UndoAll(StepBack(vm, log[0]), rest, n);
            && (o in Below(one, snaps[n].free) <==> o in snaps[n].vm)
            && (o in Below(two, snaps[n].free) <==> o in snaps[n].vm)
  {
    hide Inv, TopOk, UndoItems, Items, UndoItem, StepBack, UndoRecord;
    InvTail(vm, free, level, log, snaps);
    var r, k := log[0], level - n;
    var back := StepBack(vm, r);
    BackInv(vm, free, level, log, snaps);
    assert log[..k][0] == r && log[..k][1..] == log[1..][..k - 1];
    UndoAllKeys(vm, free, level, log, snaps, vm, k, n);
    UndoAllKeys(back, r.free, level - 1, log[1..], snaps[..level - 1], back, k - 1, n);
    KeysBelow(vm, free, level, log, snaps, n, o);
    KeysBelow(back, r.free, level - 1, log[1..], snaps[..level - 1], n, o);
  }

  /**
    RestoreToLevel in one pass, skipping contents that were written above level n, leaves the same memory
    below the saved free pointer as restoring one level at a time.
   */
  lemma {:induction false} OnePassIsStepwise(vm: Mem, free: nat, level: nat, log: seq<Record>, snaps: seq<Snap>, n: nat)
    requires Inv(vm, free, level, log, snaps) && n < level == |log| == |snaps|
    requires forall i :: 0 <= i < |log| ==> log[i].level > 0
    ensures Below(UndoAll(vm, log[..level - n], n), snaps[n].free) == StepDown(vm, log, level - n)
    decreases level
  {
    hide Inv, TopOk, UndoItems, Items, UndoItem, StepBack, UndoRecord, Below;
    InvTail(vm, free, level, log, snaps);
    var k, r := level - n, log[0];
    var back := StepBack(vm, r);
    assert log[..k][0] == r && log[..k][1..] == log[1..][..k - 1];
    if k == 1 {
      LastStep(vm, r, log[..1], n);
      assert StepDown(vm, log, 1) == back;
    } else {
      BackInv(vm, free, level, log, snaps);
      OnePassIsStepwise(back, r.free, level - 1, log[1..], snaps[..level - 1], n);
      var rest := log[1..][..k - 1];
      var one, two := UndoAll(UndoRecord(vm, r, n), rest, n), UndoAll(back, rest, n);
      forall o ensures o in Below(one, snaps[n].free) <==> o in Below(two, snaps[n].free) {
        RestKeys(vm, free, level, log, snaps, n, o);
      }
      forall o | o in Below(one, snaps[n].free) ensures Below(one, snaps[n].free)[o] == Below(two, snaps[n].free)[o] {
        RestKeys(vm, free, level, log, snaps, n, o);
        RestAgrees(vm, free, level, log, snaps, n, o);
      }
      assert Below(one, snaps[n].free) == Below(two, snaps[n].free);
    }
  }

  lemma LastStep(vm: Mem, r: Record, log: seq<Record>, n: nat)
    requires log == [r] && r.level == n + 1
    ensures Below(UndoAll(vm, log, n), r.free) == StepBack(vm, r)
  {
  }

  /** Below the free pointer of a level lies exactly what was there when the level was opened. */
  lemma {:induction false} KeysBelow(vm: Mem, free: nat, level: nat, log: seq<Record>, snaps: seq<Snap>, n: nat, o: nat)
    requires Inv(vm, free, level, log, snaps) && n < level == |snaps|
    ensures o in vm && o < snaps[n].free <==> o in snaps[n].vm
    ensures snaps[n].free <= free
    decreases level
  {
    var s := snaps[level - 1];
    if n < level - 1 {
      KeysBelow(s.vm, s.free, level - 1, log[1..], snaps[..level - 1], n, o);
    }
  }

  /** After a restore to level j the records of the levels up to j are those of a valid memory. */
  lemma {:induction false} DownInv(vm: Mem, free: nat, level: nat, log: seq<Record>, snaps: seq<Snap>, j: nat)
    requires Inv(vm, free, level, log, snaps) && j < level == |log| == |snaps|
    requires forall i :: 0 <= i < |log| ==> log[i].level > 0
    ensures Inv(StepDown(vm, log, level - j), snaps[j].free, j, log[level - j..], snaps[..j])
    decreases level
  {
    hide Inv, TopOk, StepBack;
    InvTail(vm, free, level, log, snaps);
    BackInv(vm, free, level, log, snaps);
    var back := StepBack(vm, log[0]);
    if j < level - 1 {
      DownInv(back, log[0].free, level - 1, log[1..], snaps[..level - 1], j);
      assert log[1..][level - 1 - j..] == log[level - j..] && snaps[..level - 1][..j] == snaps[..j];
    } else {
      assert StepDown(vm, log, 1) == back;
    }
  }

  lemma {:induction false} StepDownSplit(vm: Mem, log: seq<Record>, a: nat, b: nat)
    requires a + b <= |log| && forall i :: 0 <= i < |log| ==> log[i].level > 0
    ensures StepDown(vm, log, a + b) == StepDown(StepDown(vm, log, a), log[a..], b)
    decreases a
  {
    if a == 0 {
      assert log[0..] == log;
    } else {
      StepDownSplit(StepBack(vm, log[0]), log[1..], a - 1, b);
      assert log[1..][a - 1..] == log[a..];
    }
  }

  /** Restoring to level j and from there to level n leaves the same memory as restoring to level n at once. */
  lemma RestoreComposes(vm: Mem, free: nat, level: nat, log: seq<Record>, snaps: seq<Snap>, j: nat, n: nat)
    requires Inv(vm, free, level, log, snaps) && n < j < level == |log| == |snaps|
    ensures var middle := Below(UndoAll(vm, log[..level - j], j), snaps[j].free);
            Below(UndoAll(middle, log[level - j..level - n], n), snaps[n].free)
            == Below(UndoAll(vm, log[..level - n], n), snaps[n].free)
  {
    hide Inv, TopOk, UndoAll, Below, StepDown;
    LevelsPositive(vm, free, level, log, snaps);
    var middle, rest := StepDown(vm, log, level - j), log[level - j..];
    OnePassIsStepwise(vm, free, level, log, snaps, j);
    OnePassIsStepwise(vm, free, level, log, snaps, n);
    DownInv(vm, free, level, log, snaps, j);
    OnePassIsStepwise(middle, snaps[j].free, j, rest, snaps[..j], n);
    StepDownSplit(vm, log, level - j, j - n);
    assert rest[..j - n] == log[level - j..level - n];
  }

  // ---------------------------------------------------------------- what writes, allocations and saves keep

  /** A slot that already carries the current level is not logged again. */
  lemma WriteAgain(vm: Mem, free: nat, level: nat, log: seq<Record>, snaps: seq<Snap>, o: nat, now: Slot)
    requires Inv(vm, free, level, log, snaps) && o in vm && vm[o].level == level == now.level
    ensures Inv(vm[o := now], free, level, log, snaps)
  {
  }

  /** The free pointer only moves up between two saves. */
  lemma MoreRoom(vm: Mem, free: nat, more: nat, level: nat, log: seq<Record>, snaps: seq<Snap>)
    requires Inv(vm, free, level, log, snaps) && free <= more
    ensures Inv(vm, more, level, log, snaps)
  {
  }

  /** New slots lie above the free pointer and carry the current level. */
  lemma NewSlot(vm: Mem, free: nat, more: nat, level: nat, log: seq<Record>, snaps: seq<Snap>, o: nat, now: Slot)
    requires Inv(vm, free, level, log, snaps) && free <= o < more && now.level == level
    ensures o !in vm && Inv(vm[o := now], more, level, log, snaps)
  {
    assert level > 0 ==> TopOk(vm[o := now], log[0], snaps[level - 1]);
  }

  /** A list with one more item somewhere, about a slot that has no item yet. */
  lemma OneMore(a: seq<Item>, x: Item, b: seq<Item>)
    requires DistinctOffsets(a + b) && forall y :: y in a + b ==> y.offset != x.offset
    ensures DistinctOffsets(a + [x] + b)
    ensures forall y :: y in a + [x] + b <==> y in a + b || y == x
  {
    var with, without := a + [x] + b, a + b;
    assert forall i :: 0 <= i < |without| ==> without[i] in without;
    assert forall i :: 0 <= i < |with| ==>
             with[i] == if i < |a| then without[i] else if i == |a| then x else without[i - 1];
    forall i, j | 0 <= i < j < |with| ensures with[i].offset != with[j].offset {
      var p, q := if i <= |a| then i else i - 1, if j <= |a| then j else j - 1;
      assert i != |a| ==> with[i] == without[p];
      assert j != |a| ==> with[j] == without[q];
    }
  }

  /** The first write to a slot at a level, together with its log item. */
  lemma FirstWrite(vm: Mem, free: nat, level: nat, log: seq<Record>, snaps: seq<Snap>, o: nat, now: Slot, r: Record,
                   a: seq<Item>, b: seq<Item>)
    requires Inv(vm, free, level, log, snaps) && o in vm && vm[o].level < level == now.level
    requires r.(objs := [], ces := [], dbs := []) == log[0].(objs := [], ces := [], dbs := [])
    requires Items(log[0]) == a + b && Items(r) == a + [Item(o, vm[o])] + b
    ensures Inv(vm[o := now], free, level, log[0 := r], snaps)
  {
    var s, x := snaps[level - 1], Item(o, vm[o]);
    assert o in s.vm && Same(vm[o], s.vm[o]);
    OneMore(a, x, b);
    forall p | p in s.vm && vm[o := now][p].level == level ensures Logged(r, p) {
      if p == o {
        assert x in Items(r);
      } else {
        assert Logged(log[0], p);
        var y :| y in Items(log[0]) && y.offset == p;
        assert y in Items(r);
      }
    }
    assert TopOk(vm[o := now], r, s);
    assert log[0 := r][1..] == log[1..];
  }

  /** Save opens a level: its record is empty and remembers where everything stood. */
  lemma OpenLevel(vm: Mem, free: nat, more: nat, level: nat, log: seq<Record>, snaps: seq<Snap>, root: Root)
    requires Inv(vm, free, level, log, snaps) && free <= more
    ensures Inv(vm, more, level + 1, [Record(level + 1, free, root, [], [], [])] + log, snaps + [Snap(vm, free, root)])
  {
    var r, s := Record(level + 1, free, root, [], [], []), Snap(vm, free, root);
    assert ([r] + log)[1..] == log && (snaps + [s])[..level] == snaps && (snaps + [s])[level] == s;
    assert TopOk(vm, r, s);
  }

  /** The newest record with the old contents of a slot at the head of the list for its kind. */
  function LogSlot(r: Record, x: Item): Record {
    match x.slot
    case Obj(_, _) => r.(objs := [x] + r.objs)
    case Entry(_, _, _) => r.(ces := [x] + r.ces)
    case Body(_, _) => r.(dbs := [x] + r.dbs)
  }

  lemma LogWrite(vm: Mem, free: nat, level: nat, log: seq<Record>, snaps: seq<Snap>, o: nat, now: Slot)
    requires Inv(vm, free, level, log, snaps) && o in vm && vm[o].level != level == now.level
    ensures vm[o].level < level && |log| > 0
    ensures Inv(vm[o := now], free, level, log[0 := LogSlot(log[0], Item(o, vm[o]))], snaps)
  {
    hide Inv, TopOk;
    InvTail(vm, free, level, log, snaps);
    var r, x := log[0], Item(o, vm[o]);
    match x.slot {
      case Obj(_, _) =>
        assert Items(LogSlot(r, x)) == [] + [x] + Items(r) && Items(r) == [] + Items(r);
        FirstWrite(vm, free, level, log, snaps, o, now, LogSlot(r, x), [], Items(r));
      case Entry(_, _, _) =>
        assert Items(LogSlot(r, x)) == r.objs + [x] + (r.ces + r.dbs) && Items(r) == r.objs + (r.ces + r.dbs);
        FirstWrite(vm, free, level, log, snaps, o, now, LogSlot(r, x), r.objs, r.ces + r.dbs);
      case Body(_, _) =>
        assert Items(LogSlot(r, x)) == (r.objs + r.ces) + [x] + r.dbs;
        FirstWrite(vm, free, level, log, snaps, o, now, LogSlot(r, x), r.objs + r.ces, r.dbs);
    }
  }

  /** No slot is logged twice in a save record, and only slots that existed when it was made are logged. */
  lemma {:induction false} LoggedOnce(vm: Mem, free: nat, level: nat, log: seq<Record>, snaps: seq<Snap>, i: nat)
    requires Inv(vm, free, level, log, snaps) && i < |log|
    ensures DistinctOffsets(Items(log[i]))
    ensures forall x :: x in Items(log[i]) ==> x.offset < log[i].free && x.slot.level < log[i].level
    decreases i
  {
    InvTail(vm, free, level, log, snaps);
    var s := snaps[level - 1];
    if i > 0 {
      LoggedOnce(s.vm, s.free, level - 1, log[1..], snaps[..level - 1], i - 1);
    }
  }

  /** What RestoreToLevel leaves behind. */
  lemma RestoreRecovers(vm: Mem, free: nat, level: nat, log: seq<Record>, snaps: seq<Snap>, n: nat)
    requires Inv(vm, free, level, log, snaps) && n < level == |log| == |snaps|
    ensures var down := Below(UndoAll(vm, log[..level - n], n), snaps[n].free);
            && Inv(down, snaps[n].free, n, log[level - n..], snaps[..n])
            && down.Keys == snaps[n].vm.Keys
            && (forall o :: o in down ==> o in vm && Same(down[o], snaps[n].vm[o]))
            && (forall o :: o in down ==> down[o] == if vm[o].level > n then Restored(snaps[n].vm[o]) else vm[o])
  {
    hide Inv, UndoAll, Below, StepDown;
    LevelsPositive(vm, free, level, log, snaps);
    OnePassIsStepwise(vm, free, level, log, snaps, n);
    StepDownValues(vm, free, level, log, snaps, n);
    DownInv(vm, free, level, log, snaps, n);
  }
}
