/**
  The virtual memory of the interpreter with its save and restore operators (PostScript/Adobe/vm.c).

  Slots are written in place, the free pointer moves up as objects and log records are allocated, and the
  chain of save records grows with save and shrinks with restore.  The ghost field snaps remembers what the
  memory was like when each level was opened; nothing but the specification uses it.
 */
module VmStore {
  import opened VmLog

  /** Sizes in bytes of the C structures, with 8-byte words. */
  const WORD: nat := 8
  const OBJECT_SIZE: nat := 16
  const BODY_SIZE: nat := 32
  const SRO_SIZE: nat := 32
  const SRC_SIZE: nat := 48
  const SRD_SIZE: nat := 48
  const SR_SIZE: nat := 152

  const MAX_LEVEL: nat := 15

  /** The contents of a null object. */
  const NULL_VALUE := 0

  datatype Status = Ok | InvalidAccess | LimitCheck | RangeCheck | InvalidRestore

  datatype Type = NullObj | IntObj | RealObj | NameObj | BoolObj | StrObj | StmObj | CmdObj | DictObj | ArrayObj
                | MarkObj | ExecObj | LoopObj | SaveObj | FontObj

  /** The types whose values are no more than the object itself holds. */
  const SIMPLE := {NullObj, IntObj, RealObj, BoolObj, MarkObj, ExecObj, LoopObj}

  /** An object on a stack: its type, and the level it was made at. */
  datatype Ref = Ref(typ: Type, level: nat)

  /** The object refers to something that was made above level n. */
  predicate Newer(x: Ref, n: nat) {
    x.typ !in SIMPLE && x.level > n
  }

  predicate AnyNewer(stack: seq<Ref>, n: nat) {
    exists i :: 0 <= i < |stack| && Newer(stack[i], n)
  }

  /** What is left of a stack, top first, once everything down to the lowest newer object has been popped. */
  function Cleaned(stack: seq<Ref>, n: nat): (rest: seq<Ref>)
    ensures !AnyNewer(rest, n)
    ensures !AnyNewer(stack, n) ==> rest == stack
    ensures |rest| <= |stack| && rest == stack[|stack| - |rest|..]
    ensures rest != stack ==> Newer(stack[|stack| - |rest| - 1], n)
  {
    if !AnyNewer(stack, n) then stack else Cleaned(stack[1..], n)
  }

  /** WordAlign: up to the next multiple of the word size. */
  function WordAlign(o: nat): (a: nat)
    ensures o <= a < o + WORD && a % WORD == 0
  {
    if o % WORD == 0 then o else o + (WORD - o % WORD)
  }

  lemma UndoRecordSteps(vm: Mem, r: Record, n: nat)
    ensures UndoRecord(vm, r, n) == UndoItems(UndoItems(UndoItems(vm, r.objs, n), r.ces, n), r.dbs, n)
  {
  }

  lemma UndoNext(vm: Mem, log: seq<Record>, k: nat, m: nat, n: nat)
    requires k < m <= |log|
    ensures UndoAll(vm, log[k..m], n) == UndoAll(UndoRecord(vm, log[k], n), log[k + 1..m], n)
  {
    hide UndoRecord;
    var rest := log[k..m];
    assert rest[0] == log[k] && rest[1..] == log[k + 1..m];
  }

  lemma UndoNone(vm: Mem, log: seq<Record>, m: nat, n: nat)
    requires m <= |log|
    ensures UndoAll(vm, log[m..m], n) == vm
  {
    assert log[m..m] == [];
  }

  /** The offset of element i of the array at a. */
  function Elem(a: nat, i: nat): nat {
    a + i * OBJECT_SIZE
  }

  /** Elements lo..hi-1 of the array at dst have taken over the values at src; nothing else has changed. */
  ghost predicate CopiedInto(was: Mem, now: Mem, level: nat, src: nat, dst: nat, lo: nat, hi: nat) {
    && now.Keys == was.Keys
    && (forall i :: lo <= i < hi && Elem(dst, i) in now && Elem(src, i) in was ==>
          now[Elem(dst, i)] == Obj(level, was[Elem(src, i)].val))
    && (forall o :: o in now && (forall i :: lo <= i < hi ==> o != Elem(dst, i)) ==> now[o] == was[o])
  }

  lemma NothingCopied(was: Mem, level: nat, src: nat, dst: nat, n: nat)
    ensures CopiedInto(was, was, level, src, dst, n, n)
  {
  }

  /** An element that has not been overwritten yet. */
  lemma SourceKept(was: Mem, now: Mem, level: nat, src: nat, dst: nat, lo: nat, hi: nat, o: nat)
    requires CopiedInto(was, now, level, src, dst, lo, hi) && o in was
    requires o < Elem(dst, lo) || Elem(dst, hi) <= o
    ensures o in now && now[o] == was[o]
  {
    forall i | lo <= i < hi ensures o != Elem(dst, i) {
    }
  }

  lemma CopiedDown(was: Mem, now: Mem, level: nat, src: nat, dst: nat, lo: nat, hi: nat)
    requires CopiedInto(was, now, level, src, dst, lo + 1, hi) && lo < hi
    requires Elem(dst, lo) in now && Elem(src, lo) in was
    ensures CopiedInto(was, now[Elem(dst, lo) := Obj(level, was[Elem(src, lo)].val)], level, src, dst, lo, hi)
  {
    var now' := now[Elem(dst, lo) := Obj(level, was[Elem(src, lo)].val)];
    forall o | o in now' && forall i :: lo <= i < hi ==> o != Elem(dst, i) ensures now'[o] == was[o] {
      assert o != Elem(dst, lo);
    }
  }

  lemma CopiedUp(was: Mem, now: Mem, level: nat, src: nat, dst: nat, lo: nat, hi: nat)
    requires CopiedInto(was, now, level, src, dst, lo, hi) && lo <= hi
    requires Elem(dst, hi) in now && Elem(src, hi) in was
    ensures CopiedInto(was, now[Elem(dst, hi) := Obj(level, was[Elem(src, hi)].val)], level, src, dst, lo, hi + 1)
  {
    var now' := now[Elem(dst, hi) := Obj(level, was[Elem(src, hi)].val)];
    forall o | o in now' && forall i :: lo <= i < hi + 1 ==> o != Elem(dst, i) ensures now'[o] == was[o] {
      assert o != Elem(dst, hi);
    }
  }

  class Store {
    var vm: Mem
    var free: nat
    var level: nat
    var root: Root
    var srList: seq<Record>   // newest record first
    ghost var snaps: seq<Snap>

    ghost predicate Valid()
      reads this
    {
      && Inv(vm, free, level, srList, snaps)
      && root.level == level <= MAX_LEVEL
      && forall k :: 0 <= k < |snaps| ==> snaps[k].root.level == k
    }

    constructor (start: nat, rest: int)
      ensures Valid() && level == 0 && vm == map[] && free == start && root == Root(0, 0, rest)
    {
      vm, free, level, srList, snaps := map[], start, 0, [], [];
      root := Root(0, 0, rest);
    }

    // -------------------------------------------------------------- allocation

    /** AllocWords for a record of n bytes. */
    method AllocWords(n: nat) returns (o: nat)
      requires Valid() && n > 0
      modifies this`free
      ensures Valid() && old(free) <= o < old(free) + WORD && o % WORD == 0 && free == o + n
    {
      o := WordAlign(free);
      MoreRoom(vm, free, o + n, level, srList, snaps);
      free := o + n;
    }

    /** The n objects of the array at a are null and of the current level, and nothing else is new since was. */
    ghost predicate Nulls(was: Mem, a: nat, n: nat)
      reads this`vm, this`level
    {
      && (forall o :: o in was ==> o in vm && vm[o] == was[o])
      && (forall i :: 0 <= i < n ==> Elem(a, i) in vm && vm[Elem(a, i)] == Obj(level, NULL_VALUE))
      && forall o :: o in vm && o !in was ==> exists i :: 0 <= i < n && o == Elem(a, i)
    }

    /** AllocArray: len null objects. */
    method AllocArray(len: nat) returns (a: nat)
      requires Valid()
      modifies this`vm, this`free
      ensures Valid() && old(free) <= a < old(free) + WORD && a % WORD == 0 && free == a + len * OBJECT_SIZE
      ensures Nulls(old(vm), a, len)
    {
      hide Inv, Nulls;
      a := WordAlign(free);
      MoreRoom(vm, free, a, level, srList, snaps);
      free := a;
      assert Nulls(old(vm), a, 0) by { NoNulls(a); }
      for i := 0 to len
        invariant Valid() && free == Elem(a, i) && Nulls(old(vm), a, i)
      {
        NewObject(old(vm), a, i);
      }
    }

    lemma NoNulls(a: nat)
      ensures Nulls(vm, a, 0)
    {
    }

    method NewObject(ghost was: Mem, ghost a: nat, ghost n: nat)
      requires Valid() && Nulls(was, a, n) && free == Elem(a, n)
      modifies this`vm, this`free
      ensures Valid() && free == Elem(a, n + 1) && Nulls(was, a, n + 1)
    {
      hide Inv;
      NewSlot(vm, free, free + OBJECT_SIZE, level, srList, snaps, free, Obj(level, NULL_VALUE));
      vm := vm[free := Obj(level, NULL_VALUE)];
      free := free + OBJECT_SIZE;
    }

    /** AllocDict: the body, and size pairs of null objects. */
    method AllocDict(size: nat, body: int) returns (d: nat, begin: nat)
      requires Valid()
      modifies this`vm, this`free
      ensures Valid() && old(free) <= d < old(free) + WORD && d % WORD == 0
      ensures begin == d + BODY_SIZE && free == begin + 2 * size * OBJECT_SIZE
      ensures d !in old(vm) && Nulls(old(vm)[d := Body(level, body)], begin, 2 * size)
    {
      hide Inv, Nulls;
      d := WordAlign(free);
      NewSlot(vm, free, d + BODY_SIZE, level, srList, snaps, d, Body(level, body));
      vm := vm[d := Body(level, body)];
      free := d + BODY_SIZE;
      begin := AllocArray(2 * size);
    }

    // -------------------------------------------------------------- writing

    /** The slot at o was of this level, and nothing was logged; or its old contents went to the newest save record. */
    twostate predicate Logged(o: nat, logSize: nat)
      reads this
    {
      && o in old(vm)
      && if old(vm)[o].level == level then free == old(free) && srList == old(srList)
         else
           && old(free) + logSize <= free < old(free) + WORD + logSize && (free - logSize) % WORD == 0
           && old(srList) != []
           && srList == old(srList)[0 := LogSlot(old(srList)[0], Item(o, old(vm)[o]))]
    }

    /** The common part of the Put procedures: log the old contents on the first write at this level. */
    method Write(o: nat, now: Slot, logSize: nat)
      requires Valid() && o in vm && now.level == level && logSize > 0
      modifies this`vm, this`free, this`srList
      ensures Valid() && vm == old(vm)[o := now] && Logged(o, logSize)
    {
      hide Inv;
      var was := vm[o];
      if was.level != level {
        var sr := AllocWords(logSize);
        LogWrite(vm, free, level, srList, snaps, o, now);
        srList := srList[0 := LogSlot(srList[0], Item(o, was))];
      } else {
        WriteAgain(vm, free, level, srList, snaps, o, now);
      }
      vm := vm[o := now];
    }

    /** VMPutElem, for an array object that may be written or not. */
    method PutElem(o: nat, val: int, writable: bool) returns (status: Status)
      requires Valid() && o in vm && vm[o].Obj?
      modifies this`vm, this`free, this`srList
      ensures Valid() && status == if writable then Ok else InvalidAccess
      ensures vm == if writable then old(vm)[o := Obj(level, val)] else old(vm)
      ensures if writable then Logged(o, SRO_SIZE) else free == old(free) && srList == old(srList)
    {
      if !writable { return InvalidAccess; }
      PutObj(o, val);
      status := Ok;
    }

    /** VMPutValue on the object slot at offset o. */
    method PutObj(o: nat, val: int)
      requires Valid() && o in vm && vm[o].Obj?
      modifies this`vm, this`free, this`srList
      ensures Valid() && vm == old(vm)[o := Obj(level, val)] && Logged(o, SRO_SIZE)
    {
      Write(o, Obj(level, val), SRO_SIZE);
    }

    /** VMPutKeyVal: key and value are neighbours, and each is logged on its own. */
    method PutKeyVal(kvo: nat, key: int, val: int)
      requires Valid() && kvo in vm && vm[kvo].Obj? && kvo + OBJECT_SIZE in vm && vm[kvo + OBJECT_SIZE].Obj?
      modifies this`vm, this`free, this`srList
      ensures Valid() && vm == old(vm)[kvo := Obj(level, key)][kvo + OBJECT_SIZE := Obj(level, val)]
    {
      Write(kvo, Obj(level, key), SRO_SIZE);
      Write(kvo + OBJECT_SIZE, Obj(level, val), SRO_SIZE);
    }

    /** VMPutDict. */
    method PutBody(d: nat, val: int)
      requires Valid() && d in vm && vm[d].Body?
      modifies this`vm, this`free, this`srList
      ensures Valid() && vm == old(vm)[d := Body(level, val)] && Logged(d, SRD_SIZE)
    {
      Write(d, Body(level, val), SRD_SIZE);
    }

    /** VMPutCE. */
    method PutEntry(o: nat, ts: nat, val: int)
      requires Valid() && o in vm && vm[o].Entry?
      modifies this`vm, this`free, this`srList
      ensures Valid() && vm == old(vm)[o := Entry(level, ts, val)] && Logged(o, SRC_SIZE)
    {
      Write(o, Entry(level, ts, val), SRC_SIZE);
    }

    ghost predicate HasArray(a: nat, len: nat)
      reads this
    {
      forall i :: 0 <= i < len ==> Elem(a, i) in vm && vm[Elem(a, i)].Obj?
    }

    ghost predicate Copied(was: Mem, src: nat, dst: nat, lo: nat, hi: nat)
      reads this`vm, this`level
    {
      CopiedInto(was, vm, level, src, dst, lo, hi)
    }

    /** The ascending loop of VMCopyArray, for a destination below the source. */
    method CopyUp(src: nat, dst: nat, count: nat)
      requires Valid() && HasArray(src, count) && HasArray(dst, count) && dst < src
      modifies this`vm, this`free, this`srList
      ensures Valid() && Copied(old(vm), src, dst, 0, count)
    {
      hide Inv, Valid, Logged, CopiedInto;
      NothingCopied(vm, level, src, dst, 0);
      for i := 0 to count
        invariant Valid() && Copied(old(vm), src, dst, 0, i)
        invariant forall j :: i <= j < count ==> Elem(dst, j) in vm && vm[Elem(dst, j)].Obj?
      {
        SourceKept(old(vm), vm, level, src, dst, 0, i, Elem(src, i));
        CopiedUp(old(vm), vm, level, src, dst, 0, i);
        PutObj(Elem(dst, i), vm[Elem(src, i)].val);
      }
    }

    /** The descending loop of VMCopyArray, for a destination above the source. */
    method CopyDown(src: nat, dst: nat, count: nat)
      requires Valid() && HasArray(src, count) && HasArray(dst, count) && src < dst
      modifies this`vm, this`free, this`srList
      ensures Valid() && Copied(old(vm), src, dst, 0, count)
    {
      hide Inv, Valid, Logged, CopiedInto;
      NothingCopied(vm, level, src, dst, count);
      var i: nat := count;
      while i > 0
        invariant 0 <= i <= count
        invariant Valid() && Copied(old(vm), src, dst, i, count)
        invariant forall j :: 0 <= j < i ==> Elem(dst, j) in vm && vm[Elem(dst, j)].Obj?
      {
        i := i - 1;
        SourceKept(old(vm), vm, level, src, dst, i + 1, count, Elem(src, i));
        CopiedDown(old(vm), vm, level, src, dst, i, count);
        PutObj(Elem(dst, i), vm[Elem(src, i)].val);
      }
    }

    /**
      VMCopyArray: the shorter length counts, and overlapping arrays are copied from the end that is safe.
      The access rights are those of the two array objects; copying an array onto itself checks neither.
     */
    method CopyArray(src: nat, srcLen: nat, dst: nat, dstLen: nat, readable: bool, writable: bool)
      returns (status: Status)
      requires Valid() && HasArray(src, srcLen) && HasArray(dst, dstLen)
      modifies this`vm, this`free, this`srList
      ensures Valid()
      ensures status == if src == dst || (readable && writable) then Ok else InvalidAccess
      ensures status == InvalidAccess || src == dst ==> vm == old(vm)
      ensures status == Ok && src != dst ==>
                Copied(old(vm), src, dst, 0, if srcLen <= dstLen then srcLen else dstLen)
    {
      hide Inv, Valid, Copied;
      var count := if srcLen <= dstLen then srcLen else dstLen;
      if dst == src {
        return Ok;
      }
      if !readable || !writable {
        return InvalidAccess;
      }
      if dst < src {
        CopyUp(src, dst, count);
      } else {
        CopyDown(src, dst, count);
      }
      status := Ok;
    }

    // -------------------------------------------------------------- save and restore

    /** Save: open a level. */
    method Save() returns (status: Status)
      requires Valid()
      modifies this
      ensures Valid() && vm == old(vm)
      ensures status == if old(level) >= MAX_LEVEL then LimitCheck else Ok
      ensures status == LimitCheck ==>
                level == old(level) && snaps == old(snaps) && root == old(root) && free == old(free)
      ensures status == Ok ==> level == old(level) + 1 && snaps == old(snaps) + [Snap(old(vm), old(free), old(root))]
      ensures status == Ok ==> old(free) + SR_SIZE <= free < old(free) + WORD + SR_SIZE && (free - SR_SIZE) % WORD == 0
      ensures status == Ok ==> root == Root(level, free - SR_SIZE, old(root).rest)
    {
      if level >= MAX_LEVEL {
        return LimitCheck;
      }
      hide Inv;
      var sro := WordAlign(free);
      OpenLevel(vm, free, sro + SR_SIZE, level, srList, snaps, root);
      snaps := snaps + [Snap(vm, free, root)];
      srList := [Record(level + 1, free, root, [], [], [])] + srList;
      free := sro + SR_SIZE;
      level := level + 1;
      root := root.(level := level, sr := sro);
      status := Ok;
    }

    /** RestoreObj, RestoreCE and RestoreDB walk one list of a record. */
    method RestoreList(items: seq<Item>, n: nat)
      modifies this`vm
      ensures vm == UndoItems(old(vm), items, n)
    {
      var rest := items;
      while rest != []
        invariant UndoItems(vm, rest, n) == UndoItems(old(vm), items, n)
        decreases |rest|
      {
        var x := rest[0];
        if x.slot.level <= n {
          vm := vm[x.offset := Restored(x.slot)];
        }
        rest := rest[1..];
      }
    }

    /** What one save record brings back. */
    method RestoreRecord(r: Record, n: nat)
      modifies this`vm, this`root, this`free
      ensures vm == UndoRecord(old(vm), r, n) && root == r.root && free == r.free
    {
      hide UndoRecord;
      UndoRecordSteps(vm, r, n);
      RestoreList(r.objs, n);
      RestoreList(r.ces, n);
      RestoreList(r.dbs, n);
      root := r.root;
      free := r.free;
    }

    /**
      RestoreToLevel: one pass over the records above level n.  Every slot that existed when level n + 1 was
      opened is what it was then, except that a cache entry written since has lost its timestamp; slots
      created since are gone.
     */
    method RestoreToLevel(n: nat)
      requires Valid() && n <= level
      modifies this
      ensures Valid() && level == n && snaps == old(snaps)[..n]
      ensures n < old(level) ==>
                var was := old(snaps)[n];
                && free == was.free && root == was.root && vm.Keys == was.vm.Keys
                && forall o :: o in vm ==>
                     && o in old(vm) && Same(vm[o], was.vm[o])
                     && vm[o] == if old(vm)[o].level > n then Restored(was.vm[o]) else old(vm)[o]
      ensures n == old(level) ==> vm == old(vm) && free == old(free) && root == old(root)
    {
      hide Inv, Below, UndoRecord, UndoAll;
      ghost var was, log, m := vm, srList, level - n;
      LevelsPositive(vm, free, level, srList, snaps);
      ghost var k := 0;
      var sr := srList;
      while sr != []
        modifies this`vm, this`root, this`free
        invariant 0 <= k <= m && sr == log[k..]
        invariant UndoAll(vm, log[k..m], n) == UndoAll(was, log[..m], n)
        invariant k == 0 ==> root == old(root) && free == old(free) && vm == was
        invariant k > 0 ==> root == log[k - 1].root && free == log[k - 1].free
        decreases |sr|
      {
        var r := sr[0];
        assert r == log[k];
        if r.level == n {
          break;
        }
        UndoNext(vm, log, k, m, n);
        RestoreRecord(r, n);
        sr := sr[1..];
        k := k + 1;
      }
      assert k == m;
      UndoNone(vm, log, m, n);
      srList := sr;
      if n < level {
        RestoreRecovers(was, old(free), level, log, snaps, n);
        vm := Below(vm, free);  // what lies above the free pointer no longer holds slots
      } else {
        assert srList == log && snaps[..n] == snaps;
      }
      snaps := snaps[..n];
      level := n;
    }

    /** The save operator: the save object carries the level to go back to. */
    method SaveOperator() returns (status: Status, sv: nat)
      requires Valid()
      modifies this
      ensures Valid() && vm == old(vm) && sv == old(level)
      ensures status == if old(level) >= MAX_LEVEL then LimitCheck else Ok
      ensures status == Ok ==> level == sv + 1 && snaps == old(snaps) + [Snap(old(vm), old(free), old(root))]
      ensures status == LimitCheck ==> level == sv && snaps == old(snaps) && root == old(root) && free == old(free)
    {
      sv := level;
      status := Save();
    }

    method CheckStack(stack: seq<Ref>, n: nat) returns (r: bool)
      ensures r <==> AnyNewer(stack, n)
    {
      for i := 0 to |stack|
        invariant forall j :: 0 <= j < i ==> !Newer(stack[j], n)
      {
        if stack[i].level > n {
          match stack[i].typ
          case StrObj | StmObj | CmdObj | DictObj | ArrayObj | NameObj | SaveObj | FontObj => return true;
          case _ =>
        }
      }
      r := false;
    }

    /** CleanStack: finds the lowest newer object, and pops down to it. */
    method CleanStack(stack: seq<Ref>, n: nat) returns (rest: seq<Ref>)
      ensures rest == Cleaned(stack, n)
    {
      var base := 0;
      for i := 0 to |stack|
        invariant base <= i
        invariant base > 0 ==> Newer(stack[base - 1], n)
        invariant forall j :: base <= j < i ==> !Newer(stack[j], n)
      {
        if stack[i].level > n {
          match stack[i].typ
          case StrObj | StmObj | CmdObj | DictObj | ArrayObj | NameObj | SaveObj | FontObj => base := i + 1;
          case _ =>
        }
      }
      rest := stack[base..];
      CleanedFrom(stack, n, base);
    }

    /**
      The restore operator: only a level below the current one is accepted.  The stacks are checked when the memory
      has been restored: invalidrestore does not undo that, and takes what is newer off the stacks.
     */
    method RestoreOperator(sv: nat, ops: seq<Ref>, dicts: seq<Ref>, execs: seq<Ref>)
      returns (status: Status, ops': seq<Ref>, dicts': seq<Ref>)
      requires Valid()
      modifies this
      ensures Valid()
      ensures status == RangeCheck || status == InvalidRestore || status == Ok
      ensures status == RangeCheck <==> sv >= old(level)
      ensures status == InvalidRestore <==>
                sv < old(level)
                && exists x :: (x in ops || x in dicts || x in execs) && x.typ !in SIMPLE && x.level > sv
      ensures status == RangeCheck ==>
                vm == old(vm) && level == old(level) && snaps == old(snaps) && ops' == ops && dicts' == dicts
      ensures status != RangeCheck ==> ops' == Cleaned(ops, sv) && dicts' == Cleaned(dicts, sv)
      ensures status != RangeCheck ==> forall x :: x in ops' || x in dicts' ==> x.typ in SIMPLE || x.level <= sv
      ensures status != RangeCheck ==>
                var was := old(snaps)[sv];
                && level == sv && snaps == old(snaps)[..sv]
                && free == was.free && root == was.root && vm.Keys == was.vm.Keys
                && forall o :: o in vm ==>
                     && o in old(vm) && Same(vm[o], was.vm[o])
                     && vm[o] == if old(vm)[o].level > sv then Restored(was.vm[o]) else old(vm)[o]
    {
      hide AnyNewer, Cleaned;
      ops', dicts' := ops, dicts;
      if sv >= level { return RangeCheck, ops', dicts'; }
      SomeNewer(ops, sv);
      SomeNewer(dicts, sv);
      SomeNewer(execs, sv);
      RestoreToLevel(sv);
      var newOps := CheckStack(ops, sv);
      if newOps {
        ops' := CleanStack(ops, sv);
        dicts' := CleanStack(dicts, sv);
        return InvalidRestore, ops', dicts';
      }
      var newDicts := CheckStack(dicts, sv);
      if newDicts {
        dicts' := CleanStack(dicts, sv);
        return InvalidRestore, ops', dicts';
      }
      var newExecs := CheckStack(execs, sv);
      status := if newExecs then InvalidRestore else Ok;
    }
  }

  /** What makes restore refuse a stack, in terms of the types and levels of its objects; and what is then left. */
  lemma SomeNewer(stack: seq<Ref>, n: nat)
    ensures AnyNewer(stack, n) <==> exists x :: x in stack && x.typ !in SIMPLE && x.level > n
    ensures !AnyNewer(stack, n) ==> Cleaned(stack, n) == stack
    ensures forall x :: x in Cleaned(stack, n) ==> x.typ in SIMPLE || x.level <= n
  {
    hide Cleaned;
    var rest := Cleaned(stack, n);
    forall x | x in rest ensures x.typ in SIMPLE || x.level <= n {
      var i :| 0 <= i < |rest| && rest[i] == x;
      assert !Newer(rest[i], n);
    }
    if AnyNewer(stack, n) {
      var i :| 0 <= i < |stack| && Newer(stack[i], n);
      assert stack[i] in stack;
    }
    if x :| x in stack && x.typ !in SIMPLE && x.level > n {
      var i :| 0 <= i < |stack| && stack[i] == x;
      assert Newer(stack[i], n);
    }
  }

  /** What is left is all that lies under the lowest object of a composite type made above the level. */
  lemma CleanedMeans(stack: seq<Ref>, n: nat, k: nat)
    requires k < |stack| && stack[k].typ !in SIMPLE && stack[k].level > n
    requires forall i :: k < i < |stack| ==> stack[i].typ in SIMPLE || stack[i].level <= n
    ensures Cleaned(stack, n) == stack[k + 1..]
  {
    CleanedFrom(stack, n, k + 1);
  }

  /** save 5 exch restore: the integer is of the level that restore undoes, and is left alone. */
  method IntegerStays() returns (status: Status, ops: seq<Ref>)
    ensures status == Ok && ops == [Ref(IntObj, 1)]
  {
    var store := new Store(0, 0);
    var saved, sv := store.SaveOperator();
    SomeNewer([Ref(IntObj, 1)], 0);
    var dicts;
    status, ops, dicts := store.RestoreOperator(sv, [Ref(IntObj, 1)], [], []);
  }

  /** save () exch restore: the string is of that level too, and has to go. */
  method StringGoes() returns (status: Status, ops: seq<Ref>)
    ensures status == InvalidRestore && ops == []
  {
    var store := new Store(0, 0);
    var saved, sv := store.SaveOperator();
    CleanedMeans([Ref(StrObj, 1)], 0, 0);
    assert Ref(StrObj, 1) in [Ref(StrObj, 1)];
    var dicts;
    status, ops, dicts := store.RestoreOperator(sv, [Ref(StrObj, 1)], [], []);
  }

  lemma {:induction false} CleanedFrom(stack: seq<Ref>, n: nat, base: nat)
    requires base <= |stack| && (base > 0 ==> Newer(stack[base - 1], n))
    requires forall j :: base <= j < |stack| ==> !Newer(stack[j], n)
    ensures Cleaned(stack, n) == stack[base..]
  {
    if base > 0 {
      CleanedFrom(stack[1..], n, base - 1);
    }
  }
}
