/**
  Any operators on the dictionaries between a save and its restore, and what restore does to the memory they live in.
 */
module PsRestore {
  import opened PsDict
  import opened PsDictRuns
  import opened PsDictStack
  import opened PsNameCache
  import opened PsSince
  import opened VmLog
  import opened Wrappers

  /** An operator on dictionaries, dict, readonly and noaccess included. */
  datatype Act = Run(op: Op) | MakeDict(at: nat, maxlength: nat) | TakeWrite(d: nat) | TakeAccess(d: nat)

  /** The operands exist; those of MakeDict say where the memory puts the new dictionary. */
  predicate Exists(act: Act, dicts: set<nat>) {
    match act
    case Run(BeginOp(d)) => d in dicts
    case Run(PutOp(d, _, _)) => d in dicts
    case Run(_) => true
    case MakeDict(at, _) => at !in dicts
    case TakeWrite(d) => d in dicts
    case TakeAccess(d) => d in dicts
  }

  function DictsAfter(act: Act, dicts: set<nat>): set<nat> {
    if act.MakeDict? && act.maxlength <= MAX_DICT_LENGTH then dicts + {act.at} else dicts
  }

  /** Every operand exists when its operator runs, be it older or newer than the start. */
  predicate RunsOn(acts: seq<Act>, dicts: set<nat>, names: nat)
    decreases |acts|
  {
    acts != [] ==>
      && Exists(acts[0], dicts) && (acts[0].Run? ==> Named(acts[0].op, names))
      && RunsOn(acts[1..], DictsAfter(acts[0], dicts), names)
  }

  /** What an operator does, in terms of the dictionaries and of what the cache comes to say. */
  ghost predicate Did(s: State, s': State, act: Act)
    requires s.stack != [] && s.stack[0] in s.dicts && Exists(act, s.dicts.Keys)
    requires act.Run? ==> Named(act.op, |s.cache|)
  {
    match act
    case Run(LoadOp(n)) =>
      && s' == s.(cache := s'.cache) && exists r :: LoadMeaning(s, n, r) && (r.Found? ==> Hit(s', n))
    case Run(DefOp(key, value)) => exists r :: PutMeaning(s, s', s.stack[0], key, value, true, true, r)
    case Run(PutOp(d, key, value)) => exists r :: PutMeaning(s, s', d, key, value, false, true, r)
    case Run(StoreOp(n, value)) =>
      exists found ::
        && LoadMeaning(s, n, found)
        && if found.Found? || found.NotFound? then
             var d := if found.Found? then found.dict else s.stack[0];
             d in s.dicts && PutInto(s.dicts, s'.dicts, d, NameKey(n), value, PutOutcome(s.dicts[d], NameKey(n), true))
           else s' == s
    case Run(BeginOp(d)) =>
      s'.dicts == s.dicts && s'.stack == if s.dicts[d].access == Access(false, false) then s.stack else [d] + s.stack
    case Run(EndOp) => s'.dicts == s.dicts && s'.stack == if |s.stack| > 2 then s.stack[1..] else s.stack
    case MakeDict(at, maxlength) =>
      if maxlength > MAX_DICT_LENGTH then s' == s
      else at in s'.dicts && s'.dicts == s.dicts[at := s'.dicts[at]] && Contents(s'.dicts[at].cells) == map[]
    case TakeWrite(d) =>
      s'.dicts == if s.dicts[d].access.read then s.dicts[d := s.dicts[d].(access := Access(true, false))] else s.dicts
    case TakeAccess(d) => s'.dicts == s.dicts[d := s.dicts[d].(access := Access(false, false))]
  }

  /** Any operator, whatever it does to the cache's answers: wraps, errors and shadowing puts included. */
  method Operate(c: Dictionaries, act: Act) returns (ghost more: set<nat>)
    requires Sound(c.Now()) && Exists(act, c.dicts.Keys) && (act.Run? ==> Named(act.op, |c.cache|))
    modifies c
    ensures Sound(c.Now()) && |c.cache| == |old(c.cache)| && c.dicts.Keys == DictsAfter(act, old(c.dicts.Keys))
    ensures old(c.stack) != [] && old(c.stack)[0] in old(c.dicts)
    ensures Did(old(c.Now()), c.Now(), act) && Stepped(old(c.Now()), c.Now(), more)
    ensures more == if c.timestamp < old(c.timestamp) then AllNames(old(c.Now())) else Changed(old(c.Now()), c.Now())
  {
    hide Sound, PutMeaning, PutInto, LoadMeaning, Current, NilFree, Contents;
    ghost var s := c.Now();
    SoundFacts(s);
    more := {};
    match act
    case Run(LoadOp(n)) =>
      var r := c.TryToLoad(n);
      more := Changed(s, c.Now());
    case Run(DefOp(key, value)) =>
      var r := c.Def(key, value);
      PutFrame(s, c.Now(), s.stack[0], key, value, true, r);
      more := Changed(s, c.Now());
    case Run(StoreOp(n, value)) =>
      var found, r := c.Store(n, value);
      StoreFrame(s, c.Now(), found, r, n, value);
      more := Changed(s, c.Now());
    case Run(PutOp(d, key, value)) =>
      var r := c.PutTo(d, key, value);
      PutFrame(s, c.Now(), d, key, value, false, r);
      more := Changed(s, c.Now());
    case Run(BeginOp(d)) =>
      var ok := c.Begin(d);
      more := if ok && s.timestamp + 1 == MAX_CARDINAL then AllNames(s) else {};
      assert !ok || s.timestamp + 1 < MAX_CARDINAL ==> Changed(s, c.Now()) == {};
    case Run(EndOp) =>
      var ok := c.End();
      more := if ok && s.timestamp + 1 == MAX_CARDINAL then AllNames(s) else {};
      assert !ok || s.timestamp + 1 < MAX_CARDINAL ==> Changed(s, c.Now()) == {};
    case MakeDict(at, maxlength) =>
      var ok := c.NewDict(at, maxlength);
      assert Changed(s, c.Now()) == {};
    case TakeWrite(d) =>
      var ok := c.ReadOnlyDict(d);
      more := Changed(s, c.Now());
    case TakeAccess(d) =>
      c.NoAccess(d);
      more := Changed(s, c.Now());
  }

  lemma SoundFacts(s: State)
    requires Sound(s)
    ensures s.stack != [] && s.stack[0] in s.dicts && s.timestamp < MAX_CARDINAL
  {
  }

  lemma PutFrame(s: State, s': State, d: nat, key: Key, value: Value, top: bool, r: Put)
    requires d in s.dicts && PutMeaning(s, s', d, key, value, top, true, r)
    ensures s'.stack == s.stack && s'.timestamp == s.timestamp && |s'.cache| == |s.cache|
    ensures s'.dicts.Keys == s.dicts.Keys
  {
  }

  lemma StoreFrame(s: State, s': State, found: Load, r: Option<Put>, n: nat, value: Value)
    requires r.None? ==> s' == s
    requires r.Some? ==>
               s.stack != [] && var d := if found.Found? then found.dict else s.stack[0];
                                d in s.dicts && PutInto(s.dicts, s'.dicts, d, NameKey(n), value, r.value)
    ensures s'.dicts.Keys == s.dicts.Keys
  {
  }

  /** Any operators after a save, on dictionaries made before it or after. */
  method OperateAll(c: Dictionaries, acts: seq<Act>) returns (ghost written: set<nat>, ghost moved: bool)
    requires Sound(c.Now()) && RunsOn(acts, c.dicts.Keys, |c.cache|)
    modifies c
    ensures Sound(c.Now()) && Since(old(c.Now()), c.Now(), written, moved)
  {
    hide Sound, Since, Stepped, Named, Exists, DictsAfter, Moves;
    ghost var s0, names := c.Now(), |c.cache|;
    written, moved := {}, false;
    SaveIsSince(s0);
    var i := 0;
    assert acts[0..] == acts;
    while i < |acts|
      invariant 0 <= i <= |acts| && |c.cache| == names
      invariant Sound(c.Now()) && Since(s0, c.Now(), written, moved)
      invariant RunsOn(acts[i..], c.dicts.Keys, names)
    {
      assert acts[i..][0] == acts[i] && acts[i..][1..] == acts[i + 1..];
      ghost var s := c.Now();
      ghost var more := Operate(c, acts[i]);
      StepSince(s0, s, c.Now(), written, moved, more);
      written, moved := written + more, moved || Moves(s, c.Now());
      i := i + 1;
    }
  }

  // ---------------------------------------------------------------- the memory behind it

  /** Everything but cache entries. */
  function NoEntries(vm: Mem): Mem {
    map o | o in vm && !vm[o].Entry? :: vm[o]
  }

  /** The cache in the memory: names entries from c on, whose contents decode reads. */
  function CacheAt(vm: Mem, c: nat, names: nat, decode: int -> PsNameCache.Entry): (cache: seq<PsNameCache.Entry>)
    requires forall i :: 0 <= i < names ==> At(c, i) in vm && vm[At(c, i)].Entry?
    ensures |cache| == names
  {
    seq(names, i requires 0 <= i < names => decode(vm[At(c, i)].val).(ts := vm[At(c, i)].ts))
  }

  const ENTRY_SIZE: nat := 32

  function At(c: nat, i: nat): nat {
    c + i * ENTRY_SIZE
  }

  /**
    What VmStore.Store.RestoreOperator does to the memory is what Restores says of dictionaries and cache, for any
    way to read dictionaries off the other slots and entries off their contents.
   */
  lemma MemoryRestores(was: Mem, before: Mem, now: Mem, n: nat, c: nat, names: nat,
                       view: Mem -> Dicts, decode: int -> PsNameCache.Entry)
    requires now.Keys == was.Keys
    requires forall o :: o in now ==>
               && o in before && Same(now[o], was[o])
               && now[o] == if before[o].level > n then Restored(was[o]) else before[o]
    requires forall i :: 0 <= i < names ==> At(c, i) in was && was[At(c, i)].Entry?
    requires forall i :: 0 <= i < names ==> before[At(c, i)].Entry?
    ensures view(NoEntries(now)) == view(NoEntries(was))
    ensures forall i :: 0 <= i < names ==> now[At(c, i)].Entry?
    ensures var written := set i: nat | i < names && before[At(c, i)].level > n;
            var then', there, here := CacheAt(was, c, names, decode), CacheAt(before, c, names, decode),
                                      CacheAt(now, c, names, decode);
            && (forall i :: 0 <= i < names ==> here[i] == if i in written then then'[i].(ts := 0) else there[i])
            && (forall i :: 0 <= i < names && i !in written ==> Faded(there[i], then'[i]))
  {
    forall o | o in was && !was[o].Entry? ensures now[o] == was[o] {
    }
    assert NoEntries(now) == NoEntries(was);
    forall i | 0 <= i < names ensures now[At(c, i)].Entry? {
      assert At(c, i) in now;
    }
  }
}
