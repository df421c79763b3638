/**
  Runs of the dictionary operators against an interpreter that keeps no cache: dictionaries are finite maps, and a
  name is looked up by going down the dictionary stack.  Two runs at the end show what the side conditions are for.
 */
module PsDictRuns {
  import opened PsDict
  import opened PsDictStack
  import opened PsNameCache
  import opened PsSince
  import opened Wrappers

  datatype NaiveDict = NaiveDict(entries: map<Key, Value>, maxlength: nat, access: Access)

  datatype Naive = Naive(dicts: map<nat, NaiveDict>, stack: seq<nat>)

  datatype Op = LoadOp(n: nat) | DefOp(key: Key, value: Value) | StoreOp(n: nat, value: Value)
              | PutOp(d: nat, key: Key, value: Value) | BeginOp(d: nat) | EndOp

  datatype Answer = Loaded(value: Value) | Undefined | Ok_ | Error(put: Put) | Underflow

  function NaiveTop(dicts: map<nat, NaiveDict>, stack: seq<nat>, key: Key): (t: Option<nat>)
    ensures t.Some? ==> t.value in dicts && key in dicts[t.value].entries
  {
    if stack == [] then None
    else if stack[0] in dicts && key in dicts[stack[0]].entries then Some(stack[0])
    else NaiveTop(dicts, stack[1..], key)
  }

  function NaivePut(s: Naive, d: nat, key: Key, value: Value): (Naive, Answer)
    requires d in s.dicts
  {
    var x := s.dicts[d];
    if !x.access.write then (s, Error(Denied))
    else if key.NullKey? then (s, Error(NullKeyGiven))
    else if key !in x.entries && |x.entries| >= x.maxlength then (s, Error(DictFull))
    else (s.(dicts := s.dicts[d := x.(entries := x.entries[key := value])]), Ok_)
  }

  /** What each operator means when there is no cache. */
  function NaiveStep(s: Naive, op: Op): (Naive, Answer)
    requires Legal(s, op)
  {
    match op
    case LoadOp(n) =>
      var t := NaiveTop(s.dicts, s.stack, NameKey(n));
      (s, if t.Some? then Loaded(s.dicts[t.value].entries[NameKey(n)]) else Undefined)
    case DefOp(key, value) => NaivePut(s, s.stack[0], key, value)
    case StoreOp(n, value) =>
      var t := NaiveTop(s.dicts, s.stack, NameKey(n));
      NaivePut(s, if t.Some? then t.value else s.stack[0], NameKey(n), value)
    case PutOp(d, key, value) => NaivePut(s, d, key, value)
    case BeginOp(d) => if s.dicts[d].access.read then (s.(stack := [d] + s.stack), Ok_) else (s, Error(Denied))
    case EndOp => if |s.stack| > 2 then (s.(stack := s.stack[1..]), Ok_) else (s, Underflow)
  }

  /** The operands are dictionaries that exist, and a dput of a new name is not into a dictionary on the stack. */
  predicate Legal(s: Naive, op: Op) {
    && s.stack != [] && (forall d :: d in s.stack ==> d in s.dicts)
    && match op
       case BeginOp(d) => d in s.dicts
       case PutOp(d, key, _) => d in s.dicts && (key.NameKey? && key !in s.dicts[d].entries ==> d !in s.stack)
       case _ => true
  }

  /** The names in op are below names. */
  predicate Named(op: Op, names: nat) {
    match op
    case LoadOp(n) => n < names
    case StoreOp(n, _) => n < names
    case DefOp(key, _) => key.NameKey? ==> key.nval < names
    case PutOp(_, key, _) => key.NameKey? ==> key.nval < names
    case _ => true
  }

  // ---------------------------------------------------------------- the abstraction

  ghost function AbsDict(d: Dict): NaiveDict {
    NaiveDict(Contents(d.cells), d.maxlength, d.access)
  }

  ghost function AbsDicts(dicts: Dicts): (naive: map<nat, NaiveDict>)
    ensures naive.Keys == dicts.Keys && forall d :: d in dicts ==> naive[d] == AbsDict(dicts[d])
  {
    map d | d in dicts :: AbsDict(dicts[d])
  }

  ghost function Abs(s: State): Naive {
    Naive(AbsDicts(s.dicts), s.stack)
  }

  /** Only noaccess takes the right to read away, and it takes the right to write too. */
  ghost predicate AccessOk(dicts: Dicts) {
    forall d :: d in dicts && !dicts[d].access.read ==> !dicts[d].access.write
  }

  /** A state in which the cache is a faithful short cut; dictionaries that are not on the stack may be unreadable. */
  ghost predicate Good(s: State) {
    Sound(s) && NilFree(s) && AllCurrent(s) && AllReadable(s.dicts, s.stack) && AccessOk(s.dicts)
  }

  lemma HeldMeans(d: Dict, key: Key)
    requires Ok(d) && !key.NullKey?
    ensures Holds(d, key) <==> key in Contents(d.cells)
  {
    hide Contents, Count;
    ContentsMeaning(d.cells);
  }

  lemma {:induction false} TopMeans(dicts: Dicts, stack: seq<nat>, key: Key)
    requires DictsOk(dicts) && !key.NullKey?
    ensures NaiveTop(AbsDicts(dicts), stack, key) == Topmost(dicts, stack, key)
  {
    hide Ok, Contents, Holds;
    if stack != [] {
      TopMeans(dicts, stack[1..], key);
      if stack[0] in dicts {
        HeldMeans(dicts[stack[0]], key);
      }
    }
  }

  lemma LoadMeans(s: State, n: nat, r: Load)
    requires Good(s) && Plain(s.dicts, s.stack, NameKey(n), r) && (r.Found? || r.NotFound?) && Legal(Abs(s), LoadOp(n))
    ensures r.Found? ==> r.dict in s.dicts && r.loc < |s.dicts[r.dict].cells|
    ensures NaiveStep(Abs(s), LoadOp(n)).1
            == if r.Found? then Loaded(s.dicts[r.dict].cells[r.loc].value) else Undefined
  {
    hide Ok, Contents, Topmost, NaiveTop;
    TopMeans(s.dicts, s.stack, NameKey(n));
    if r.Found? {
      CellMeans(s.dicts[r.dict], r.loc);
    }
  }

  lemma CellMeans(d: Dict, loc: nat)
    requires Ok(d) && loc < |d.cells| && !d.cells[loc].key.NullKey?
    ensures d.cells[loc].key in Contents(d.cells) && Contents(d.cells)[d.cells[loc].key] == d.cells[loc].value
  {
    hide Contents, Count;
    ContentsMeaning(d.cells);
  }

  function AnswerOf(r: Put): Answer {
    if r.Done? then Ok_ else Error(r)
  }

  lemma PutMeans(s: State, dicts': Dicts, d: nat, key: Key, value: Value, r: Put)
    requires Sound(s) && AllReadable(s.dicts, s.stack) && AccessOk(s.dicts) && d in s.dicts
    requires r == PutOutcome(s.dicts[d], key, true) && PutInto(s.dicts, dicts', d, key, value, r)
    ensures NaivePut(Abs(s), d, key, value) == (Naive(AbsDicts(dicts'), s.stack), AnswerOf(r))
    ensures AllReadable(dicts', s.stack) && AccessOk(dicts')
    ensures dicts'.Keys == s.dicts.Keys && forall e :: e in dicts' ==> dicts'[e].access == s.dicts[e].access
  {
    hide Ok, Contents, Holds, EntriesOk;
    assert Ok(s.dicts[d]);
    if !key.NullKey? {
      HeldMeans(s.dicts[d], key);
    }
    assert s.dicts[d].curlength == |Contents(s.dicts[d].cells)| by { LengthMeans(s.dicts[d]); }
    if r.Done? {
      assert dicts'[d].maxlength == s.dicts[d].maxlength && dicts'[d].access == s.dicts[d].access;
      assert AbsDicts(dicts') == AbsDicts(s.dicts)[d := AbsDict(dicts'[d])];
    }
  }

  lemma NilFreeOutcome(s: State, d: nat, key: Key)
    requires NilFree(s) && d in s.dicts
    ensures PutAnswer(s, d, key, true) == PutOutcome(s.dicts[d], key, true)
  {
  }

  lemma LengthMeans(d: Dict)
    requires Ok(d)
    ensures d.curlength == |Contents(d.cells)|
  {
    hide Contents, Count;
    ContentsSize(d.cells);
  }

  // ---------------------------------------------------------------- runs

  /** How far the operator advances the timestamp. */
  function Ticks(op: Op): nat {
    if op.BeginOp? || op.EndOp? then 1 else 0
  }

  function AllTicks(ops: seq<Op>): nat {
    if ops == [] then 0 else Ticks(ops[0]) + AllTicks(ops[1..])
  }

  method Perform(c: Dictionaries, op: Op) returns (a: Answer)
    requires Good(c.Now()) && Legal(Abs(c.Now()), op) && Named(op, |c.cache|)
    requires c.timestamp + Ticks(op) < MAX_CARDINAL
    modifies c
    ensures Good(c.Now()) && |c.cache| == |old(c.cache)| && c.timestamp <= old(c.timestamp) + Ticks(op)
    ensures (Abs(c.Now()), a) == NaiveStep(old(Abs(c.Now())), op)
    ensures Stepped(old(c.Now()), c.Now(), Changed(old(c.Now()), c.Now())) && c.dicts.Keys == old(c.dicts.Keys)
    ensures forall d :: d in c.dicts ==> c.dicts[d].access == old(c.dicts)[d].access
  {
    hide EntriesOk, DictsOk, Current, PutMeaning, Plain, Topmost, NaiveTop, Shadows, NilFree, NaivePut, PutAnswer;
    hide PutInto, PutOutcome, LoadMeaning, OnTopFor, Forgotten, Stepped, Changed, AbsDicts;
    ghost var s := c.Now();
    match op {
      case LoadOp(n) =>
        var r := c.LoadName(n);
        LoadMeans(s, n, r);
        a := if r.Found? then Loaded(c.dicts[r.dict].cells[r.loc].value) else Undefined;
      case DefOp(key, value) =>
        var r := c.Def(key, value);
        PutParts(s, c.Now(), s.stack[0], key, value, true, r);
        NilFreeOutcome(s, s.stack[0], key);
        PutMeans(s, c.dicts, s.stack[0], key, value, r);
        a := AnswerOf(r);
      case StoreOp(n, value) =>
        var found, r := c.Store(n, value);
        ReadableLoad(s, n, found);
        LoadTarget(s, n, found);
        TopMeans(s.dicts, s.stack, NameKey(n));
        PutMeans(s, c.dicts, if found.Found? then found.dict else s.stack[0], NameKey(n), value, r.value);
        a := AnswerOf(r.value);
      case PutOp(d, key, value) =>
        OffStack(s, d, key);
        var r := c.PutTo(d, key, value);
        PutParts(s, c.Now(), d, key, value, false, r);
        NilFreeOutcome(s, d, key);
        PutMeans(s, c.dicts, d, key, value, r);
        a := AnswerOf(r);
      case BeginOp(d) =>
        var ok := c.Begin(d);
        if ok { Restarted(s, c.Now()); }
        a := if ok then Ok_ else Error(Denied);
      case EndOp =>
        var ok := c.End();
        if ok { Restarted(s, c.Now()); }
        a := if ok then Ok_ else Underflow;
    }
    ForwardStep(s, c.Now());
  }

  lemma Restarted(s: State, s1: State)
    requires NilFree(s) && s1.cache == s.cache && NoHits(s1)
    ensures NilFree(s1) && AllCurrent(s1)
  {
  }

  /** A legal dput does not shadow anything. */
  lemma OffStack(s: State, d: nat, key: Key)
    requires Good(s) && Legal(Abs(s), PutOp(d, key, 0))
    ensures key.NameKey? ==> !Shadows(s, d, key.nval)
  {
    hide Ok, Contents, Holds, EntriesOk;
    if key.NameKey? {
      HeldMeans(s.dicts[d], key);
      if d !in s.stack {
        NotOnTop(s.dicts, s.stack, d, key);
      }
    }
  }

  lemma {:induction false} NotOnTop(dicts: Dicts, stack: seq<nat>, d: nat, key: Key)
    requires d !in stack
    ensures !OnTopFor(dicts, stack, d, key)
  {
    if stack != [] {
      NotOnTop(dicts, stack[1..], d, key);
    }
  }

  /** Every operation of the run is legal where it stands. */
  predicate LegalRun(s: Naive, ops: seq<Op>, names: nat)
    decreases |ops|
  {
    ops != [] ==> Legal(s, ops[0]) && Named(ops[0], names) && LegalRun(NaiveStep(s, ops[0]).0, ops[1..], names)
  }

  function NaiveRun(s: Naive, ops: seq<Op>, names: nat): (r: (Naive, seq<Answer>))
    requires LegalRun(s, ops, names)
    decreases |ops|
  {
    if ops == [] then (s, [])
    else
      var step := NaiveStep(s, ops[0]);
      var rest := NaiveRun(step.0, ops[1..], names);
      (rest.0, [step.1] + rest.1)
  }

  /**
    With the cache every run gives the answers, and leaves the dictionaries, that it would without, as long as its
    begins and ends do not make the timestamp wrap.
   */
  method Replay(c: Dictionaries, ops: seq<Op>) returns (answers: seq<Answer>)
    requires Good(c.Now()) && LegalRun(Abs(c.Now()), ops, |c.cache|)
    requires c.timestamp + AllTicks(ops) < MAX_CARDINAL
    modifies c
    ensures Good(c.Now())
    ensures (Abs(c.Now()), answers) == NaiveRun(old(Abs(c.Now())), ops, old(|c.cache|))
  {
    hide Good, Legal, NaiveStep;
    answers := [];
    ghost var names := |c.cache|;
    ghost var whole := NaiveRun(Abs(c.Now()), ops, names);
    var i := 0;
    assert ops[0..] == ops;
    while i < |ops|
      invariant 0 <= i <= |ops| && Good(c.Now()) && |c.cache| == names
      invariant c.timestamp + AllTicks(ops[i..]) < MAX_CARDINAL
      invariant LegalRun(Abs(c.Now()), ops[i..], names)
      invariant whole.0 == NaiveRun(Abs(c.Now()), ops[i..], names).0
      invariant whole.1 == answers + NaiveRun(Abs(c.Now()), ops[i..], names).1
    {
      assert ops[i..][0] == ops[i] && ops[i..][1..] == ops[i + 1..];
      var a := Perform(c, ops[i]);
      answers := answers + [a];
      i := i + 1;
    }
    assert ops[i..] == [] && answers + [] == answers;
  }

  // ---------------------------------------------------------------- what the side conditions are for

  /** An empty dictionary of capacity 2, as PrimeSize and Dict make it. */
  function Small(bit: bv32): Dict {
    Dict([KeyVal(NullKey, 0), KeyVal(NullKey, 0), KeyVal(NullKey, 0)], 0, 2, Access(true, true), bit)
  }

  lemma SmallOk(bit: bv32)
    ensures Ok(Small(bit)) && Contents(Small(bit).cells) == map[]
  {
    NewDictOk(Small(bit));
  }

  /** A put took place, and where the key is now. */
  lemma PutSucceeds(s0: State, s1: State, d: nat, key: Key, value: Value, top: bool, r: Put)
    requires Sound(s0) && NilFree(s0) && d in s0.dicts && PutMeaning(s0, s1, d, key, value, top, true, r)
    requires !key.NullKey? && s0.dicts[d].access.write && s0.dicts[d].maxlength > s0.dicts[d].curlength
    ensures r.Done? && d in s1.dicts && s1.dicts == s0.dicts[d := s1.dicts[d]]
              && Holding(s0.dicts[d], s1.dicts[d], key, value)
    ensures s1.stack == s0.stack && s1.timestamp == s0.timestamp && NilFree(s1) && Holds(s1.dicts[d], key)
    ensures |s1.cache| == |s0.cache| && s1.dicts[d].access == s0.dicts[d].access
  {
  }

  lemma HoldingMeans(d: Dict, x: Dict, key: Key, value: Value, loc: nat)
    requires Holding(d, x, key, value) && loc < |x.cells| && x.cells[loc].key == key && !key.NullKey?
    ensures x.cells[loc].value == value
  {
    hide Grew;
    CellMeans(x, loc);
  }

  lemma TopOfTwo(dicts: Dicts, key: Key)
    requires 0 in dicts && 1 in dicts
    ensures Holds(dicts[1], key) ==> Topmost(dicts, [1, 0], key) == Some(1)
    ensures !Holds(dicts[1], key) && Holds(dicts[0], key) ==> Topmost(dicts, [1, 0], key) == Some(0)
    ensures OnTopFor(dicts, [1, 0], 1, key)
  {
  }

  /** A load that the cache does not answer, with the stack readable and the place not forgotten, is plain. */
  lemma PlainOutcome(s: State, n: nat, d: nat, r: Load)
    requires n < |s.cache| && !Hit(s, n) && LoadMeaning(s, n, r)
    requires AllReadable(s.dicts, s.stack) && Topmost(s.dicts, s.stack, NameKey(n)) == Some(d) && !Forgotten(s, n, d)
    ensures r.Found? && r.dict == d
  {
  }

  /** The value wherever x holds the key. */
  ghost predicate Gives(x: Dict, key: Key, value: Value) {
    Ok(x) && Holds(x, key) && forall c :: 0 <= c < |x.cells| && x.cells[c].key == key ==> x.cells[c].value == value
  }

  lemma HoldingGives(d: Dict, x: Dict, key: Key, value: Value)
    requires Holding(d, x, key, value) && !key.NullKey?
    ensures Gives(x, key, value)
  {
    hide Ok, Contents;
    forall c | 0 <= c < |x.cells| && x.cells[c].key == key ensures x.cells[c].value == value {
      HoldingMeans(d, x, key, value, c);
    }
  }

  /** A name has been put into the system's dictionary, and loaded, while the user's dictionary on top is empty. */
  method LoadBelow() returns (c: Dictionaries)
    ensures fresh(c) && Sound(c.Now()) && NilFree(c.Now()) && Current(c.Now(), 0) && Hit(c.Now(), 0)
    ensures c.dicts.Keys == {0, 1} && c.stack == [1, 0] && |c.cache| == 1 && c.timestamp == 1
    ensures Gives(c.dicts[0], NameKey(0), 7) && c.dicts[0].access.read && c.dicts[1] == Small(2)
  {
    hide PutMeaning, Ok, Holding, Topmost, OnTopFor, Plain, Contents, Current, Holds, Covered, EntriesOk,
         DictsOk, Gives;
    SmallOk(1);
    SmallOk(2);
    EmptyDict(Small(2));
    c := new Dictionaries(Small(1), Small(2), 1);
    var name := NameKey(0);
    ghost var s0 := c.Now();
    var p := c.PutTo(0, name, 7);
    PutSucceeds(s0, c.Now(), 0, name, 7, false, p);
    HoldingGives(s0.dicts[0], c.dicts[0], name, 7);
    ghost var s1 := c.Now();
    TopOfTwo(c.dicts, name);
    NotHitYet(s0, s1, p);
    SoundEntry(s1, 0);
    var r := c.TryToLoad(0);
    if !Hit(s1, 0) {
      PlainOutcome(s1, 0, 0, r);
    }
  }

  /**
    A name is put into the system's dictionary and loaded; then it is put into the user's dictionary, which is the
    top of the stack.  The next load still answers with the value from below, although the topmost dictionary has
    the name with another value.
   */
  method ShadowedPut() returns (loaded: Value, topmost: Value)
    ensures loaded == 7 && topmost == 8
  {
    hide PutMeaning, Ok, Holding, Topmost, OnTopFor, Plain, Contents, Current, Covered, EntriesOk, DictsOk;
    var c := LoadBelow();
    var name := NameKey(0);
    ghost var s2 := c.Now();
    TopOfTwo(c.dicts, name);
    EmptyDict(Small(2)) by { SmallOk(2); }
    var q := c.PutTo(1, name, 8);
    PutSucceeds(s2, c.Now(), 1, name, 8, false, q);
    HoldingGives(s2.dicts[1], c.dicts[1], name, 8);
    NowStale(s2, c.Now(), q);
    TopOfTwo(c.dicts, name);
    SoundEntry(c.Now(), 0);
    var r := c.TryToLoad(0);
    loaded := c.dicts[r.dict].cells[r.loc].value;
    var dl := SearchDict(c.dicts[c.stack[0]], name);
    topmost := c.dicts[c.stack[0]].cells[dl.loc].value;
  }

  lemma NotHitYet(s0: State, s1: State, r: Put)
    requires 0 in s0.dicts && r.Done? && PutMeaning(s0, s1, 0, NameKey(0), 7, false, true, r)
    requires Current(s0, 0) && !Hit(s0, 0)
    ensures Current(s1, 0)
  {
  }

  lemma NowStale(s2: State, s3: State, r: Put)
    requires 1 in s2.dicts && r.Done? && PutMeaning(s2, s3, 1, NameKey(0), 8, false, true, r)
    requires Current(s2, 0) && Shadows(s2, 1, 0)
    ensures Hit(s3, 0) && Topmost(s3.dicts, s3.stack, NameKey(0)) != s3.cache[0].dict
  {
  }

  method BeginAndEnd(c: Dictionaries)
    requires Sound(c.Now()) && c.stack == [1, 0] && 1 in c.dicts && c.dicts[1] == Small(2)
    modifies c
    ensures Sound(c.Now()) && c.stack == [1, 0] && c.dicts == old(c.dicts) && |c.cache| == |old(c.cache)|
    ensures old(c.timestamp) + 2 < MAX_CARDINAL ==> c.timestamp == old(c.timestamp) + 2 && c.cache == old(c.cache)
    ensures old(c.timestamp) + 2 == MAX_CARDINAL ==>
              && NoHits(c.Now())
              && forall n :: 0 <= n < |c.cache| ==>
                   c.cache[n].kvloc.None? && c.cache[n].dict == old(c.cache)[n].dict
  {
    hide Sound, Ok;
    var b := c.Begin(1);
    var e := c.End();
    assert [1] + [1, 0] == [1, 1, 0] && [1, 1, 0][1..] == [1, 0];
  }

  /**
    A name is defined and loaded, and then begin and end come and go until the timestamp wraps.  The name is still
    where it was, but the next load fails its assertion.
   */
  method WrappedLoad() returns (before: Load, after: Load)
    ensures before.Found? && after.AssertionFails?
  {
    hide PutMeaning, Ok, Holding, Topmost, OnTopFor, Plain, Contents, Current, Holds, Covered, EntriesOk, DictsOk,
         Gives;
    var c := LoadBelow();
    TopOfTwo(c.dicts, NameKey(0));
    EmptyDict(Small(2)) by { SmallOk(2); }
    ghost var s := c.Now();
    SoundEntry(s, 0);
    before := c.TryToLoad(0);
    for k := 0 to 32766
      invariant c.stack == [1, 0] && c.dicts == s.dicts && c.cache == s.cache && Sound(c.Now())
      invariant c.timestamp == 1 + 2 * k
    {
      BeginAndEnd(c);
    }
    BeginAndEnd(c);
    after := c.TryToLoad(0);
  }

  /**
    The user's dictionary, empty and on top of the stack, loses all access.  A load of a name that no dictionary
    holds is then refused, where a plain search finds nothing: the name has no bits yet, so every dictionary is
    looked into.
   */
  method BarredLoad() returns (c: Dictionaries, r: Load)
    ensures r.InvalidAccess? && Plain(c.dicts, c.stack, NameKey(0), NotFound)
  {
    hide Ok, Topmost, Current, Covered, EntriesOk, DictsOk, Sound, Barred, Contents;
    SmallOk(1);
    SmallOk(2);
    c := new Dictionaries(Small(1), Small(2), 1);
    c.NoAccess(1);
    NewBarred(c.Now());
    r := c.TryToLoad(0);
  }

  lemma NewBarred(s: State)
    requires s.stack == [1, 0] && s.cache == [NEW_ENTRY] && s.timestamp == 1
    requires s.dicts == map[0 := Small(1), 1 := Small(2).(access := Access(false, false))]
    ensures !Hit(s, 0) && Barred(s.dicts, s.stack, NameKey(0), s.cache[0].vec)
    ensures Plain(s.dicts, s.stack, NameKey(0), NotFound)
  {
    assert Bars(s.dicts, s.stack[0], 0) by { AnyBit(2); }
    TopmostAt(s.dicts, s.stack, NameKey(0), 2);
  }
}
