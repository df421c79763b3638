/**
  The name cache over the dictionary stack (PostScript/Adobe/dict.c).

  Every name has a cache entry that remembers a dictionary holding it, the place there, and the timestamp at which
  that dictionary was the topmost one on the stack to hold it.  begin and end only advance the timestamp.  Stale
  entries are still of use: the search of the stack skips dictionaries whose bit is not in the entry's vector, and
  does not probe the remembered dictionary again.
 */
module PsNameCache {
  import opened PsDict
  import opened Wrappers

  const MAX_CARDINAL := 0xFFFF
  const ALL_BITS: bv32 := 0xFFFF_FFFF

  datatype Entry = Entry(kvloc: Option<nat>, dict: Option<nat>, ts: nat, access: Access, vec: bv32)

  /** The entry of a name that has just been made. */
  const NEW_ENTRY := Entry(None, None, 0, Access(true, true), 0)

  /** The dictionaries by their offsets in the VM. */
  type Dicts = map<nat, Dict>

  /** The dictionaries, the dictionary stack with its top first, the entries of all names, the timestamp. */
  datatype State = State(dicts: Dicts, stack: seq<nat>, cache: seq<Entry>, timestamp: nat)

  // ---------------------------------------------------------------- what a plain search finds

  ghost predicate HeldBy(dicts: Dicts, d: nat, key: Key) {
    d in dicts && Holds(dicts[d], key)
  }

  /** The topmost dictionary on the stack that holds the key. */
  ghost function Topmost(dicts: Dicts, stack: seq<nat>, key: Key): (t: Option<nat>)
    ensures t.Some? ==> t.value in stack && HeldBy(dicts, t.value, key)
    ensures t.None? ==> forall d :: d in stack ==> !HeldBy(dicts, d, key)
  {
    if stack == [] then None
    else if HeldBy(dicts, stack[0], key) then Some(stack[0])
    else Topmost(dicts, stack[1..], key)
  }

  datatype Load = Found(dict: nat, loc: nat) | NotFound | InvalidAccess | AssertionFails

  /** The answer of a search of the dictionaries on the stack from the top down. */
  ghost predicate Plain(dicts: Dicts, stack: seq<nat>, key: Key, r: Load) {
    match Topmost(dicts, stack, key)
    case None => r.NotFound?
    case Some(d) =>
      if dicts[d].access.read then r.Found? && r.dict == d && r.loc < |dicts[d].cells|
           && dicts[d].cells[r.loc].key == key
      else r.InvalidAccess?
  }

  lemma {:induction false} TopmostAt(dicts: Dicts, stack: seq<nat>, key: Key, i: nat)
    requires i <= |stack| && forall j :: 0 <= j < i ==> !HeldBy(dicts, stack[j], key)
    ensures i < |stack| && HeldBy(dicts, stack[i], key) ==> Topmost(dicts, stack, key) == Some(stack[i])
    ensures i == |stack| ==> Topmost(dicts, stack, key) == None
  {
    hide HeldBy;
    if i > 0 {
      TopmostAt(dicts, stack[1..], key, i - 1);
    }
  }

  // ---------------------------------------------------------------- the invariant

  predicate MayHold(bit: bv32, vec: bv32) {
    bit & vec != 0
  }

  function With(vec: bv32, bit: bv32): bv32 {
    vec | bit
  }

  ghost predicate DictsOk(dicts: Dicts) {
    forall d :: d in dicts ==> Ok(dicts[d]) && dicts[d].bit != 0
  }

  /** Two dictionaries at least stay on the stack, those of the system and of the user. */
  ghost predicate StackOk(dicts: Dicts, stack: seq<nat>) {
    |stack| >= 2 && forall d :: d in stack ==> d in dicts
  }

  /** The vector covers every dictionary with the name. */
  ghost predicate Covered(dicts: Dicts, n: nat, vec: bv32) {
    forall d :: HeldBy(dicts, d, NameKey(n)) ==> MayHold(dicts[d].bit, vec)
  }

  /** What an entry says is so, but for the timestamp. */
  ghost predicate EntryOk(dicts: Dicts, n: nat, ce: Entry, timestamp: nat) {
    && Covered(dicts, n, ce.vec)
    && ce.ts <= timestamp
    && (ce.kvloc.Some? ==> ce.dict.Some?)
    && (ce.dict.Some? ==> HeldBy(dicts, ce.dict.value, NameKey(n)) && ce.access == dicts[ce.dict.value].access)
    && (ce.kvloc.Some? ==> ce.kvloc.value < |dicts[ce.dict.value].cells|
                           && dicts[ce.dict.value].cells[ce.kvloc.value].key == NameKey(n))
  }

  ghost predicate EntriesOk(s: State) {
    forall n :: 0 <= n < |s.cache| ==> EntryOk(s.dicts, n, s.cache[n], s.timestamp)
  }

  /** What the operators keep, whatever is put where. */
  ghost predicate Sound(s: State) {
    DictsOk(s.dicts) && StackOk(s.dicts, s.stack) && 1 <= s.timestamp < MAX_CARDINAL && EntriesOk(s)
  }

  /** The cache answers for the name without a search. */
  predicate Hit(s: State, n: nat) {
    n < |s.cache| && s.cache[n].ts == s.timestamp && s.cache[n].kvloc.Some?
  }

  /** Where the cache answers without a search it answers right. */
  ghost predicate Current(s: State, n: nat) {
    Hit(s, n) ==> Topmost(s.dicts, s.stack, NameKey(n)) == s.cache[n].dict
  }

  ghost predicate AllCurrent(s: State) {
    forall n: nat :: Current(s, n)
  }

  /** The entry names the dictionary d but not the place, which is how a wrap of the timestamp leaves it. */
  predicate Forgotten(s: State, n: nat, d: nat) {
    n < |s.cache| && s.cache[n].dict == Some(d) && s.cache[n].kvloc.None?
  }

  /** The bits of the dictionaries that a search for the name looks into; an empty vector stands for all. */
  function SearchVector(vec: bv32): bv32 {
    if vec == 0 then ALL_BITS else vec
  }

  /** The dictionary has a bit in common with the vector; one that is empty stands for all bits. */
  predicate Shares(bit: bv32, vec: bv32) {
    if vec == 0 then bit != 0 else bit & vec != 0
  }

  /** The search looks into this dictionary and finds that it may not be read. */
  predicate Bars(dicts: Dicts, d: nat, vec: bv32) {
    d in dicts && !dicts[d].access.read && Shares(dicts[d].bit, vec)
  }

  /** Such a dictionary lies on the stack, and none above it holds the key. */
  ghost predicate Barred(dicts: Dicts, stack: seq<nat>, key: Key, vec: bv32) {
    exists i :: 0 <= i < |stack| && Bars(dicts, stack[i], vec)
                && forall j :: 0 <= j < i ==> !HeldBy(dicts, stack[j], key)
  }

  /**
    What trytoload answers for a name.  A timely entry answers by itself.  Otherwise the search is barred, or comes
    to a dictionary whose place the entry has forgotten, or gives the answer of a plain search.
   */
  ghost predicate LoadMeaning(s: State, n: nat, r: Load)
    requires n < |s.cache|
  {
    var ce := s.cache[n];
    var top := Topmost(s.dicts, s.stack, NameKey(n));
    if Hit(s, n) then
      ce.dict.Some? && r == if ce.access.read then Found(ce.dict.value, ce.kvloc.value) else InvalidAccess
    else if Barred(s.dicts, s.stack, NameKey(n), ce.vec) then r.InvalidAccess?
    else if top.Some? && Forgotten(s, n, top.value) then r.AssertionFails?
    else Plain(s.dicts, s.stack, NameKey(n), r)
  }

  lemma SoundEntry(s: State, n: nat)
    requires Sound(s) && n < |s.cache|
    ensures EntryOk(s.dicts, n, s.cache[n], s.timestamp)
  {
  }

  lemma EntryReplaced(s: State, n: nat, ce: Entry)
    requires Sound(s) && n < |s.cache| && EntryOk(s.dicts, n, ce, s.timestamp)
    ensures Sound(s.(cache := s.cache[n := ce]))
  {
  }

  lemma OwnBit(vec: bv32, more: bv32)
    requires more != 0
    ensures MayHold(more, With(vec, more))
  {
  }

  lemma AnyBit(bit: bv32)
    ensures bit != 0 ==> MayHold(bit, ALL_BITS)
    ensures !MayHold(bit, 0)
  {
  }

  lemma BarsMeans(dicts: Dicts, d: nat, vec: bv32)
    requires d in dicts
    ensures Bars(dicts, d, vec) <==> !dicts[d].access.read && MayHold(dicts[d].bit, SearchVector(vec))
  {
    hide MayHold, SearchVector, Shares;
    Searched(dicts[d].bit, vec);
  }

  lemma Searched(bit: bv32, vec: bv32)
    ensures MayHold(bit, SearchVector(vec)) <==> Shares(bit, vec)
  {
  }

  /** A vector with one more bit. */
  ghost function Joined(vec: bv32, bit: bv32): bv32 {
    vec | bit
  }

  lemma WithIs(vec: bv32, bit: bv32)
    ensures With(vec, bit) == Joined(vec, bit)
  {
  }

  lemma CoverMore(dicts: Dicts, n: nat, vec: bv32, more: bv32)
    requires Covered(dicts, n, vec)
    ensures Covered(dicts, n, With(vec, more))
  {
  }

  /** The vector a search uses covers what the entry's vector covers; an empty vector covers nothing. */
  lemma VectorSearches(dicts: Dicts, n: nat, vec: bv32)
    requires Covered(dicts, n, vec)
    ensures Covered(dicts, n, SearchVector(vec))
  {
  }

  /** The first dictionary of the stack to have an answer decides. */
  lemma FirstAnswer(s: State, n: nat, node: nat, r: Load)
    requires n < |s.cache| && node < |s.stack| && !Hit(s, n)
    requires forall j :: 0 <= j < node ==>
               !HeldBy(s.dicts, s.stack[j], NameKey(n)) && !Bars(s.dicts, s.stack[j], s.cache[n].vec)
    requires r.InvalidAccess? <==> Bars(s.dicts, s.stack[node], s.cache[n].vec)
    requires !r.InvalidAccess? ==>
               && HeldBy(s.dicts, s.stack[node], NameKey(n))
               && if Forgotten(s, n, s.stack[node]) then r.AssertionFails?
                  else && r.Found? && r.dict == s.stack[node] && s.dicts[r.dict].access.read
                       && r.loc < |s.dicts[r.dict].cells| && s.dicts[r.dict].cells[r.loc].key == NameKey(n)
    ensures LoadMeaning(s, n, r)
    ensures r.Found? ==> Topmost(s.dicts, s.stack, NameKey(n)) == Some(r.dict)
  {
    hide HeldBy, Topmost, Bars, Forgotten;
    TopmostAt(s.dicts, s.stack, NameKey(n), node);
  }

  lemma NoAnswer(s: State, n: nat)
    requires n < |s.cache| && !Hit(s, n)
    requires forall j :: 0 <= j < |s.stack| ==>
               !HeldBy(s.dicts, s.stack[j], NameKey(n)) && !Bars(s.dicts, s.stack[j], s.cache[n].vec)
    ensures LoadMeaning(s, n, NotFound)
  {
    hide HeldBy, Topmost, Bars;
    TopmostAt(s.dicts, s.stack, NameKey(n), |s.stack|);
  }

  /** While no place is forgotten, what the cache says is right and the stack may be read, a load is a plain search. */
  lemma ReadableLoad(s: State, n: nat, r: Load)
    requires Sound(s) && n < |s.cache| && LoadMeaning(s, n, r)
    requires NilFree(s) && Current(s, n) && AllReadable(s.dicts, s.stack)
    ensures Plain(s.dicts, s.stack, NameKey(n), r) && (r.Found? || r.NotFound?)
  {
    hide Topmost, Holds, MayHold, DictsOk;
    SoundEntry(s, n);
  }

  /**
    What a load finds holds the name, and is the topmost dictionary to do so if the cache is right for the name; and
    where it finds nothing no dictionary on the stack holds it.
   */
  lemma LoadTarget(s: State, n: nat, r: Load)
    requires Sound(s) && n < |s.cache| && LoadMeaning(s, n, r) && (r.Found? || r.NotFound?)
    ensures s.stack != []
    ensures r.Found? ==> r.dict in s.dicts
    ensures r.NotFound? ==> s.stack[0] in s.dicts && OnTopFor(s.dicts, s.stack, s.stack[0], NameKey(n))
    ensures r.NotFound? ==> !Forgotten(s, n, s.stack[0])
    ensures Current(s, n) && r.Found? ==> OnTopFor(s.dicts, s.stack, r.dict, NameKey(n))
    ensures Current(s, n) ==> Topmost(s.dicts, s.stack, NameKey(n)) == if r.Found? then Some(r.dict) else None
  {
    hide Topmost, Holds, Barred, DictsOk;
    SoundEntry(s, n);
    if r.Found? && Current(s, n) {
      TopmostIsOnTop(s.dicts, s.stack, r.dict, NameKey(n));
    }
  }

  // ---------------------------------------------------------------- what a put leaves as it was

  lemma {:induction false} TopmostKept(dicts: Dicts, stack: seq<nat>, d: nat, x: Dict, key: Key)
    requires d in dicts && (Holds(x, key) <==> Holds(dicts[d], key))
    ensures Topmost(dicts[d := x], stack, key) == Topmost(dicts, stack, key)
  {
    hide Holds;
    if stack != [] {
      TopmostKept(dicts, stack[1..], d, x, key);
    }
  }

  /** d is on the stack and no dictionary above it holds the key. */
  ghost predicate OnTopFor(dicts: Dicts, stack: seq<nat>, d: nat, key: Key) {
    stack != [] && (stack[0] == d || (!HeldBy(dicts, stack[0], key) && OnTopFor(dicts, stack[1..], d, key)))
  }

  lemma {:induction false} TopmostIsOnTop(dicts: Dicts, stack: seq<nat>, d: nat, key: Key)
    requires Topmost(dicts, stack, key) == Some(d)
    ensures OnTopFor(dicts, stack, d, key)
  {
    if stack != [] && stack[0] != d {
      TopmostIsOnTop(dicts, stack[1..], d, key);
    }
  }

  lemma {:induction false} PutOnTop(dicts: Dicts, stack: seq<nat>, d: nat, x: Dict, key: Key)
    requires d in dicts && Holds(x, key)
    ensures OnTopFor(dicts, stack, d, key) ==> Topmost(dicts[d := x], stack, key) == Some(d)
    ensures !OnTopFor(dicts, stack, d, key) ==> Topmost(dicts[d := x], stack, key) == Topmost(dicts, stack, key)
  {
    hide Holds;
    if stack != [] && stack[0] != d && !HeldBy(dicts, stack[0], key) {
      PutOnTop(dicts, stack[1..], d, x, key);
    }
  }

  /** An entry of another name stays right when a key is put into d. */
  lemma OthersKept(dicts: Dicts, d: nat, x: Dict, key: Key, n: nat, ce: Entry, timestamp: nat)
    requires d in dicts && Grew(dicts[d], x, key) && NameKey(n) != key && EntryOk(dicts, n, ce, timestamp)
    ensures EntryOk(dicts[d := x], n, ce, timestamp)
  {
  }

  /** The entry of the name itself stays right too, but that its vector may lack the bit of d. */
  lemma OwnKept(dicts: Dicts, d: nat, x: Dict, n: nat, ce: Entry, timestamp: nat)
    requires d in dicts && Grew(dicts[d], x, NameKey(n)) && EntryOk(dicts, n, ce, timestamp) && dicts[d].bit != 0
    ensures EntryOk(dicts[d := x], n, ce.(vec := With(ce.vec, x.bit)), timestamp)
    ensures Holds(dicts[d], NameKey(n)) ==> EntryOk(dicts[d := x], n, ce, timestamp)
  {
    hide Ok, Holds, MayHold, With;
    OwnBit(ce.vec, x.bit);
    CoverMore(dicts, n, ce.vec, x.bit);
    var dicts' := dicts[d := x];
    forall e | HeldBy(dicts', e, NameKey(n)) ensures MayHold(dicts'[e].bit, With(ce.vec, x.bit)) {
      assert e == d || HeldBy(dicts, e, NameKey(n));
    }
  }

  /** What PutInDict answers. */
  datatype Put = Done | Denied | DictFull | NullKeyGiven | WritesNil

  /** What it answers if the name's entry has not forgotten its place. */
  ghost function PutOutcome(d: Dict, key: Key, checkacc: bool): Put {
    if checkacc && !d.access.write then Denied
    else if key.NullKey? then NullKeyGiven
    else if !Holds(d, key) && d.curlength >= d.maxlength then DictFull
    else Done
  }

  ghost function PutAnswer(s: State, d: nat, key: Key, checkacc: bool): Put
    requires d in s.dicts
  {
    var r := PutOutcome(s.dicts[d], key, checkacc);
    if !r.Denied? && key.NameKey? && Forgotten(s, key.nval, d) then WritesNil else r
  }

  /** s with x for the dictionary d and, if key is a name, ce for its entry. */
  function PutState(s: State, d: nat, x: Dict, key: Key, ce: Entry): State {
    State(s.dicts[d := x], s.stack,
          if key.NameKey? && key.nval < |s.cache| then s.cache[key.nval := ce] else s.cache, s.timestamp)
  }

  /** x is the dictionary with value put under key. */
  ghost predicate Holding(d: Dict, x: Dict, key: Key, value: Value) {
    Ok(x) && Grew(d, x, key) && Contents(x.cells) == Contents(d.cells)[key := value]
  }

  /** A put of a new key into d would leave the cache answering with a dictionary under d. */
  ghost predicate Shadows(s: State, d: nat, n: nat) {
    Hit(s, n) && !HeldBy(s.dicts, d, NameKey(n)) && OnTopFor(s.dicts, s.stack, d, NameKey(n))
  }

  ghost predicate AllReadable(dicts: Dicts, stack: seq<nat>) {
    forall d :: d in stack ==> d in dicts && dicts[d].access.read
  }

  /** No wrap has made an entry forget the place of its key. */
  ghost predicate NilFree(s: State) {
    forall n :: 0 <= n < |s.cache| && s.cache[n].dict.Some? ==> s.cache[n].kvloc.Some?
  }

  /** A put leaves everything sound, and does not touch what the cache says of the other names. */
  lemma PutSound(s: State, d: nat, x: Dict, key: Key, ce: Entry)
    requires Sound(s) && d in s.dicts && Ok(x) && Grew(s.dicts[d], x, key)
    requires key.NameKey? ==> EntryOk(s.dicts[d := x], key.nval, ce, s.timestamp)
    ensures Sound(PutState(s, d, x, key, ce))
    ensures forall n: nat :: NameKey(n) != key ==> (Current(PutState(s, d, x, key, ce), n) <==> Current(s, n))
  {
    hide Ok, Holds, Contents, Topmost, EntryOk, Grew;
    var s1 := PutState(s, d, x, key, ce);
    assert x.bit == s.dicts[d].bit by { SameBit(s.dicts[d], x, key); }
    forall n | 0 <= n < |s1.cache| ensures EntryOk(s1.dicts, n, s1.cache[n], s1.timestamp) {
      if NameKey(n) != key {
        OthersKept(s.dicts, d, x, key, n, s.cache[n], s.timestamp);
      }
    }
    forall n: nat | NameKey(n) != key ensures Current(s1, n) <==> Current(s, n) {
      SameHolds(s.dicts[d], x, key, NameKey(n));
      TopmostKept(s.dicts, s.stack, d, x, NameKey(n));
    }
  }

  lemma SameBit(d: Dict, x: Dict, key: Key)
    requires Grew(d, x, key)
    ensures x.bit == d.bit && x.access == d.access && Holds(x, key)
  {
  }

  lemma SameHolds(d: Dict, x: Dict, key: Key, k: Key)
    requires Grew(d, x, key) && k != key && !k.NullKey?
    ensures Holds(x, k) <==> Holds(d, k)
  {
  }

  lemma {:induction false} OnTopIsTopmost(dicts: Dicts, stack: seq<nat>, d: nat, key: Key)
    requires OnTopFor(dicts, stack, d, key) && HeldBy(dicts, d, key)
    ensures Topmost(dicts, stack, key) == Some(d)
  {
    hide HeldBy;
    if stack[0] != d {
      OnTopIsTopmost(dicts, stack[1..], d, key);
    }
  }

  /** When a put of a name leaves its entry able to answer. */
  lemma PutCurrent(s: State, d: nat, x: Dict, n: nat, ce: Entry, top: bool)
    requires d in s.dicts && Holds(x, NameKey(n)) && n < |s.cache|
    requires EntryOk(s.dicts, n, s.cache[n], s.timestamp)
    requires top ==> ce.dict == Some(d) && ce.kvloc.Some? && ce.ts == s.timestamp
    requires !top ==> (Hit(PutState(s, d, x, NameKey(n), ce), n) <==> Hit(s, n))
    requires !top && Hit(s, n) ==> ce.dict == s.cache[n].dict
    ensures top ==> (Current(PutState(s, d, x, NameKey(n), ce), n) <==> OnTopFor(s.dicts, s.stack, d, NameKey(n)))
    ensures !top && Current(s, n) ==> (Current(PutState(s, d, x, NameKey(n), ce), n) <==> !Shadows(s, d, n))
  {
    hide Ok, Holds, Topmost, OnTopFor, Covered;
    var key := NameKey(n);
    PutOnTop(s.dicts, s.stack, d, x, key);
    if OnTopFor(s.dicts, s.stack, d, key) && HeldBy(s.dicts, d, key) {
      OnTopIsTopmost(s.dicts, s.stack, d, key);
    }
    if Topmost(s.dicts, s.stack, key) == Some(d) {
      TopmostIsOnTop(s.dicts, s.stack, d, key);
    }
  }

  /**
    What a put into dict, at d, makes of the entry of its name.  An entry that names d is made timely by a put with
    top; such a put makes any other entry name d.  A put without top adds the bit of a dictionary that is new to the
    name, and makes an entry with no bits name it, out of time.
   */
  ghost predicate EntryAfter(ce: Entry, d: nat, dict: Dict, held: bool, top: bool, timestamp: nat, now: Entry) {
    if ce.dict == Some(d) then now == if top then ce.(ts := timestamp) else ce
    else if !top && held then now == ce
    else if !top && ce.vec != 0 then now == ce.(vec := Joined(ce.vec, dict.bit))
    else now == Entry(now.kvloc, Some(d), if top then timestamp else 0, dict.access, Joined(ce.vec, dict.bit))
         && now.kvloc.Some?
  }

  lemma EntryRepointed(ce: Entry, d: nat, dict: Dict, held: bool, top: bool, timestamp: nat, loc: nat)
    requires ce.dict != Some(d) && (!top ==> !held && ce.vec == 0)
    ensures EntryAfter(ce, d, dict, held, top, timestamp, Entry(Some(loc), Some(d), if top then timestamp else 0,
                                                                dict.access, With(ce.vec, dict.bit)))
  {
    hide With, Joined;
    WithIs(ce.vec, dict.bit);
  }

  lemma EntryWidened(ce: Entry, d: nat, dict: Dict, timestamp: nat)
    requires ce.dict != Some(d) && ce.vec != 0
    ensures EntryAfter(ce, d, dict, false, false, timestamp, ce.(vec := With(ce.vec, dict.bit)))
  {
    hide With, Joined;
    WithIs(ce.vec, dict.bit);
  }

  /**
    What PutInDict does.  A put with top leaves the cache right for the name just when the dictionary is on top for
    it; one without top leaves a wrong answer just when it shadows what the cache answers for the name; the other
    names are not touched.
   */
  ghost predicate PutMeaning(s0: State, s1: State, d: nat, key: Key, value: Value, top: bool, checkacc: bool, r: Put)
    requires d in s0.dicts
  {
    && r == PutAnswer(s0, d, key, checkacc)
    && (!r.Done? ==> s1 == s0)
    && (r.Done? ==> d in s1.dicts && s1 == s0.(dicts := s0.dicts[d := s1.dicts[d]], cache := s1.cache)
                    && Holding(s0.dicts[d], s1.dicts[d], key, value))
    && |s1.cache| == |s0.cache|
    && (forall n :: 0 <= n < |s0.cache| && NameKey(n) != key ==> s1.cache[n] == s0.cache[n])
    && (r.Done? && key.NameKey? && key.nval < |s0.cache| ==>
          EntryAfter(s0.cache[key.nval], d, s0.dicts[d], HeldBy(s0.dicts, d, key), top, s0.timestamp,
                     s1.cache[key.nval]))
    && (forall n: nat :: NameKey(n) != key ==> (Current(s1, n) <==> Current(s0, n)))
    && (r.Done? && key.NameKey? && top ==> (Current(s1, key.nval) <==> OnTopFor(s0.dicts, s0.stack, d, key)))
    && (r.Done? && key.NameKey? && !top && Current(s0, key.nval) ==>
          (Current(s1, key.nval) <==> !Shadows(s0, d, key.nval)))
    && (NilFree(s0) ==> NilFree(s1))
  }

  lemma DidPut(s: State, d: nat, x: Dict, key: Key, value: Value, ce: Entry, top: bool, checkacc: bool)
    requires Sound(s) && d in s.dicts && Holding(s.dicts[d], x, key, value)
    requires PutAnswer(s, d, key, checkacc).Done?
    requires key.NameKey? ==>
               && key.nval < |s.cache| && EntryOk(s.dicts[d := x], key.nval, ce, s.timestamp)
               && (top ==> ce.dict == Some(d) && ce.kvloc.Some? && ce.ts == s.timestamp)
               && (!top ==> (Hit(PutState(s, d, x, key, ce), key.nval) <==> Hit(s, key.nval)))
               && (!top && Hit(s, key.nval) ==> ce.dict == s.cache[key.nval].dict)
               && (NilFree(s) && ce.dict.Some? ==> ce.kvloc.Some?)
               && EntryAfter(s.cache[key.nval], d, s.dicts[d], HeldBy(s.dicts, d, key), top, s.timestamp, ce)
    ensures Sound(PutState(s, d, x, key, ce))
    ensures PutMeaning(s, PutState(s, d, x, key, ce), d, key, value, top, checkacc, Done)
  {
    hide Ok, Contents, Topmost, OnTopFor, EntryOk, DictsOk, StackOk, Grew, EntriesOk, Current, Hit, Shadows;
    hide EntryAfter, HeldBy, Joined;
    PutSound(s, d, x, key, ce);
    if key.NameKey? {
      SoundEntry(s, key.nval);
      SameBit(s.dicts[d], x, key);
      PutCurrent(s, d, x, key.nval, ce, top);
    }
  }
}
