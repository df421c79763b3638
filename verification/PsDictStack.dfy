/**
  The dictionary operators (PostScript/Adobe/dict.c): begin, end, load, def, store, known, dget and dput over the
  dictionary stack, with the name cache kept by UpdateCE.

  After 65534 begins and ends the timestamp wraps and ResetCache forgets every location, but not the dictionary an
  entry names.  The outcomes AssertionFails and WritesNil are what trytoload and PutInDict then come to: the one
  stops at its assertion, the other stores through a null location.
 */
module PsDictStack {
  import opened PsDict
  import opened PsNameCache
  import opened Wrappers

  class Dictionaries {
    var dicts: Dicts
    /** Top first. */
    var stack: seq<nat>
    /** The cache entries of the names made so far. */
    var cache: seq<Entry>
    var timestamp: nat
    /** How many dictionaries have been made; it deals out the bits. */
    var dictCount: nat

    /** The system's and the user's dictionaries, on the stack, and names enough. */
    constructor (system: Dict, user: Dict, names: nat)
      requires Ok(system) && Ok(user) && system.curlength == 0 && user.curlength == 0
      requires system.bit != 0 && user.bit != 0
      ensures Sound(Now()) && NilFree(Now()) && AllCurrent(Now())
      ensures dicts == map[0 := system, 1 := user] && stack == [1, 0] && |cache| == names
      ensures dictCount == 2 && timestamp == 1 && forall n :: 0 <= n < names ==> cache[n] == NEW_ENTRY
    {
      dicts := map[0 := system, 1 := user];
      stack := [1, 0];
      cache := seq(names, i => NEW_ENTRY);
      timestamp := 1;
      dictCount := 2;
      new;
      EmptyDict(system);
      EmptyDict(user);
    }

    function Now(): State
      reads this
    {
      State(dicts, stack, cache, timestamp)
    }

    predicate Usable(key: Key)
      reads `cache
    {
      key.NameKey? ==> key.nval < |cache|
    }

    method UpdateCE(key: Key, kvloc: nat, d: nat)
      requires Usable(key) && d in dicts
      modifies `cache
      ensures cache == if key.NameKey? then
                         old(cache)[key.nval := Entry(Some(kvloc), Some(d), timestamp, dicts[d].access,
                                                      With(old(cache)[key.nval].vec, dicts[d].bit))]
                       else old(cache)
    {
      if key.NameKey? {
        var ce := cache[key.nval];
        ce := ce.(kvloc := Some(kvloc), ts := timestamp, dict := Some(d), access := dicts[d].access,
                  vec := With(ce.vec, dicts[d].bit));
        cache := cache[key.nval := ce];
      }
    }

    /** A dictionary that the search of trytoload comes to: its answer, or None if the search goes on. */
    method Inspect(n: nat, d: nat) returns (r: Option<Load>)
      requires Sound(Now()) && n < |cache| && d in dicts
      modifies `cache
      ensures Sound(Now()) && |cache| == |old(cache)| && cache == old(cache)[n := cache[n]]
      ensures r == Some(InvalidAccess) <==> Bars(dicts, d, old(cache)[n].vec)
      ensures r.None? ==> !HeldBy(dicts, d, NameKey(n))
      ensures r.Some? && !r.value.InvalidAccess? ==>
                && HeldBy(dicts, d, NameKey(n))
                && if Forgotten(old(Now()), n, d) then r == Some(AssertionFails)
                   else && r.value.Found? && r.value.dict == d && dicts[d].access.read
                        && r.value.loc < |dicts[d].cells| && dicts[d].cells[r.value.loc].key == NameKey(n)
                        && Hit(Now(), n) && LoadedEntry(old(cache)[n], d, dicts[d], r.value.loc, timestamp, cache[n])
      ensures r.None? || !r.value.Found? ==> cache == old(cache)
    {
      hide Ok, MayHold, With, EntriesOk, Bars, LoadedEntry;
      var key, ce, dp := NameKey(n), cache[n], dicts[d];
      SoundEntry(Now(), n);
      VectorSearches(dicts, n, ce.vec);
      BarsMeans(dicts, d, ce.vec);
      if !MayHold(dp.bit, SearchVector(ce.vec)) { return None; }
      if !dp.access.read { return Some(InvalidAccess); }
      if ce.dict == Some(d) {
        if ce.kvloc.None? { return Some(AssertionFails); }
        EntryReplaced(Now(), n, ce.(ts := timestamp));
        cache := cache[n := ce.(ts := timestamp)];
        EntryLoaded(ce, d, dp, ce.kvloc.value, timestamp);
        return Some(Found(d, ce.kvloc.value));
      }
      var dl := SearchDict(dp, key);
      if !dl.Known? { return None; }
      CoverMore(dicts, n, ce.vec, dp.bit);
      EntryReplaced(Now(), n, Entry(Some(dl.loc), Some(d), timestamp, dp.access, With(ce.vec, dp.bit)));
      UpdateCE(key, dl.loc, d);
      EntryLoaded(ce, d, dp, dl.loc, timestamp);
      r := Some(Found(d, dl.loc));
    }

    /** trytoload for a name, from the cache or by a search of the stack. */
    method TryToLoad(n: nat) returns (r: Load)
      requires Sound(Now()) && n < |cache|
      modifies `cache
      ensures Sound(Now()) && |cache| == |old(cache)| && cache == old(cache)[n := cache[n]]
      ensures LoadMeaning(old(Now()), n, r)
      ensures old(Hit(Now(), n)) ==> cache == old(cache)
      ensures forall m: nat :: Current(old(Now()), m) ==> Current(Now(), m)
      ensures r.Found? ==> cache[n].dict == Some(r.dict) && cache[n].kvloc == Some(r.loc) && Hit(Now(), n)
      ensures r.Found? && !old(Hit(Now(), n)) ==>
                && r.dict in dicts
                && LoadedEntry(old(cache)[n], r.dict, dicts[r.dict], r.loc, timestamp, cache[n])
      ensures !r.Found? ==> cache == old(cache)
    {
      hide Ok, Topmost, EntriesOk, Bars, DictsOk;
      var ce := cache[n];
      SoundEntry(Now(), n);
      if ce.ts == timestamp && ce.kvloc.Some? {
        if !ce.access.read { return InvalidAccess; }
        return Found(ce.dict.value, ce.kvloc.value);
      }
      var node := 0;
      while node < |stack|
        invariant 0 <= node <= |stack| && cache == old(cache)
        invariant forall j :: 0 <= j < node ==> !HeldBy(dicts, stack[j], NameKey(n)) && !Bars(dicts, stack[j], ce.vec)
      {
        var found := Inspect(n, stack[node]);
        if found.Some? {
          FirstAnswer(old(Now()), n, node, found.value);
          return found.value;
        }
        node := node + 1;
      }
      NoAnswer(old(Now()), n);
      r := NotFound;
    }

    /** PutInDict where the name's entry names the dictionary. */
    method PutCached(d: nat, n: nat, value: Value, top: bool, checkacc: bool) returns (r: Put)
      requires Sound(Now()) && n < |cache| && d in dicts && cache[n].dict == Some(d)
      modifies `dicts, `cache
      ensures Sound(Now())
      ensures PutMeaning(old(Now()), Now(), d, NameKey(n), value, top, checkacc, r)
    {
      hide Ok, Topmost, OnTopFor, Contents, Grew, EntriesOk, With, Current, Covered, PutMeaning, EndsAt;
      hide MayHold, Shadows;
      ghost var s0 := Now();
      var key, ce := NameKey(n), cache[n];
      SoundEntry(s0, n);
      if checkacc && !ce.access.write {
        NotPut(s0, d, key, value, top, checkacc, Denied);
        return Denied;
      }
      if ce.kvloc.None? {
        NotPut(s0, d, key, value, top, checkacc, WritesNil);
        return WritesNil;
      }
      var loc := ce.kvloc.value;
      StoredPut(s0, d, loc, key, value, if top then ce.(ts := timestamp) else ce, top, checkacc);
      dicts := dicts[d := Stored(dicts[d], loc, value)];
      if top && ce.ts != timestamp {
        ce := ce.(ts := timestamp);
        cache := cache[n := ce];
      }
      assert cache == s0.cache[n := ce];
      assert Now() == PutState(s0, d, Stored(s0.dicts[d], loc, value), key, ce);
      r := Done;
    }

    /** The part of PutInDict that searches the dictionary and writes into it. */
    method PutInBody(d: nat, key: Key, value: Value, checkacc: bool) returns (r: Put, known: bool, kvloc: nat)
      requires Sound(Now()) && d in dicts && !(key.NameKey? && Forgotten(Now(), key.nval, d))
      modifies `dicts
      ensures r == PutAnswer(old(Now()), d, key, checkacc)
      ensures !r.Done? ==> dicts == old(dicts)
      ensures r.Done? ==> d in dicts && dicts == old(dicts)[d := dicts[d]]
      ensures r.Done? ==> Holding(old(dicts)[d], dicts[d], key, value) && (known <==> Holds(old(dicts)[d], key))
      ensures r.Done? ==> kvloc < |dicts[d].cells| && dicts[d].cells[kvloc].key == key
      ensures r.Done? ==> dicts[d].bit == old(dicts)[d].bit && dicts[d].access == old(dicts)[d].access
    {
      hide Ok, Topmost, Contents, Grew, EntriesOk, EndsAt;
      ghost var s0 := Now();
      known, kvloc := false, 0;
      var dp := dicts[d];
      if checkacc && !dp.access.write { return Denied, known, kvloc; }
      var dl := SearchDict(dp, key);
      if dl.TypeCheck? { return NullKeyGiven, known, kvloc; }
      if dl.Known? {
        known, kvloc := true, dl.loc;
        dicts := dicts[d := Stored(dp, dl.loc, value)];
        SearchedStored(s0, d, kvloc, key, value, checkacc);
      } else {
        if dl.slot.None? { return DictFull, known, kvloc; }
        kvloc := dl.slot.value;
        dicts := dicts[d := Inserted(dp, kvloc, key, value)];
        SearchedInserted(s0, d, kvloc, key, value, checkacc);
      }
      r := Done;
    }

    /** PutInDict where it has to search the dictionary. */
    method PutSearched(d: nat, key: Key, value: Value, top: bool, checkacc: bool) returns (r: Put)
      requires Sound(Now()) && Usable(key) && d in dicts && (key.NameKey? ==> cache[key.nval].dict != Some(d))
      modifies `dicts, `cache
      ensures Sound(Now())
      ensures PutMeaning(old(Now()), Now(), d, key, value, top, checkacc, r)
    {
      hide Sound, Topmost, OnTopFor, With, PutMeaning, Holding, PutAnswer, Holds;
      ghost var s0 := Now();
      var known, kvloc;
      r, known, kvloc := PutInBody(d, key, value, checkacc);
      if !r.Done? {
        NotPut(s0, d, key, value, top, checkacc, r);
        return;
      }
      ghost var x := dicts[d];
      if top {
        UpdateCE(key, kvloc, d);
        Repointed(s0, d, x, kvloc, key, value, s0.timestamp, top, checkacc);
      } else if key.NameKey? && !known {
        var ce := cache[key.nval];
        if ce.vec == 0 {
          UpdateCE(key, kvloc, d);
          cache := cache[key.nval := cache[key.nval].(ts := 0)];
          Repointed(s0, d, x, kvloc, key, value, 0, top, checkacc);
          assert cache == s0.cache[key.nval := cache[key.nval]];
        } else {
          Widened(s0, d, x, key, value, checkacc);
          cache := cache[key.nval := ce.(vec := With(ce.vec, dicts[d].bit))];
        }
      } else {
        Unmoved(s0, d, x, key, value, checkacc);
        assert key.NameKey? ==> cache[key.nval := cache[key.nval]] == cache;
      }
    }

    /** PutInDict.  With top, its callers mean d to be the topmost dictionary to hold the key. */
    method PutInDict(d: nat, key: Key, value: Value, top: bool, checkacc: bool) returns (r: Put)
      requires Sound(Now()) && Usable(key) && d in dicts
      modifies `dicts, `cache
      ensures Sound(Now())
      ensures PutMeaning(old(Now()), Now(), d, key, value, top, checkacc, r)
    {
      hide Sound, PutMeaning, OnTopFor;
      if key.NameKey? && cache[key.nval].dict == Some(d) {
        r := PutCached(d, key.nval, value, top, checkacc);
      } else {
        r := PutSearched(d, key, value, top, checkacc);
      }
    }

    /** dict: a new dictionary at an unused place of the VM; it gets the bit 0 just when the count of them is 0. */
    method NewDict(at: nat, maxlength: nat) returns (ok: bool)
      requires Sound(Now()) && at !in dicts
      modifies `dicts, `dictCount
      ensures Sound(Now()) && (forall n: nat :: Current(Now(), n) <==> Current(old(Now()), n))
      ensures ok <==> maxlength <= MAX_DICT_LENGTH
      ensures !ok ==> Now() == old(Now())
      ensures ok ==> at in dicts && dicts == old(dicts)[at := dicts[at]] && Contents(dicts[at].cells) == map[]
                     && dicts[at].maxlength == maxlength && dicts[at].access == Access(true, true)
                     && |dicts[at].cells| > maxlength
                     && forall c :: 0 <= c < |dicts[at].cells| ==> dicts[at].cells[c].key.NullKey?
      ensures ok ==> if old(dictCount) == 0 || old(dictCount) % 32 != 0 then
                       && dicts[at].bit == (1 as bv32) << (old(dictCount) % 32)
                       && dictCount == (old(dictCount) + 1) % 0x1_0000
                     else
                       && dicts[at].bit == 2
                       && dictCount == ((old(dictCount) + 1) % 0x1_0000 + 1) % 0x1_0000
      ensures !ok ==> dictCount == old(dictCount)
    {
      hide Current, Sound, Hit;
      var size := PrimeSize(maxlength);
      if size.None? { return false; }
      var ds := dictCount % 32;
      if ds == 0 && dictCount != 0 {
        dictCount := (dictCount + 1) % 0x1_0000;
        ds := 1;
      }
      dictCount := (dictCount + 1) % 0x1_0000;
      BitOf(ds);
      var d := Dict(seq(size.value, i => KeyVal(NullKey, 0)), 0, maxlength, Access(true, true), (1 as bv32) << ds);
      NewDictOk(d);
      NewDictSound(Now(), at, d);
      dicts := dicts[at := d];
      ok := true;
    }

    method Def(key: Key, value: Value) returns (r: Put)
      requires Sound(Now()) && Usable(key)
      modifies `dicts, `cache
      ensures Sound(Now())
      ensures PutMeaning(old(Now()), Now(), stack[0], key, value, true, true, r)
    {
      r := PutInDict(stack[0], key, value, true, true);
    }

    /** dput. */
    method PutTo(d: nat, key: Key, value: Value) returns (r: Put)
      requires Sound(Now()) && Usable(key) && d in dicts
      modifies `dicts, `cache
      ensures Sound(Now())
      ensures PutMeaning(old(Now()), Now(), d, key, value, false, true, r)
    {
      r := PutInDict(d, key, value, false, true);
    }

    /** load, while no entry has forgotten its place and the stack may be read: the answer of a plain search. */
    method LoadName(n: nat) returns (r: Load)
      requires Sound(Now()) && n < |cache| && Current(Now(), n)
      requires NilFree(Now()) && AllReadable(dicts, stack)
      modifies `cache
      ensures Sound(Now()) && NilFree(Now()) && |cache| == |old(cache)|
      ensures Plain(dicts, stack, NameKey(n), r) && (r.Found? || r.NotFound?)
      ensures forall m: nat :: Current(old(Now()), m) ==> Current(Now(), m)
    {
      hide Ok, EntriesOk, DictsOk, Topmost, Holds;
      SoundEntry(Now(), n);
      ghost var s0 := Now();
      r := TryToLoad(n);
      ReadableLoad(s0, n, r);
    }

    /**
      store: into the dictionary that a load finds the name in, or else into the topmost one.  Where load raises an
      error store does, and no place is forgotten after a load.
     */
    method Store(n: nat, value: Value) returns (found: Load, r: Option<Put>)
      requires Sound(Now()) && n < |cache|
      modifies `dicts, `cache
      ensures Sound(Now()) && |cache| == |old(cache)| && (NilFree(old(Now())) ==> NilFree(Now()))
      ensures LoadMeaning(old(Now()), n, found)
      ensures r.Some? <==> found.Found? || found.NotFound?
      ensures r.None? ==> Now() == old(Now())
      ensures stack == old(stack) && timestamp == old(timestamp)
      ensures r.Some? ==>
                var d := if found.Found? then found.dict else stack[0];
                && d in old(dicts) && PutInto(old(dicts), dicts, d, NameKey(n), value, r.value)
                && r.value == PutOutcome(old(dicts)[d], NameKey(n), true)
      ensures forall m: nat :: Current(old(Now()), m) ==> Current(Now(), m)
    {
      hide Ok, EntriesOk, DictsOk, Topmost, OnTopFor, Holds, Holding, Shadows, Current, PutMeaning, LoadMeaning;
      hide EntryOk;
      ghost var s0 := Now();
      found := TryToLoad(n);
      ghost var s1 := Now();
      if !found.Found? && !found.NotFound? { return found, None; }
      LoadTarget(s0, n, found);
      var d := if found.Found? then found.dict else stack[0];
      var put := PutInDict(d, NameKey(n), value, true, true);
      StoreParts(s0, s1, Now(), d, n, value, put);
      r := Some(put);
    }

    /** ResetCache: every entry forgets its place, but keeps the dictionary. */
    method ResetCache()
      modifies `cache
      ensures |cache| == |old(cache)|
      ensures forall n :: 0 <= n < |cache| ==> cache[n] == old(cache)[n].(kvloc := None, ts := 0)
    {
      var i := 0;
      while i < |cache|
        invariant 0 <= i <= |cache| == |old(cache)|
        invariant forall n :: 0 <= n < i ==> cache[n] == old(cache)[n].(kvloc := None, ts := 0)
        invariant forall n :: i <= n < |cache| ==> cache[n] == old(cache)[n]
      {
        cache := cache[i := cache[i].(kvloc := None, ts := 0)];
        i := i + 1;
      }
    }

    /** The next timestamp, at which no entry is timely. */
    method Advance()
      requires Sound(Now())
      modifies `cache, `timestamp
      ensures Sound(Now()) && |cache| == |old(cache)|
      ensures NoHits(Now())
      ensures timestamp == if old(timestamp) + 1 == MAX_CARDINAL then 1 else old(timestamp) + 1
      ensures old(timestamp) + 1 < MAX_CARDINAL ==> cache == old(cache)
      ensures old(timestamp) + 1 == MAX_CARDINAL ==>
                forall n :: 0 <= n < |cache| ==> cache[n] == old(cache)[n].(kvloc := None, ts := 0)
    {
      hide Ok, Covered, HeldBy;
      timestamp := timestamp + 1;
      if timestamp == MAX_CARDINAL {
        ResetCache();
        timestamp := 1;
      }
    }

    method Begin(d: nat) returns (ok: bool)
      requires Sound(Now()) && d in dicts
      modifies `stack, `cache, `timestamp
      ensures Sound(Now()) && |cache| == |old(cache)|
      ensures ok <==> dicts[d].access != Access(false, false)
      ensures !ok ==> Now() == old(Now())
      ensures ok ==> stack == [d] + old(stack) && NoHits(Now())
      ensures ok ==> timestamp == if old(timestamp) + 1 == MAX_CARDINAL then 1 else old(timestamp) + 1
      ensures ok && old(timestamp) + 1 < MAX_CARDINAL ==> cache == old(cache)
      ensures ok && old(timestamp) + 1 == MAX_CARDINAL ==>
                forall n :: 0 <= n < |cache| ==> cache[n] == old(cache)[n].(kvloc := None, ts := 0)
    {
      hide EntriesOk, DictsOk;
      if dicts[d].access == Access(false, false) { return false; }
      Advance();
      Restacked(Now(), [d] + stack);
      stack := [d] + stack;
      ok := true;
    }

    method End() returns (ok: bool)
      requires Sound(Now())
      modifies `stack, `cache, `timestamp
      ensures Sound(Now()) && |cache| == |old(cache)|
      ensures ok <==> |old(stack)| > 2
      ensures !ok ==> Now() == old(Now())
      ensures ok ==> stack == old(stack)[1..] && NoHits(Now())
      ensures ok ==> timestamp == if old(timestamp) + 1 == MAX_CARDINAL then 1 else old(timestamp) + 1
      ensures ok && old(timestamp) + 1 < MAX_CARDINAL ==> cache == old(cache)
      ensures ok && old(timestamp) + 1 == MAX_CARDINAL ==>
                forall n :: 0 <= n < |cache| ==> cache[n] == old(cache)[n].(kvloc := None, ts := 0)
    {
      hide EntriesOk, DictsOk;
      if |stack| <= 2 { return false; }
      Restacked(Now(), stack[1..]);
      stack := stack[1..];
      Advance();
      ok := true;
    }

    /** known: through the cache if it names the dictionary, by a search of it otherwise. */
    method Known(d: nat, key: Key) returns (r: Option<bool>)
      requires Sound(Now()) && Usable(key) && d in dicts && !key.NullKey?
      ensures r.None? <==> dicts[d].access == Access(false, false)
      ensures r.Some? ==> (r.value <==> Holds(dicts[d], key))
    {
      if dicts[d].access == Access(false, false) { return None; }
      if key.NameKey? && cache[key.nval].dict == Some(d) {
        SoundEntry(Now(), key.nval);
        return Some(true);
      }
      var dl := SearchDict(dicts[d], key);
      r := Some(dl.Known?);
    }

    /** ReadOnlyDict: takes the right to write away, in the dictionary and in every entry that mirrors its access. */
    method ReadOnlyDict(d: nat) returns (ok: bool)
      requires Sound(Now()) && d in dicts
      modifies `dicts, `cache
      ensures Sound(Now()) && |cache| == |old(cache)|
      ensures ok <==> old(dicts)[d].access.read
      ensures !ok ==> Now() == old(Now())
      ensures ok ==> dicts == old(dicts)[d := old(dicts)[d].(access := Access(true, false))]
      ensures ok ==> forall n :: 0 <= n < |cache| ==> cache[n] == Mirrored(old(cache)[n], d, Access(true, false))
      ensures forall n: nat :: Current(Now(), n) <==> Current(old(Now()), n)
    {
      if !dicts[d].access.read { return false; }
      SetAccess(d, Access(true, false));
      ok := true;
    }

    method NoAccess(d: nat)
      requires Sound(Now()) && d in dicts
      modifies `dicts, `cache
      ensures Sound(Now()) && |cache| == |old(cache)|
      ensures dicts == old(dicts)[d := old(dicts)[d].(access := Access(false, false))]
      ensures forall n :: 0 <= n < |cache| ==> cache[n] == Mirrored(old(cache)[n], d, Access(false, false))
      ensures forall n: nat :: Current(Now(), n) <==> Current(old(Now()), n)
    {
      SetAccess(d, Access(false, false));
    }

    /** What ReadOnlyDict and noaccess have in common. */
    method SetAccess(d: nat, access: Access)
      requires Sound(Now()) && d in dicts
      modifies `dicts, `cache
      ensures Sound(Now()) && |cache| == |old(cache)|
      ensures dicts == old(dicts)[d := old(dicts)[d].(access := access)]
      ensures forall n :: 0 <= n < |cache| ==> cache[n] == Mirrored(old(cache)[n], d, access)
      ensures forall n: nat :: Current(Now(), n) <==> Current(old(Now()), n)
    {
      hide Sound, Current, Ok, Topmost;
      ghost var s0 := Now();
      dicts := dicts[d := dicts[d].(access := access)];
      var i := 0;
      while i < |cache|
        invariant 0 <= i <= |cache| == |s0.cache| && dicts == s0.dicts[d := s0.dicts[d].(access := access)]
        invariant forall n :: 0 <= n < i ==> cache[n] == Mirrored(s0.cache[n], d, access)
        invariant forall n :: i <= n < |cache| ==> cache[n] == s0.cache[n]
      {
        if cache[i].dict == Some(d) {
          cache := cache[i := cache[i].(access := access)];
        }
        i := i + 1;
      }
      AccessSet(s0, d, access, cache);
    }
  }

  /** What a search that finds the name in dict, at d, makes of its entry. */
  ghost predicate LoadedEntry(ce: Entry, d: nat, dict: Dict, loc: nat, timestamp: nat, now: Entry) {
    now == if ce.dict == Some(d) then ce.(kvloc := Some(loc), ts := timestamp)
           else Entry(Some(loc), Some(d), timestamp, dict.access, Joined(ce.vec, dict.bit))
  }

  lemma EntryLoaded(ce: Entry, d: nat, dict: Dict, loc: nat, timestamp: nat)
    ensures if ce.dict != Some(d) then
              LoadedEntry(ce, d, dict, loc, timestamp,
                          Entry(Some(loc), Some(d), timestamp, dict.access, With(ce.vec, dict.bit)))
            else ce.kvloc == Some(loc) ==> LoadedEntry(ce, d, dict, loc, timestamp, ce.(ts := timestamp))
  {
    hide With, Joined;
    WithIs(ce.vec, dict.bit);
  }

  function Mirrored(ce: Entry, d: nat, access: Access): Entry {
    if ce.dict == Some(d) then ce.(access := access) else ce
  }

  lemma SameKeys(d: Dict, access: Access)
    ensures Ok(d) ==> Ok(d.(access := access))
    ensures forall k :: Holds(d.(access := access), k) <==> Holds(d, k)
  {
  }

  lemma EntryMirrors(dicts: Dicts, n: nat, ce: Entry, timestamp: nat, d: nat, access: Access)
    requires EntryOk(dicts, n, ce, timestamp) && d in dicts
    ensures EntryOk(dicts[d := dicts[d].(access := access)], n, Mirrored(ce, d, access), timestamp)
  {
    hide Holds, MayHold, Ok;
    SameKeys(dicts[d], access);
    var dicts' := dicts[d := dicts[d].(access := access)];
    assert forall e :: HeldBy(dicts', e, NameKey(n)) <==> HeldBy(dicts, e, NameKey(n));
  }

  lemma AccessSet(s: State, d: nat, access: Access, cache: seq<Entry>)
    requires Sound(s) && d in s.dicts && |cache| == |s.cache|
    requires forall n :: 0 <= n < |cache| ==> cache[n] == Mirrored(s.cache[n], d, access)
    ensures var s1 := s.(dicts := s.dicts[d := s.dicts[d].(access := access)], cache := cache);
            Sound(s1) && forall n: nat :: Current(s1, n) <==> Current(s, n)
  {
    hide Topmost, EntryOk, Holds, Ok;
    var x := s.dicts[d].(access := access);
    var s1 := s.(dicts := s.dicts[d := x], cache := cache);
    SameKeys(s.dicts[d], access);
    forall n: nat ensures Current(s1, n) <==> Current(s, n) {
      TopmostKept(s.dicts, s.stack, d, x, NameKey(n));
    }
    forall n | 0 <= n < |cache| ensures EntryOk(s1.dicts, n, cache[n], s.timestamp) {
      EntryMirrors(s.dicts, n, s.cache[n], s.timestamp, d, access);
    }
  }

  /** The cache answers for no name. */
  ghost predicate NoHits(s: State) {
    forall n: nat :: !Hit(s, n)
  }

  lemma BitOf(ds: nat)
    requires ds < 32
    ensures (1 as bv32) << ds != 0
    ensures (1 as bv32) << ds == 1 <==> ds == 0
  {
  }

  lemma NewDictOk(d: Dict)
    requires forall c :: 0 <= c < |d.cells| ==> d.cells[c].key.NullKey?
    requires d.curlength == 0 <= d.maxlength < |d.cells|
    ensures Ok(d) && Contents(d.cells) == map[]
  {
    AllNull(d.cells);
  }

  lemma {:induction false} AllNull(cells: seq<KeyVal>)
    requires forall c :: 0 <= c < |cells| ==> cells[c].key.NullKey?
    ensures Count(cells) == 0 && Contents(cells) == map[]
  {
    if cells != [] {
      AllNull(cells[..|cells| - 1]);
    }
  }

  lemma NewDictSound(s: State, at: nat, d: Dict)
    requires Sound(s) && at !in s.dicts && Ok(d) && d.curlength == 0 && d.bit != 0
    ensures Sound(s.(dicts := s.dicts[at := d]))
    ensures forall n: nat :: Current(s.(dicts := s.dicts[at := d]), n) <==> Current(s, n)
  {
    hide Ok, Topmost, MayHold, Holds;
    var dicts' := s.dicts[at := d];
    EmptyDict(d);
    assert forall e, n: nat :: HeldBy(dicts', e, NameKey(n)) <==> HeldBy(s.dicts, e, NameKey(n));
    forall n | 0 <= n < |s.cache| ensures EntryOk(dicts', n, s.cache[n], s.timestamp) {
      SoundEntry(s, n);
    }
    forall n: nat ensures Current(s.(dicts := dicts'), n) <==> Current(s, n) {
      NotOnStack(s.dicts, dicts', s.stack, NameKey(n));
    }
  }

  lemma {:induction false} NotOnStack(dicts: Dicts, dicts': Dicts, stack: seq<nat>, key: Key)
    requires forall d :: d in stack ==> (HeldBy(dicts, d, key) <==> HeldBy(dicts', d, key))
    ensures Topmost(dicts, stack, key) == Topmost(dicts', stack, key)
  {
    hide HeldBy;
    if stack != [] {
      NotOnStack(dicts, dicts', stack[1..], key);
    }
  }

  /** The dictionaries before and after a put that was answered with r. */
  ghost predicate PutInto(dicts: Dicts, dicts': Dicts, d: nat, key: Key, value: Value, r: Put)
    requires d in dicts
  {
    if r.Done? then d in dicts' && dicts' == dicts[d := dicts'[d]] && Holding(dicts[d], dicts'[d], key, value)
    else dicts' == dicts
  }

  /** What a put amounts to while no entry has forgotten its place. */
  lemma PutParts(s0: State, s1: State, d: nat, key: Key, value: Value, top: bool, r: Put)
    requires d in s0.dicts && PutMeaning(s0, s1, d, key, value, top, true, r)
    requires key.NameKey? ==> if top then OnTopFor(s0.dicts, s0.stack, d, key) else !Shadows(s0, d, key.nval)
    ensures r == PutAnswer(s0, d, key, true)
    ensures PutInto(s0.dicts, s1.dicts, d, key, value, r) && s1.stack == s0.stack && s1.timestamp == s0.timestamp
    ensures |s1.cache| == |s0.cache| && (NilFree(s0) ==> NilFree(s1))
    ensures forall m: nat :: Current(s0, m) ==> Current(s1, m)
  {
  }

  /** What a store amounts to, after the load. */
  lemma StoreParts(s: State, s0: State, s1: State, d: nat, n: nat, value: Value, r: Put)
    requires d in s0.dicts && PutMeaning(s0, s1, d, NameKey(n), value, true, true, r) && !Forgotten(s0, n, d)
    requires s0.dicts == s.dicts && s0.stack == s.stack
    requires forall m: nat :: Current(s, m) ==> Current(s0, m)
    requires Current(s, n) ==> OnTopFor(s.dicts, s.stack, d, NameKey(n))
    ensures r == PutOutcome(s0.dicts[d], NameKey(n), true)
    ensures PutInto(s0.dicts, s1.dicts, d, NameKey(n), value, r) && s1.stack == s0.stack
    ensures s1.timestamp == s0.timestamp && |s1.cache| == |s0.cache| && (NilFree(s0) ==> NilFree(s1))
    ensures forall m: nat :: Current(s, m) ==> Current(s1, m)
  {
    hide Current, OnTopFor;
  }

  lemma EmptyDict(d: Dict)
    requires Ok(d) && d.curlength == 0
    ensures forall k :: Holds(d, k) ==> k.NullKey?
  {
    if k :| Holds(d, k) && !k.NullKey? {
      var c :| 0 <= c < |d.cells| && d.cells[c].key == k;
      UsedCell(d.cells, c);
    }
  }

  lemma {:induction false} UsedCell(cells: seq<KeyVal>, c: nat)
    requires c < |cells| && !cells[c].key.NullKey?
    ensures Count(cells) > 0
  {
    if c < |cells| - 1 {
      UsedCell(cells[..|cells| - 1], c);
    }
  }

  lemma Restacked(s: State, stack: seq<nat>)
    requires Sound(s) && StackOk(s.dicts, stack)
    ensures Sound(s.(stack := stack)) && (NoHits(s) ==> NoHits(s.(stack := stack)))
  {
    hide EntryOk, DictsOk;
    assert forall n: nat :: Hit(s.(stack := stack), n) <==> Hit(s, n);
  }

  lemma NotPut(s: State, d: nat, key: Key, value: Value, top: bool, checkacc: bool, r: Put)
    requires d in s.dicts && r == PutAnswer(s, d, key, checkacc) && !r.Done?
    ensures PutMeaning(s, s, d, key, value, top, checkacc, r)
  {
  }

  /** The cache knows the place of the key in d. */
  lemma StoredPut(s: State, d: nat, loc: nat, key: Key, value: Value, ce: Entry, top: bool, checkacc: bool)
    requires Sound(s) && d in s.dicts && key.NameKey? && key.nval < |s.cache|
    requires s.cache[key.nval].dict == Some(d) && s.cache[key.nval].kvloc == Some(loc)
    requires !checkacc || s.dicts[d].access.write
    requires ce == if top then s.cache[key.nval].(ts := s.timestamp) else s.cache[key.nval]
    ensures loc < |s.dicts[d].cells|
    ensures Sound(PutState(s, d, Stored(s.dicts[d], loc, value), key, ce))
    ensures PutMeaning(s, PutState(s, d, Stored(s.dicts[d], loc, value), key, ce), d, key, value, top, checkacc, Done)
  {
    hide Ok, Topmost, OnTopFor, Contents, EntriesOk, With, Current, Covered, PutMeaning, MayHold, Grew;
    SoundEntry(s, key.nval);
    var x := Stored(s.dicts[d], loc, value);
    StoreOk(s.dicts[d], loc, value);
    assert Holds(s.dicts[d], key);
    OwnKept(s.dicts, d, x, key.nval, s.cache[key.nval], s.timestamp);
    DidPut(s, d, x, key, value, ce, top, checkacc);
  }

  lemma SearchedStored(s: State, d: nat, loc: nat, key: Key, value: Value, checkacc: bool)
    requires Sound(s) && d in s.dicts && loc < |s.dicts[d].cells| && s.dicts[d].cells[loc].key == key && !key.NullKey?
    requires !checkacc || s.dicts[d].access.write
    requires !(key.NameKey? && Forgotten(s, key.nval, d))
    ensures Holding(s.dicts[d], Stored(s.dicts[d], loc, value), key, value)
    ensures PutAnswer(s, d, key, checkacc).Done? && Holds(s.dicts[d], key)
  {
    hide Ok, Contents, Grew;
    StoreOk(s.dicts[d], loc, value);
  }

  lemma SearchedInserted(s: State, d: nat, slot: nat, key: Key, value: Value, checkacc: bool)
    requires Sound(s) && d in s.dicts && !key.NullKey? && !Holds(s.dicts[d], key) && EndsAt(s.dicts[d].cells, key, slot)
    requires s.dicts[d].curlength < s.dicts[d].maxlength && (!checkacc || s.dicts[d].access.write)
    requires !(key.NameKey? && Forgotten(s, key.nval, d))
    ensures Holding(s.dicts[d], Inserted(s.dicts[d], slot, key, value), key, value)
    ensures PutAnswer(s, d, key, checkacc).Done?
  {
    hide Ok, Contents, Grew;
    InsertOk(s.dicts[d], slot, key, value);
  }

  /** The entry of the key is pointed at its place in d, with the present timestamp or one that is never met. */
  lemma Repointed(s: State, d: nat, x: Dict, loc: nat, key: Key, value: Value, ts: nat, top: bool, checkacc: bool)
    requires Sound(s) && d in s.dicts && Holding(s.dicts[d], x, key, value) && PutAnswer(s, d, key, checkacc).Done?
    requires loc < |x.cells| && x.cells[loc].key == key && (key.NameKey? ==> key.nval < |s.cache|)
    requires top ==> ts == s.timestamp
    requires !top ==> ts == 0 && key.NameKey? && s.cache[key.nval].vec == 0 && !Holds(s.dicts[d], key)
    requires key.NameKey? ==> s.cache[key.nval].dict != Some(d)
    ensures var ce := if key.NameKey? then Entry(Some(loc), Some(d), ts, x.access, With(s.cache[key.nval].vec, x.bit))
              else NEW_ENTRY;
            Sound(PutState(s, d, x, key, ce))
              && PutMeaning(s, PutState(s, d, x, key, ce), d, key, value, top, checkacc, Done)
  {
    hide EntryAfter, Joined, Ok, Topmost, OnTopFor, Contents, EntriesOk, With, Current, PutMeaning, MayHold, Grew;
    var ce := NEW_ENTRY;
    if key.NameKey? {
      var n := key.nval;
      ce := Entry(Some(loc), Some(d), ts, x.access, With(s.cache[n].vec, x.bit));
      SoundEntry(s, n);
      SameBit(s.dicts[d], x, key);
      OwnKept(s.dicts, d, x, n, s.cache[n], s.timestamp);
      assert HeldBy(s.dicts[d := x], d, key);
      EntryRepointed(s.cache[n], d, s.dicts[d], HeldBy(s.dicts, d, key), top, s.timestamp, loc);
      if !top && s.cache[n].dict.Some? {
        AnyBit(s.dicts[s.cache[n].dict.value].bit);
      }
    }
    DidPut(s, d, x, key, value, ce, top, checkacc);
  }

  /** The entry of the key stays, and learns the bit of d. */
  lemma Widened(s: State, d: nat, x: Dict, key: Key, value: Value, checkacc: bool)
    requires Sound(s) && d in s.dicts && Holding(s.dicts[d], x, key, value) && PutAnswer(s, d, key, checkacc).Done?
    requires key.NameKey? && key.nval < |s.cache| && !Holds(s.dicts[d], key)
    requires s.cache[key.nval].dict != Some(d) && s.cache[key.nval].vec != 0
    ensures var ce := s.cache[key.nval].(vec := With(s.cache[key.nval].vec, x.bit));
            Sound(PutState(s, d, x, key, ce))
              && PutMeaning(s, PutState(s, d, x, key, ce), d, key, value, false, checkacc, Done)
  {
    hide EntryAfter, Joined, Ok, Topmost, OnTopFor, Contents, EntriesOk, With, Current, PutMeaning, MayHold, Grew;
    hide EntryOk;
    SoundEntry(s, key.nval);
    OwnKept(s.dicts, d, x, key.nval, s.cache[key.nval], s.timestamp);
    EntryWidened(s.cache[key.nval], d, s.dicts[d], s.timestamp);
    SameBit(s.dicts[d], x, key);
    DidPut(s, d, x, key, value, s.cache[key.nval].(vec := With(s.cache[key.nval].vec, x.bit)), false, checkacc);
  }

  /** The key was in d, or is not a name: nothing changes in the cache. */
  lemma Unmoved(s: State, d: nat, x: Dict, key: Key, value: Value, checkacc: bool)
    requires Sound(s) && d in s.dicts && Holding(s.dicts[d], x, key, value) && PutAnswer(s, d, key, checkacc).Done?
    requires key.NameKey? ==>
               key.nval < |s.cache| && Holds(s.dicts[d], key) && s.cache[key.nval].dict != Some(d)
    ensures var ce := if key.NameKey? then s.cache[key.nval] else NEW_ENTRY;
            Sound(PutState(s, d, x, key, ce))
              && PutMeaning(s, PutState(s, d, x, key, ce), d, key, value, false, checkacc, Done)
  {
    hide Ok, Topmost, OnTopFor, Contents, EntriesOk, With, Current, PutMeaning, MayHold, Grew, EntryOk;
    if key.NameKey? {
      SoundEntry(s, key.nval);
      OwnKept(s.dicts, d, x, key.nval, s.cache[key.nval], s.timestamp);
    }
    DidPut(s, d, x, key, value, if key.NameKey? then s.cache[key.nval] else NEW_ENTRY, false, checkacc);
  }
}
