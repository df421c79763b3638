/**
  What happens to the name cache between a save and its restore (PostScript/Adobe/vm.c:683-694, dict.c).

  restore puts the dictionaries back as they were at the save, and with them the cache entries written since, without
  their timestamps.  The timestamp it leaves alone, and of the dictionary stack it only takes what is newer than the
  save.  That the cache is right for the old dictionaries under the present stack and timestamp takes an argument
  about what has happened in between.
 */
module PsSince {
  import opened PsDict
  import opened PsNameCache
  import opened Wrappers

  // ---------------------------------------------------------------- what has happened since a save

  /** The entry is what it was, but that a restore in between may have taken its timestamp away. */
  predicate Faded(now: Entry, was: Entry) {
    now == was || now == was.(ts := 0)
  }

  /** No begin or end has come since the save; or one has, and the timestamp is later, or no old one is left. */
  ghost predicate Clock(s0: State, s: State, written: set<nat>, moved: bool) {
    if !moved then s.timestamp == s0.timestamp && s.stack == s0.stack
    else s.timestamp > s0.timestamp || forall n :: 0 <= n < |s.cache| && n !in written ==> s.cache[n].ts == 0
  }

  /** s has come from the state s0 of a save; the entries in written have been written since. */
  ghost predicate Since(s0: State, s: State, written: set<nat>, moved: bool) {
    && |s.cache| == |s0.cache|
    && (forall n :: 0 <= n < |s.cache| && n !in written ==> Faded(s.cache[n], s0.cache[n]))
    && Clock(s0, s, written, moved)
  }

  lemma SaveIsSince(s: State)
    ensures Since(s, s, {}, false)
  {
  }

  /** A begin or end advances the timestamp, or makes it wrap and writes every entry. */
  ghost predicate Stepped(s: State, s': State, more: set<nat>) {
    && |s'.cache| == |s.cache|
    && (forall n :: 0 <= n < |s.cache| && n !in more ==> s'.cache[n] == s.cache[n])
    && (Moves(s, s') ==> s'.timestamp > s.timestamp || forall n :: 0 <= n < |s.cache| ==> n in more)
  }

  /** There has been a begin or an end. */
  predicate Moves(s: State, s': State) {
    s'.timestamp != s.timestamp || s'.stack != s.stack
  }

  lemma StepSince(s0: State, s: State, s': State, written: set<nat>, moved: bool, more: set<nat>)
    requires Since(s0, s, written, moved) && Stepped(s, s', more)
    ensures Since(s0, s', written + more, moved || Moves(s, s'))
  {
  }

  /** The entries that differ. */
  function Changed(s: State, s': State): (ns: set<nat>)
    requires |s'.cache| == |s.cache|
    ensures forall n: nat :: n in ns <==> n < |s.cache| && s'.cache[n] != s.cache[n]
  {
    set n: nat | n < |s.cache| && s'.cache[n] != s.cache[n]
  }

  lemma ForwardStep(s: State, s': State)
    requires |s'.cache| == |s.cache| && (s'.stack == s.stack || s'.timestamp > s.timestamp)
    requires s'.timestamp >= s.timestamp
    ensures Stepped(s, s', Changed(s, s'))
  {
  }

  function AllNames(s: State): (ns: set<nat>)
    ensures forall n: nat :: n in ns <==> n < |s.cache|
  {
    set n: nat | n < |s.cache| && HasEntry(s, n)
  }

  predicate HasEntry(s: State, n: nat) {
    n < |s.cache|
  }

  // ---------------------------------------------------------------- restore

  /**
    What restore leaves: the dictionaries of the save; entries written since as they were then, without timestamps;
    all other entries and the timestamp as they are; and of the stack what refers to nothing newer than the save,
    which is all of it if there has been no begin or end.
   */
  ghost predicate Restores(s0: State, s: State, s1: State, written: set<nat>, moved: bool) {
    && s1.dicts == s0.dicts && s1.timestamp == s.timestamp && |s1.cache| == |s.cache| == |s0.cache|
    && StackOk(s0.dicts, s1.stack)
    && (!moved ==> s1.stack == s.stack)
    && forall n :: 0 <= n < |s.cache| ==>
         s1.cache[n] == if n in written then s0.cache[n].(ts := 0) else s.cache[n]
  }

  lemma EntryRestored(s0: State, s: State, s1: State, written: set<nat>, moved: bool, n: nat)
    requires Sound(s0) && Sound(s) && Since(s0, s, written, moved) && Restores(s0, s, s1, written, moved)
    requires n < |s.cache|
    ensures Faded(s1.cache[n], s0.cache[n]) && s1.cache[n].ts <= s.timestamp
    ensures Hit(s1, n) ==> Hit(s0, n) && s1.cache[n] == s0.cache[n] && s1.stack == s0.stack
  {
    hide Holds, MayHold, DictsOk;
    SoundEntry(s, n);
    SoundEntry(s0, n);
  }

  /**
    After restore the cache is sound for the dictionaries of the save; no place is forgotten that was not then; and
    if it was right for all names at the save it is right for all names now.
   */
  lemma RestoreKeepsCache(s0: State, s: State, s1: State, written: set<nat>, moved: bool)
    requires Sound(s0) && Sound(s) && Since(s0, s, written, moved) && Restores(s0, s, s1, written, moved)
    ensures Sound(s1)
    ensures NilFree(s0) ==> NilFree(s1)
    ensures AllCurrent(s0) ==> AllCurrent(s1)
  {
    hide Holds, MayHold, DictsOk, Topmost, Since, Hit;
    assert |s.cache| == |s0.cache| by { SinceSize(s0, s, written, moved); }
    forall n | 0 <= n < |s1.cache| ensures EntryOk(s1.dicts, n, s1.cache[n], s1.timestamp) {
      EntryRestored(s0, s, s1, written, moved, n);
      SoundEntry(s0, n);
    }
    forall n: nat | Current(s0, n) ensures Current(s1, n) {
      if n < |s1.cache| {
        EntryRestored(s0, s, s1, written, moved, n);
      } else {
        NoEntry(s1, n);
      }
    }
    forall n | 0 <= n < |s1.cache| && NilFree(s0) && s1.cache[n].dict.Some? ensures s1.cache[n].kvloc.Some? {
      EntryRestored(s0, s, s1, written, moved, n);
    }
  }

  lemma SinceSize(s0: State, s: State, written: set<nat>, moved: bool)
    requires Since(s0, s, written, moved)
    ensures |s.cache| == |s0.cache|
  {
  }

  lemma NoEntry(s: State, n: nat)
    requires n >= |s.cache|
    ensures !Hit(s, n)
  {
  }

  /** Save and restore nest: seen from an outer save, an inner one with its restore is one more thing that happened. */
  lemma NestedRestore(s0: State, a: State, b: State, c: State, written: set<nat>, inner: set<nat>,
                      movedA: bool, movedB: bool)
    requires Since(s0, a, written, movedA) && Since(a, b, inner, movedB) && Restores(a, b, c, inner, movedB)
    ensures Since(s0, c, written, movedA || movedB)
  {
    hide StackOk;
  }
}
