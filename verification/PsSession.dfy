/**
  Whole sessions of the dictionary operators with save and restore (PostScript/Adobe/dict.c, vm.c), against an
  interpreter that keeps no cache.

  Every cache entry carries the level of its last write, and every object on the dictionary stack the level it was
  made at.  restore puts back the dictionaries, and of the cache the entries written above its level, without their
  timestamps; it takes newer objects off the stack, and leaves timestamp and stack as they are otherwise.  That this
  is what the log of VmStore does is PsRestore.MemoryRestores.
 */
module PsSession {
  import opened PsDict
  import opened PsDictRuns
  import opened PsDictStack
  import opened PsNameCache
  import opened PsSince
  import VM = VmStore
  import opened Wrappers

  // ---------------------------------------------------------------- without a cache

  datatype NaiveSession = NaiveSession(n: Naive, refs: seq<VM.Ref>, saved: seq<map<nat, NaiveDict>>)

  /** BeginVia is begin of a dictionary object, which has a level of its own; Restrict is noaccess or readonly. */
  datatype Act = Run(op: Op) | BeginVia(d: nat, ref: VM.Ref) | MakeDict(at: nat, maxlength: nat)
               | Restrict(d: nat, all: bool) | SaveAct | RestoreAct(to: nat)

  datatype Reply = Answered(a: Answer) | Made | TooLong | Saved | NoMoreLevels | NotALevel | Restored | Cleared

  /** What each operator means when there is no cache. */
  function NaiveAct(ns: NaiveSession, act: Act): (NaiveSession, Reply)
    requires LegalAct(ns, act)
  {
    match act
    case Run(op) =>
      var r := NaiveStep(ns.n, op);
      (ns.(n := r.0, refs := if op.EndOp? && |ns.n.stack| > 2 then ns.refs[1..] else ns.refs), Answered(r.1))
    case BeginVia(d, ref) =>
      var r := NaiveStep(ns.n, BeginOp(d));
      (ns.(n := r.0, refs := if ns.n.dicts[d].access.read then [ref] + ns.refs else ns.refs), Answered(r.1))
    case MakeDict(at, maxlength) =>
      if maxlength <= MAX_DICT_LENGTH then
        var d := NaiveDict(map[], maxlength, Access(true, true));
        (ns.(n := ns.n.(dicts := ns.n.dicts[at := d])), Made)
      else (ns, TooLong)
    case Restrict(d, all) =>
      if !all && !ns.n.dicts[d].access.read then (ns, Answered(Error(Denied)))
      else
        var now := ns.n.dicts[d].(access := Access(!all, false));
        (ns.(n := ns.n.(dicts := ns.n.dicts[d := now])), Answered(Ok_))
    case SaveAct =>
      if |ns.saved| >= VM.MAX_LEVEL then (ns, NoMoreLevels) else (ns.(saved := ns.saved + [ns.n.dicts]), Saved)
    case RestoreAct(to) =>
      if to >= |ns.saved| then (ns, NotALevel)
      else
        var refs := VM.Cleaned(ns.refs, to);
        var stack := ns.n.stack[|ns.refs| - |refs|..];
        (NaiveSession(Naive(ns.saved[to], stack), refs, ns.saved[..to]), if refs == ns.refs then Restored else Cleared)
  }

  /**
    Operands exist, and a dictionary object of some level refers to a dictionary that existed at all later saves; a
    dput of a new name is not into a dictionary on the stack, and noaccess does not hit one there.
   */
  predicate LegalAct(ns: NaiveSession, act: Act) {
    && |ns.refs| == |ns.n.stack|
    && match act
       case Run(op) => !op.BeginOp? && Legal(ns.n, op)
       case BeginVia(d, ref) =>
         && Legal(ns.n, BeginOp(d)) && ref.typ == VM.DictObj && ref.level <= |ns.saved|
         && forall k :: ref.level <= k < |ns.saved| ==> d in ns.saved[k]
       case MakeDict(at, _) => at !in ns.n.dicts
       case Restrict(d, all) => d in ns.n.dicts && (all ==> d !in ns.n.stack)
       case _ => true
  }

  function ActTicks(act: Act): nat {
    if act.BeginVia? then 1 else if act.Run? then Ticks(act.op) else 0
  }

  // ---------------------------------------------------------------- what a session keeps

  /** What a save takes note of. */
  datatype Save = Save(dicts: Dicts, cache: seq<Entry>, levels: seq<nat>, dictCount: nat)

  /** A moment of a session: its state, the levels of entries and of stacked objects, how many begins and ends ago. */
  datatype Moment = Moment(s: State, levels: seq<nat>, refs: seq<VM.Ref>, turns: nat)

  /** Dictionary objects made at the level or below, the two lowest at level 0. */
  ghost predicate MadeBy(refs: seq<VM.Ref>, level: nat) {
    && |refs| >= 2 && refs[|refs| - 1].level == 0 && refs[|refs| - 2].level == 0
    && forall i :: 0 <= i < |refs| ==> refs[i].typ == VM.DictObj && refs[i].level <= level
  }

  ghost predicate MomentOk(m: Moment, level: nat) {
    && Good(m.s) && |m.levels| == |m.s.cache| && |m.refs| == |m.s.stack|
    && (forall n :: 0 <= n < |m.levels| ==> m.levels[n] <= level)
    && MadeBy(m.refs, level)
  }

  /** The entries last written above level j. */
  function Above(m: Moment, j: nat): (ns: set<nat>)
    ensures forall n: nat :: n in ns <==> n < |m.levels| && m.levels[n] > j
  {
    set n: nat | n < |m.levels| && m.levels[n] > j
  }

  /** Dictionaries stay, and none that could not be read can be read again. */
  ghost predicate DictsKept(a: Dicts, b: Dicts) {
    forall d :: d in a ==> d in b && (b[d].access.read ==> a[d].access.read)
  }

  /** b has come from a, when level j + 1 was opened. */
  ghost predicate PairOk(a: Moment, b: Moment, j: nat) {
    && a.turns <= b.turns && |b.levels| == |a.levels|
    && Since(a.s, b.s, Above(b, j), a.turns != b.turns)
    && (forall n :: 0 <= n < |b.levels| && b.levels[n] <= j ==> b.levels[n] == a.levels[n])
    && (a.turns == b.turns ==> b.refs == a.refs)
    && DictsKept(a.s.dicts, b.s.dicts)
  }

  /** What an object on the stack refers to existed at every save since the object was made. */
  ghost predicate RefsOk(m: Moment, moments: seq<Moment>) {
    |m.refs| == |m.s.stack| && forall i, j :: 0 <= i < |m.refs| && 0 <= j < |moments| && m.refs[i].level <= j ==>
      m.s.stack[i] in moments[j].s.dicts
  }

  ghost predicate SessionOk(m: Moment, moments: seq<Moment>) {
    && MomentOk(m, |moments|) && RefsOk(m, moments)
    && (forall k :: 0 <= k < |moments| ==> MomentOk(moments[k], k) && PairOk(moments[k], m, k))
    && forall j, k :: 0 <= j < k < |moments| ==> PairOk(moments[j], moments[k], j)
  }

  /** The session as an interpreter without a cache sees it. */
  ghost function View(m: Moment, moments: seq<Moment>): NaiveSession {
    NaiveSession(Abs(m.s), m.refs, seq(|moments|, k requires 0 <= k < |moments| => AbsDicts(moments[k].s.dicts)))
  }

  // ---------------------------------------------------------------- operators

  /** An operator has taken the session from m to m'. */
  ghost predicate Advanced(m: Moment, m': Moment, level: nat, more: set<nat>) {
    && Stepped(m.s, m'.s, more) && |m'.levels| == |m.levels| == |m.s.cache|
    && (forall n :: 0 <= n < |m.levels| ==> m'.levels[n] == if n in more then level else m.levels[n])
    && m'.turns == m.turns + (if Moves(m.s, m'.s) then 1 else 0)
    && (!Moves(m.s, m'.s) ==> m'.refs == m.refs)
    && DictsKept(m.s.dicts, m'.s.dicts)
  }

  lemma PairAdvanced(a: Moment, m: Moment, m': Moment, j: nat, level: nat, more: set<nat>)
    requires PairOk(a, m, j) && Advanced(m, m', level, more) && j < level
    ensures PairOk(a, m', j)
  {
    hide Since, Stepped, Moves;
    StepSince(a.s, m.s, m'.s, Above(m, j), a.turns != m.turns, more);
    StepSize(m.s, m'.s, more);
    SinceBounded(a.s, m'.s, Above(m, j) + more, a.turns != m'.turns, Above(m', j));
  }

  lemma StepSize(s: State, s': State, more: set<nat>)
    requires Stepped(s, s', more)
    ensures |s'.cache| == |s.cache|
  {
  }

  /** Only the names of entries matter. */
  lemma SinceBounded(s0: State, s: State, written: set<nat>, moved: bool, more: set<nat>)
    requires Since(s0, s, written, moved) && forall n: nat :: n in written && n < |s.cache| ==> n in more
    ensures Since(s0, s, more, moved)
  {
  }

  lemma SessionAdvanced(m: Moment, m': Moment, moments: seq<Moment>, more: set<nat>)
    requires SessionOk(m, moments) && Advanced(m, m', |moments|, more) && Good(m'.s)
    requires |m'.refs| == |m'.s.stack| && RefsOk(m', moments)
    requires MadeBy(m'.refs, |moments|)
    ensures SessionOk(m', moments)
  {
    hide Good, PairOk, RefsOk, Stepped, DictsKept;
    StepSize(m.s, m'.s, more);
    forall k | 0 <= k < |moments| ensures PairOk(moments[k], m', k) {
      PairAdvanced(moments[k], m, m', k, |moments|, more);
    }
  }

  // ---------------------------------------------------------------- save

  lemma SaveOk(m: Moment, moments: seq<Moment>)
    requires SessionOk(m, moments)
    ensures SessionOk(m, moments + [m])
  {
    hide Good, Since, DictsKept;
    var more := moments + [m];
    PairSelf(m, |moments|);
    forall j, k | 0 <= j < k < |more| ensures PairOk(more[j], more[k], j) {
      assert k == |moments| ==> PairOk(moments[j], m, j);
    }
    StackThere(m);
  }

  lemma PairSelf(m: Moment, level: nat)
    requires MomentOk(m, level)
    ensures PairOk(m, m, level)
  {
    hide Good, Since;
    SaveIsSince(m.s);
    assert Above(m, level) == {};
  }

  lemma StackThere(m: Moment)
    requires Good(m.s)
    ensures forall i :: 0 <= i < |m.s.stack| ==> m.s.stack[i] in m.s.dicts
  {
  }

  // ---------------------------------------------------------------- restore

  /** The session after a restore to level to. */
  ghost predicate Back(a: Moment, m: Moment, m': Moment, to: nat) {
    && m'.s.dicts == a.s.dicts && m'.s.timestamp == m.s.timestamp && m'.turns == m.turns
    && |m.refs| == |m.s.stack| && m'.refs == VM.Cleaned(m.refs, to)
    && m'.s.stack == m.s.stack[|m.refs| - |m'.refs|..]
    && |m'.s.cache| == |m.s.cache| == |a.s.cache| == |m'.levels| == |m.levels| == |a.levels|
    && (forall n :: 0 <= n < |m.levels| ==>
          && m'.s.cache[n] == (if m.levels[n] > to then a.s.cache[n].(ts := 0) else m.s.cache[n])
          && m'.levels[n] == (if m.levels[n] > to then a.levels[n] else m.levels[n]))
  }

  /** Cleaning stops at the latest above the two lowest objects. */
  lemma LowestStay(refs: seq<VM.Ref>, level: nat, to: nat, skip: nat)
    requires MadeBy(refs, level) && skip <= |refs| && (skip > 0 ==> VM.Newer(refs[skip - 1], to))
    ensures skip + 2 <= |refs|
  {
  }

  lemma SuffixMade(refs: seq<VM.Ref>, level: nat, to: nat, skip: nat)
    requires MadeBy(refs, level) && skip + 2 <= |refs| && !VM.AnyNewer(refs[skip..], to)
    ensures MadeBy(refs[skip..], to)
  {
    var rest := refs[skip..];
    forall i | 0 <= i < |rest| ensures rest[i].typ == VM.DictObj && rest[i].level <= to {
      assert rest[i] == refs[skip + i] && !VM.Newer(rest[i], to);
    }
  }

  /** The two lowest objects stay on the stack, and nothing newer does. */
  lemma CleanedMade(refs: seq<VM.Ref>, level: nat, to: nat)
    requires MadeBy(refs, level)
    ensures var rest := VM.Cleaned(refs, to);
            MadeBy(rest, to) && |rest| <= |refs| && rest == refs[|refs| - |rest|..]
  {
    hide VM.Cleaned, VM.AnyNewer, VM.Newer, MadeBy;
    var rest := VM.Cleaned(refs, to);
    var skip := |refs| - |rest|;
    assert rest == refs[skip..];
    LowestStay(refs, level, to, skip);
    SuffixMade(refs, level, to, skip);
  }

  /** What stays on the stack existed at the save. */
  lemma BackStack(a: Moment, m: Moment, m': Moment, to: nat, moments: seq<Moment>)
    requires RefsOk(m', moments) && MadeBy(m'.refs, to) && to < |moments| && a == moments[to]
    ensures StackOk(a.s.dicts, m'.s.stack)
  {
    forall d | d in m'.s.stack ensures d in a.s.dicts {
      var i :| 0 <= i < |m'.s.stack| && m'.s.stack[i] == d;
      assert m'.refs[i].level <= to;
    }
  }

  lemma BackRefs(a: Moment, m: Moment, m': Moment, moments: seq<Moment>, level: nat, to: nat)
    requires MomentOk(m, level) && RefsOk(m, moments) && Back(a, m, m', to)
    ensures MadeBy(m'.refs, to) && RefsOk(m', moments)
    ensures forall d :: d in m'.s.stack ==> d in m.s.stack
  {
    hide Good, VM.Cleaned;
    CleanedMade(m.refs, level, to);
    RefsSuffix(m, m', moments);
  }

  lemma RefsSuffix(m: Moment, m': Moment, moments: seq<Moment>)
    requires RefsOk(m, moments) && |m'.refs| <= |m.refs|
    requires m'.refs == m.refs[|m.refs| - |m'.refs|..] && m'.s.stack == m.s.stack[|m.refs| - |m'.refs|..]
    ensures RefsOk(m', moments)
    ensures forall d :: d in m'.s.stack ==> d in m.s.stack
  {
    var skip := |m.refs| - |m'.refs|;
    forall i, j | 0 <= i < |m'.refs| && 0 <= j < |moments| && m'.refs[i].level <= j
      ensures m'.s.stack[i] in moments[j].s.dicts
    {
      assert m.refs[skip + i].level <= j && m'.s.stack[i] == m.s.stack[skip + i];
    }
  }

  /** Nothing is taken off a stack on which nothing is newer. */
  lemma NoneNewer(a: Moment, m: Moment, m': Moment, to: nat)
    requires MomentOk(a, to) && Back(a, m, m', to) && m.refs == a.refs
    ensures m'.refs == m.refs && m'.s.stack == m.s.stack
  {
    hide Good;
    assert !VM.AnyNewer(m.refs, to);
  }

  lemma BackRestores(a: Moment, m: Moment, m': Moment, to: nat, moments: seq<Moment>)
    requires SessionOk(m, moments) && to < |moments| && a == moments[to] && Back(a, m, m', to)
    ensures Restores(a.s, m.s, m'.s, Above(m, to), a.turns != m.turns)
    ensures m'.levels == a.levels && (a.turns == m.turns ==> m'.refs == m.refs)
  {
    hide Since, Good, VM.Cleaned, MomentOk, RefsOk, SessionOk, StackOk;
    SaveFacts(m, moments, to);
    BackRefs(a, m, m', moments, |moments|, to);
    BackStack(a, m, m', to, moments);
    if a.turns == m.turns {
      NoneNewer(a, m, m', to);
    }
  }

  lemma PairBack(b: Moment, a: Moment, m: Moment, m': Moment, j: nat, to: nat)
    requires PairOk(b, a, j) && PairOk(a, m, to) && j < to
    requires Restores(a.s, m.s, m'.s, Above(m, to), a.turns != m.turns)
    requires m'.levels == a.levels && m'.turns == m.turns && (a.turns == m.turns ==> m'.refs == m.refs)
    ensures PairOk(b, m', j)
  {
    hide Since;
    NestedRestore(b.s, a.s, m.s, m'.s, Above(a, j), Above(m, to), b.turns != a.turns, a.turns != m.turns);
    assert Above(m', j) == Above(a, j);
    RestoresDicts(a.s, m.s, m'.s, Above(m, to), a.turns != m.turns);
  }

  lemma RestoresDicts(s0: State, s: State, s1: State, written: set<nat>, moved: bool)
    requires Restores(s0, s, s1, written, moved)
    ensures s1.dicts == s0.dicts
  {
  }

  lemma GoodBack(a: Moment, m: Moment, m': Moment, to: nat)
    requires Good(a.s) && Good(m.s) && PairOk(a, m, to)
    requires Restores(a.s, m.s, m'.s, Above(m, to), a.turns != m.turns)
    requires forall d :: d in m'.s.stack ==> d in m.s.stack
    ensures Good(m'.s)
  {
    hide Sound, Since, AllCurrent, NilFree;
    RestoreKeepsCache(a.s, m.s, m'.s, Above(m, to), a.turns != m.turns);
    RestoredStack(a.s, m.s, m'.s, Above(m, to), a.turns != m.turns);
  }

  lemma RestoredStack(s0: State, s: State, s1: State, written: set<nat>, moved: bool)
    requires Restores(s0, s, s1, written, moved)
    ensures s1.dicts == s0.dicts && forall d :: d in s1.stack ==> d in s0.dicts
  {
  }

  lemma MomentBack(m: Moment, m': Moment, a: Moment, to: nat)
    requires MomentOk(a, to) && Back(a, m, m', to) && m'.levels == a.levels && Good(m'.s) && MadeBy(m'.refs, to)
    ensures MomentOk(m', to)
  {
    hide Good, MadeBy;
  }

  /** What a restore is about. */
  lemma SaveFacts(m: Moment, moments: seq<Moment>, to: nat)
    requires SessionOk(m, moments) && to < |moments|
    ensures MomentOk(m, |moments|) && RefsOk(m, moments) && MomentOk(moments[to], to) && PairOk(moments[to], m, to)
    ensures forall k :: 0 <= k < to ==> MomentOk(moments[k], k) && PairOk(moments[k], moments[to], k)
    ensures forall j, k :: 0 <= j < k < to ==> PairOk(moments[j], moments[k], j)
  {
    hide MomentOk, PairOk, RefsOk;
  }

  lemma MomentGood(m: Moment, level: nat)
    requires MomentOk(m, level)
    ensures Good(m.s)
  {
    hide Good;
  }

  lemma SessionBack(m: Moment, m': Moment, moments: seq<Moment>, to: nat)
    requires SessionOk(m, moments) && to < |moments| && Back(moments[to], m, m', to)
    ensures SessionOk(m', moments[..to])
  {
    hide Good, PairOk, Restores, VM.Cleaned, RefsOk, MomentOk, Back, MadeBy;
    var a, rest := moments[to], moments[..to];
    SaveFacts(m, moments, to);
    BackRestores(a, m, m', to, moments);
    BackRefs(a, m, m', moments, |moments|, to);
    FewerRefs(m', moments, to);
    MomentGood(a, to);
    MomentGood(m, |moments|);
    GoodBack(a, m, m', to);
    MomentBack(m, m', a, to);
    SameTurns(a, m, m', to);
    forall k | 0 <= k < to ensures PairOk(rest[k], m', k) {
      PairBack(moments[k], a, m, m', k, to);
    }
  }

  lemma FewerRefs(m: Moment, moments: seq<Moment>, to: nat)
    requires RefsOk(m, moments) && to <= |moments|
    ensures RefsOk(m, moments[..to])
  {
  }

  lemma SameTurns(a: Moment, m: Moment, m': Moment, to: nat)
    requires Back(a, m, m', to)
    ensures m'.turns == m.turns
  {
  }

  // ---------------------------------------------------------------- sessions

  class Session {
    const c: Dictionaries
    /** The levels of the cache entries. */
    var levels: seq<nat>
    /** The dictionary objects on the stack, top first. */
    var refs: seq<VM.Ref>
    /** What was saved, oldest first; as many as the level. */
    var saves: seq<Save>
    ghost var turns: nat
    ghost var moments: seq<Moment>

    ghost function Now(): Moment
      reads this, c
    {
      Moment(c.Now(), levels, refs, turns)
    }

    ghost function Seen(): NaiveSession
      reads this, c
    {
      View(Now(), moments)
    }

    ghost predicate Valid()
      reads this, c
    {
      SessionOk(Now(), moments) && SavesOk()
    }

    ghost predicate SavesOk()
      reads this
    {
      && |saves| == |moments| <= VM.MAX_LEVEL
      && forall k :: 0 <= k < |saves| ==>
           && saves[k].dicts == moments[k].s.dicts && saves[k].cache == moments[k].s.cache
           && saves[k].levels == moments[k].levels
    }

    constructor (system: Dict, user: Dict, names: nat)
      requires Ok(system) && Ok(user) && system.curlength == 0 && user.curlength == 0
      requires system.bit != 0 && user.bit != 0 && system.access.read && user.access.read
      ensures Valid() && fresh(c) && saves == [] && turns == 0 && c.timestamp == 1 && |c.cache| == names
    {
      c := new Dictionaries(system, user, names);
      levels := seq(names, _ => 0);
      refs := [VM.Ref(VM.DictObj, 0), VM.Ref(VM.DictObj, 0)];
      saves, moments, turns := [], [], 0;
    }

    /** Some entries are written without being changed. */
    method Touched() returns (ns: set<nat>) {
      ns := *;
    }

    /** Entries that have changed, and maybe others, take the current level. */
    method Mark(was: seq<Entry>) returns (ghost more: set<nat>)
      requires |was| == |c.cache| == |levels|
      modifies `levels
      ensures |levels| == |old(levels)|
      ensures forall n :: 0 <= n < |levels| ==> levels[n] == if n in more then |saves| else old(levels)[n]
      ensures forall n :: 0 <= n < |levels| && c.cache[n] != was[n] ==> n in more
    {
      var touched := Touched();
      ghost var before := levels;
      more := touched + set n: nat | n < |was| && c.cache[n] != was[n];
      for i := 0 to |levels|
        invariant |levels| == |before|
        invariant forall n :: 0 <= n < i ==> levels[n] == if n in more then |saves| else before[n]
        invariant forall n :: i <= n < |levels| ==> levels[n] == before[n]
      {
        if i in touched || c.cache[i] != was[i] {
          levels := levels[i := |saves|];
        }
      }
    }

    /** After an operator, which has taken the session on from m: the entries it has written get the current level. */
    method Settle(ghost m: Moment, was: seq<Entry>)
      requires SessionOk(m, moments) && SavesOk() && m.s.cache == was && levels == m.levels && turns == m.turns
      requires |c.cache| == |was| && |refs| == |c.stack|
      requires Good(c.Now()) && Stepped(m.s, c.Now(), Changed(m.s, c.Now())) && DictsKept(m.s.dicts, c.dicts)
      requires RefsOk(Now(), moments) && MadeBy(refs, |moments|) && (!Moves(m.s, c.Now()) ==> refs == m.refs)
      modifies `levels, `turns
      ensures Valid()
    {
      hide Good, SessionOk, Stepped, DictsKept, MadeBy, Moves, Changed;
      Parts(m, moments);
      ghost var more := Mark(was);
      turns := turns + if Moves(m.s, c.Now()) then 1 else 0;
      SteppedMore(m.s, c.Now(), more);
      SessionAdvanced(m, Now(), moments, more);
    }

    /** One of the operators that PsDictRuns has, but for begin. */
    method RunOp(op: Op) returns (r: Reply)
      requires Valid() && LegalAct(Seen(), Run(op)) && Named(op, |c.cache|)
      requires c.timestamp + Ticks(op) < MAX_CARDINAL
      modifies this, c
      ensures Valid() && |c.cache| == |old(c.cache)| && c.timestamp <= old(c.timestamp) + Ticks(op)
      ensures (Seen(), r) == NaiveAct(old(Seen()), Run(op))
    {
      hide Good, RefsOk, SessionOk, Stepped, NaiveStep, DictsKept, AbsDicts, MadeBy;
      ghost var m := Now();
      Parts(m, moments);
      var was, height := c.cache, |c.stack|;
      var a := PsDictRuns.Perform(c, op);
      OpStack(Abs(m.s), op);
      Kept(m.s.dicts, c.dicts);
      if op.EndOp? && height > 2 { refs := refs[1..]; }
      RefsAfter(m, Now(), moments);
      Settle(m, was);
      r := Answered(a);
    }

    /** begin, on dictionaries and stack alone. */
    method Enter(d: nat) returns (a: Answer)
      requires Good(c.Now()) && Legal(Abs(c.Now()), BeginOp(d)) && c.timestamp + 1 < MAX_CARDINAL
      modifies c
      ensures Good(c.Now()) && |c.cache| == |old(c.cache)| && c.timestamp <= old(c.timestamp) + 1
      ensures (Abs(c.Now()), a) == NaiveStep(old(Abs(c.Now())), BeginOp(d)) && d in old(c.dicts)
      ensures c.stack == if old(c.dicts)[d].access.read then [d] + old(c.stack) else old(c.stack)
      ensures Stepped(old(c.Now()), c.Now(), Changed(old(c.Now()), c.Now())) && DictsKept(old(c.dicts), c.dicts)
    {
      hide Good, Stepped, NaiveStep, DictsKept;
      ghost var s := c.Now();
      a := PsDictRuns.Perform(c, BeginOp(d));
      BeginStack(Abs(s), d);
      Kept(s.dicts, c.dicts);
    }

    /** begin of a dictionary object. */
    method BeginObject(d: nat, ref: VM.Ref) returns (r: Reply)
      requires Valid() && LegalAct(Seen(), BeginVia(d, ref)) && c.timestamp + 1 < MAX_CARDINAL
      modifies this, c
      ensures Valid() && |c.cache| == |old(c.cache)| && c.timestamp <= old(c.timestamp) + 1
      ensures (Seen(), r) == NaiveAct(old(Seen()), BeginVia(d, ref))
    {
      hide Good, Stepped, NaiveStep, DictsKept, RefsOk, SessionOk, MadeBy, NaiveAct, LegalAct, View, Abs, Changed;
      ghost var m := Now();
      Parts(m, moments);
      BeginLegal(m, moments, d, ref);
      Existed(m, moments, d, ref.level);
      var was, height := c.cache, |c.stack|;
      var a := Enter(d);
      if |c.stack| > height { refs := [ref] + refs; }
      RefsBegun(m, Now(), moments, d, ref);
      Settle(m, was);
      BeginSeen(m, Now(), moments, d, ref, a);
      r := Answered(a);
    }

    /** dict, at an unused place of the memory. */
    method Make(at: nat, maxlength: nat) returns (r: Reply)
      requires Valid() && LegalAct(Seen(), MakeDict(at, maxlength))
      modifies this, c
      ensures Valid() && |c.cache| == |old(c.cache)| && c.timestamp == old(c.timestamp)
      ensures (Seen(), r) == NaiveAct(old(Seen()), MakeDict(at, maxlength))
    {
      hide Good, RefsOk, SessionOk, Stepped, AbsDicts, MadeBy, Current, Sound, DictsKept, Contents;
      ghost var m := Now();
      Parts(m, moments);
      var was := c.cache;
      var ok := c.NewDict(at, maxlength);
      if !ok { return TooLong; }
      MadeGood(m.s, c.Now(), at, maxlength);
      ForwardStep(m.s, c.Now());
      RefsAfter(m, Now(), moments);
      Settle(m, was);
      r := Made;
    }

    /** noaccess, or readonly, of a dictionary. */
    method DoRestrict(d: nat, all: bool) returns (r: Reply)
      requires Valid() && LegalAct(Seen(), Restrict(d, all))
      modifies this, c
      ensures Valid() && |c.cache| == |old(c.cache)| && c.timestamp == old(c.timestamp)
      ensures (Seen(), r) == NaiveAct(old(Seen()), Restrict(d, all))
    {
      hide Good, RefsOk, SessionOk, Stepped, AbsDicts, MadeBy, Current, Sound, DictsKept;
      ghost var m := Now();
      Parts(m, moments);
      var was := c.cache;
      var ok := true;
      if all { c.NoAccess(d); } else { ok := c.ReadOnlyDict(d); }
      if !ok {
        NotReadable(m.s, d);
        return Answered(Error(Denied));
      }
      RestrictedGood(m.s, c.Now(), d, Access(!all, false));
      ForwardStep(m.s, c.Now());
      RefsAfter(m, Now(), moments);
      Settle(m, was);
      r := Answered(Ok_);
    }

    method DoSave() returns (r: Reply)
      requires Valid()
      modifies this
      ensures Valid()
      ensures (Seen(), r) == NaiveAct(old(Seen()), SaveAct)
    {
      hide SessionOk;
      if |saves| >= VM.MAX_LEVEL { return NoMoreLevels; }
      SaveOk(Now(), moments);
      ghost var seen := Seen();
      saves := saves + [Save(c.dicts, c.cache, levels, c.dictCount)];
      moments := moments + [Now()];
      assert Seen().saved == seen.saved + [seen.n.dicts];
      r := Saved;
    }

    /** Entries written above level to are as they were saved, without timestamps. */
    method RestoreEntries(saved: Save, to: nat)
      requires |levels| == |c.cache| == |saved.cache| == |saved.levels|
      modifies this`levels, c`cache
      ensures |levels| == |c.cache| == |old(levels)|
      ensures forall n :: 0 <= n < |levels| ==>
                && c.cache[n] == (if old(levels)[n] > to then saved.cache[n].(ts := 0) else old(c.cache)[n])
                && levels[n] == (if old(levels)[n] > to then saved.levels[n] else old(levels)[n])
    {
      for i := 0 to |levels|
        invariant |levels| == |c.cache| == |old(levels)|
        invariant forall n :: 0 <= n < i ==>
                    && c.cache[n] == (if old(levels)[n] > to then saved.cache[n].(ts := 0) else old(c.cache)[n])
                    && levels[n] == (if old(levels)[n] > to then saved.levels[n] else old(levels)[n])
        invariant forall n :: i <= n < |levels| ==> c.cache[n] == old(c.cache)[n] && levels[n] == old(levels)[n]
      {
        if levels[i] > to {
          c.cache := c.cache[i := saved.cache[i].(ts := 0)];
          levels := levels[i := saved.levels[i]];
        }
      }
    }

    /** What restore does to dictionaries, entries and stack. */
    method PutBack(to: nat)
      requires to < |saves| == |moments| && |refs| == |c.stack| && |levels| == |c.cache|
      requires |moments[to].s.cache| == |moments[to].levels| == |levels|
      requires saves[to].dicts == moments[to].s.dicts && saves[to].cache == moments[to].s.cache
      requires saves[to].levels == moments[to].levels
      modifies this`levels, this`refs, c
      ensures Back(moments[to], old(Now()), Now(), to)
    {
      hide VM.Cleaned;
      var saved, rest := saves[to], VM.Cleaned(refs, to);
      c.stack := c.stack[|refs| - |rest|..];
      refs := rest;
      c.dicts, c.dictCount := saved.dicts, saved.dictCount;
      RestoreEntries(saved, to);
    }

    /** restore, as far as dictionaries and the dictionary stack go. */
    method DoRestore(to: nat) returns (r: Reply)
      requires Valid()
      modifies this, c
      ensures Valid() && |c.cache| == |old(c.cache)| && c.timestamp == old(c.timestamp)
      ensures (Seen(), r) == NaiveAct(old(Seen()), RestoreAct(to))
    {
      hide SessionOk, View, VM.Cleaned, Back;
      ghost var m, was := Now(), moments;
      SeenSizes(m, was);
      if to >= |saves| { return NotALevel; }
      Parts(m, was);
      Sizes(m, was, to);
      var objects := refs;
      PutBack(to);
      saves := saves[..to];
      SessionBack(m, Now(), was, to);
      ViewBack(m, Now(), was, to);
      moments := was[..to];
      r := if refs == objects then Restored else Cleared;
    }
  }

  /** The names in an operator are below names. */
  predicate ActNamed(act: Act, names: nat) {
    act.Run? ==> Named(act.op, names)
  }

  method PerformAct(session: Session, act: Act) returns (r: Reply)
    requires session.Valid() && LegalAct(session.Seen(), act) && ActNamed(act, |session.c.cache|)
    requires session.c.timestamp + ActTicks(act) < MAX_CARDINAL
    modifies session, session.c
    ensures session.Valid() && |session.c.cache| == |old(session.c.cache)|
    ensures session.c.timestamp <= old(session.c.timestamp) + ActTicks(act)
    ensures (session.Seen(), r) == NaiveAct(old(session.Seen()), act)
  {
    hide Session.Valid, View, NaiveAct, LegalAct;
    match act
    case Run(op) => r := session.RunOp(op);
    case BeginVia(d, ref) => r := session.BeginObject(d, ref);
    case MakeDict(at, maxlength) => r := session.Make(at, maxlength);
    case Restrict(d, all) => r := session.DoRestrict(d, all);
    case SaveAct => r := session.DoSave();
    case RestoreAct(to) => r := session.DoRestore(to);
  }

  /** Every operator is legal where it stands. */
  predicate LegalActs(ns: NaiveSession, acts: seq<Act>, names: nat)
    decreases |acts|
  {
    acts != [] ==>
      LegalAct(ns, acts[0]) && ActNamed(acts[0], names) && LegalActs(NaiveAct(ns, acts[0]).0, acts[1..], names)
  }

  function NaiveActs(ns: NaiveSession, acts: seq<Act>, names: nat): (r: (NaiveSession, seq<Reply>))
    requires LegalActs(ns, acts, names)
    decreases |acts|
  {
    if acts == [] then (ns, [])
    else
      var step := NaiveAct(ns, acts[0]);
      var rest := NaiveActs(step.0, acts[1..], names);
      (rest.0, [step.1] + rest.1)
  }

  function AllActTicks(acts: seq<Act>): nat {
    if acts == [] then 0 else ActTicks(acts[0]) + AllActTicks(acts[1..])
  }

  /**
    With a cache that restore puts back entry by entry, every session gives the answers, and leaves the dictionaries
    and the stack, that it would give and leave without a cache; as long as its begins and ends do not make the
    timestamp wrap.
   */
  method ReplaySession(session: Session, acts: seq<Act>) returns (replies: seq<Reply>)
    requires session.Valid() && LegalActs(session.Seen(), acts, |session.c.cache|)
    requires session.c.timestamp + AllActTicks(acts) < MAX_CARDINAL
    modifies session, session.c
    ensures session.Valid()
    ensures (session.Seen(), replies) == NaiveActs(old(session.Seen()), acts, old(|session.c.cache|))
  {
    hide Session.Valid, View, NaiveAct, LegalAct;
    replies := [];
    ghost var names := |session.c.cache|;
    ghost var whole := NaiveActs(session.Seen(), acts, names);
    var i := 0;
    assert acts[0..] == acts;
    while i < |acts|
      invariant 0 <= i <= |acts| && session.Valid() && |session.c.cache| == names
      invariant session.c.timestamp + AllActTicks(acts[i..]) < MAX_CARDINAL
      invariant LegalActs(session.Seen(), acts[i..], names)
      invariant whole.0 == NaiveActs(session.Seen(), acts[i..], names).0
      invariant whole.1 == replies + NaiveActs(session.Seen(), acts[i..], names).1
    {
      assert acts[i..][0] == acts[i] && acts[i..][1..] == acts[i + 1..];
      var r := PerformAct(session, acts[i]);
      replies := replies + [r];
      i := i + 1;
    }
    assert acts[i..] == [] && replies + [] == replies;
  }

  lemma SeenSizes(m: Moment, moments: seq<Moment>)
    requires SessionOk(m, moments)
    ensures |View(m, moments).saved| == |moments| && LegalAct(View(m, moments), RestoreAct(0))
  {
  }

  lemma ViewBack(m: Moment, m': Moment, moments: seq<Moment>, to: nat)
    requires to < |moments| && Back(moments[to], m, m', to)
    ensures |View(m, moments).refs| == |View(m, moments).n.stack| && |View(m, moments).saved| == |moments|
    ensures NaiveAct(View(m, moments), RestoreAct(to))
            == (View(m', moments[..to]), if m'.refs == m.refs then Restored else Cleared)
    ensures |m'.s.cache| == |m.s.cache| && m'.s.timestamp == m.s.timestamp
  {
    hide VM.Cleaned;
    assert View(m, moments).saved[..to] == View(m', moments[..to]).saved;
  }

  lemma Parts(m: Moment, moments: seq<Moment>)
    requires SessionOk(m, moments)
    ensures Good(m.s) && RefsOk(m, moments) && |m.levels| == |m.s.cache| && |m.refs| == |m.s.stack|
    ensures MadeBy(m.refs, |moments|)
  {
  }

  lemma Sizes(m: Moment, moments: seq<Moment>, to: nat)
    requires SessionOk(m, moments) && to < |moments|
    ensures |moments[to].s.cache| == |moments[to].levels| == |m.levels| == |m.s.cache|
  {
    assert PairOk(moments[to], m, to) && MomentOk(moments[to], to);
  }

  lemma BeginLegal(m: Moment, moments: seq<Moment>, d: nat, ref: VM.Ref)
    requires LegalAct(View(m, moments), BeginVia(d, ref))
    ensures Legal(Abs(m.s), BeginOp(d)) && d in m.s.dicts && ref.typ == VM.DictObj && ref.level <= |moments|
    ensures forall k :: ref.level <= k < |moments| ==> d in View(m, moments).saved[k]
    ensures Abs(m.s).stack == m.s.stack && d in Abs(m.s).dicts
            && Abs(m.s).dicts[d].access == m.s.dicts[d].access
  {
  }

  lemma BeginSeen(m: Moment, m': Moment, moments: seq<Moment>, d: nat, ref: VM.Ref, a: Answer)
    requires LegalAct(View(m, moments), BeginVia(d, ref)) && Legal(Abs(m.s), BeginOp(d)) && d in m.s.dicts
    requires (Abs(m'.s), a) == NaiveStep(Abs(m.s), BeginOp(d))
    requires m'.refs == if m.s.dicts[d].access.read then [ref] + m.refs else m.refs
    ensures (View(m', moments), Answered(a)) == NaiveAct(View(m, moments), BeginVia(d, ref))
  {
    hide NaiveStep;
  }

  lemma BeginStack(n: Naive, d: nat)
    requires Legal(n, BeginOp(d))
    ensures NaiveStep(n, BeginOp(d)).0.stack == if n.dicts[d].access.read then [d] + n.stack else n.stack
  {
  }

  /** Only end takes something off the stack, and no operator but begin puts something on it. */
  lemma OpStack(n: Naive, op: Op)
    requires Legal(n, op) && !op.BeginOp?
    ensures NaiveStep(n, op).0.stack == if op.EndOp? && |n.stack| > 2 then n.stack[1..] else n.stack
  {
  }

  lemma Kept(a: Dicts, b: Dicts)
    requires b.Keys == a.Keys && forall d :: d in b ==> b[d].access == a[d].access
    ensures DictsKept(a, b)
  {
  }

  lemma MadeGood(s: State, s': State, at: nat, maxlength: nat)
    requires Good(s) && Sound(s') && at !in s.dicts && at in s'.dicts
    requires s'.dicts == s.dicts[at := s'.dicts[at]] && s'.stack == s.stack && s'.cache == s.cache
    requires Contents(s'.dicts[at].cells) == map[] && s'.dicts[at].maxlength == maxlength
    requires s'.dicts[at].access == Access(true, true)
    requires forall n: nat :: Current(s', n) <==> Current(s, n)
    ensures Good(s') && DictsKept(s.dicts, s'.dicts)
    ensures AbsDicts(s'.dicts) == AbsDicts(s.dicts)[at := NaiveDict(map[], maxlength, Access(true, true))]
  {
    hide Sound, Current, Contents;
  }

  lemma NotReadable(s: State, d: nat)
    requires d in s.dicts
    ensures d in AbsDicts(s.dicts) && AbsDicts(s.dicts)[d].access == s.dicts[d].access
  {
  }

  /** Taking rights away keeps the cache right; what is on the stack stays readable. */
  lemma RestrictedGood(s: State, s': State, d: nat, access: Access)
    requires Good(s) && Sound(s') && d in s.dicts && !access.write && (d in s.stack ==> access.read)
    requires s.dicts[d].access.read || !access.read
    requires s'.dicts == s.dicts[d := s.dicts[d].(access := access)] && s'.stack == s.stack && |s'.cache| == |s.cache|
    requires forall n :: 0 <= n < |s.cache| ==> s'.cache[n] == Mirrored(s.cache[n], d, access)
    requires forall n: nat :: Current(s', n) <==> Current(s, n)
    ensures Good(s') && DictsKept(s.dicts, s'.dicts)
    ensures d in AbsDicts(s.dicts)
            && AbsDicts(s'.dicts) == AbsDicts(s.dicts)[d := AbsDicts(s.dicts)[d].(access := access)]
  {
    hide Sound, Current;
  }

  lemma SteppedMore(s: State, s': State, more: set<nat>)
    requires |s'.cache| == |s.cache| && Stepped(s, s', Changed(s, s'))
    requires forall n :: 0 <= n < |s.cache| && s'.cache[n] != s.cache[n] ==> n in more
    ensures Stepped(s, s', more)
  {
  }

  /** What a dictionary object refers to existed at the saves since its level. */
  lemma Existed(m: Moment, moments: seq<Moment>, d: nat, level: nat)
    requires forall k :: level <= k < |moments| ==> d in View(m, moments).saved[k]
    ensures forall k :: level <= k < |moments| ==> d in moments[k].s.dicts
  {
    forall k | level <= k < |moments| ensures d in moments[k].s.dicts {
      assert View(m, moments).saved[k] == AbsDicts(moments[k].s.dicts);
    }
  }

  lemma RefsBegun(m: Moment, m': Moment, moments: seq<Moment>, d: nat, ref: VM.Ref)
    requires RefsOk(m, moments) && forall k :: ref.level <= k < |moments| ==> d in moments[k].s.dicts
    requires (m'.s.stack == m.s.stack && m'.refs == m.refs)
             || (m'.s.stack == [d] + m.s.stack && m'.refs == [ref] + m.refs)
    requires MadeBy(m.refs, |moments|) && ref.typ == VM.DictObj && ref.level <= |moments|
    ensures RefsOk(m', moments) && |m'.refs| == |m'.s.stack| && MadeBy(m'.refs, |moments|)
  {
  }

  lemma RefsAfter(m: Moment, m': Moment, moments: seq<Moment>)
    requires RefsOk(m, moments)
    requires (m'.s.stack == m.s.stack && m'.refs == m.refs)
             || (|m.refs| > 2 && m'.s.stack == m.s.stack[1..] && m'.refs == m.refs[1..])
    requires MadeBy(m.refs, |moments|)
    ensures RefsOk(m', moments) && |m'.refs| == |m'.s.stack| && MadeBy(m'.refs, |moments|)
  {
  }
}
