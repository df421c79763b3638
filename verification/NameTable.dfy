/**
  The table of interned names (PostScript/Adobe/name.c): open addressing in a table of odd length, with half the length
  for a step, and no deletion.  A name is the number of its slot.
 */
module NameTable {
  import opened Wrappers

  type Text = seq<char>

  const MAX_NAME_LENGTH := 31
  const MAX_CARDINAL: bv32 := 0xFFFF

  function Byte(c: char): bv32 {
    (c as int % 256) as bv32
  }

  /** HashStr, for names that are not too long. */
  function HashStr(s: Text): nat {
    var h: bv32 :=
      match |s|
      case 0 => MAX_CARDINAL
      case 1 => (Byte(s[0]) << 6) ^ Byte(s[0])
      case 2 => (Byte(s[0]) << 6) ^ Byte(s[1])
      case 3 => (((Byte(s[1]) << 3) ^ Byte(s[0])) << 4) ^ Byte(s[2])
      case 4 => (((((Byte(s[2]) << 2) ^ Byte(s[1])) << 2) ^ Byte(s[0])) << 3) ^ Byte(s[3])
      case len => (((((((Byte(s[1]) << 2) ^ Byte(s[len - 2])) << 2) ^ Byte(s[0])) << 2) ^ Byte(s[len - 1])) << 2)
                  ^ ((len % 0x1_0000) as bv32);
    (h & MAX_CARDINAL) as nat
  }

  // ---------------------------------------------------------------- the probe sequence

  /** The slot met after k steps from h. */
  function SlotAt(h: int, k: int, n: int): (i: int)
    requires n > 0
    ensures 0 <= i < n
  {
    Wrap(h + k * (n / 2), n)
  }

  function Wrap(a: int, n: int): (i: int)
    requires n > 0
    ensures 0 <= i < n
  {
    a % n
  }

  /** How many steps it takes from h to slot i. */
  function StepsTo(h: int, i: int, n: int): (k: int)
    requires n > 0
    ensures 0 <= k < n
  {
    (2 * (h - i)) % n
  }

  lemma ModIs(a: int, n: int, b: int, t: int)
    requires n > 0 && 0 <= b < n && a == b + t * n
    ensures a % n == b
  {
    var q := a / n;
    assert a == q * n + a % n;
    assert (q - t) * n == b - a % n by { assert (q - t) * n == q * n - t * n; }
    Between(q - t, n, b - a % n);
  }

  lemma Between(q: int, n: int, d: int)
    requires n > 0 && q * n == d && -n < d < n
    ensures d == 0
  {
    AtLeast(q - 1, n);
    AtLeast(-q - 1, n);
    assert (q - 1) * n == q * n - n && (-q - 1) * n == -(q * n) - n;
  }

  lemma AtLeast(q: int, n: int)
    requires n > 0
    ensures q >= 0 ==> q * n >= 0
    ensures q == -1 ==> q * n == -n
  {
  }

  /** The step is half of the odd length, so every slot is met, and its step number can be computed from it. */
  lemma EverySlotMet(h: int, i: int, n: int)
    requires n > 0 && n % 2 == 1 && 0 <= i < n
    ensures SlotAt(h, StepsTo(h, i, n), n) == i
  {
    var m := n / 2;
    var k := StepsTo(h, i, n);
    var q := (2 * (h - i)) / n;
    assert k == 2 * (h - i) - q * n;
    assert n == 2 * m + 1;
    assert k * m == (h - i) * (2 * m) - q * n * m by { Expand(h - i, q, n, m); }
    assert (h - i) * (2 * m) == (h - i) * n - (h - i);
    assert (h - i) * n - q * n * m == ((h - i) - q * m) * n by { Collect(h - i, q, n, m); }
    ModIs(h + k * m, n, i, (h - i) - q * m);
  }

  lemma Expand(d: int, q: int, n: int, m: int)
    ensures (2 * d - q * n) * m == d * (2 * m) - q * n * m
  {
  }

  lemma Collect(d: int, q: int, n: int, m: int)
    ensures d * n - q * n * m == (d - q * m) * n
  {
  }

  /** No slot is met twice before all have been met. */
  lemma NoSlotTwice(h: int, k: int, n: int)
    requires n > 0 && n % 2 == 1 && 0 <= k < n
    ensures StepsTo(h, SlotAt(h, k, n), n) == k
  {
    var m := n / 2;
    var i := SlotAt(h, k, n);
    var q := (h + k * m) / n;
    assert i == h + k * m - q * n;
    assert n == 2 * m + 1;
    assert 2 * (h - i) == 2 * q * n - k * (2 * m) by { assert k * (2 * m) == 2 * (k * m); }
    assert k * (2 * m) == k * n - k;
    assert 2 * q * n - k * n == (2 * q - k) * n;
    ModIs(2 * (h - i), n, k, 2 * q - k);
  }

  /** One step of the loop. */
  lemma NextSlot(h: nat, k: nat, n: nat)
    requires n > 0 && h < n
    ensures SlotAt(h, 0, n) == h
    ensures var hi := SlotAt(h, k, n) + n / 2; SlotAt(h, k + 1, n) == if hi >= n then hi - n else hi
  {
    hide SlotAt;
    Twice(0, n / 2);
    SlotIs(h, 0, n, 0);
    SmallMod(h, n);
    var km := k * (n / 2);
    Twice(k, n / 2);
    SlotIs(h, k, n, km);
    SlotIs(h, k + 1, n, km + n / 2);
    StepOn(h + km, (h + km) / n, n, n / 2);
  }

  lemma SlotIs(h: nat, k: nat, n: nat, km: int)
    requires n > 0 && km == k * (n / 2)
    ensures SlotAt(h, k, n) == Wrap(h + km, n)
  {
    hide Wrap;
  }

  lemma SmallMod(h: nat, n: nat)
    requires h < n
    ensures Wrap(h, n) == h
  {
  }

  lemma Twice(k: nat, m: nat)
    ensures (k + 1) * m == k * m + m && 0 * m == 0
  {
  }

  lemma StepOn(a: int, q: int, n: int, m: int)
    requires n > 0 && 0 <= m < n && q == a / n
    ensures (a + m) % n == if a % n + m >= n then a % n + m - n else a % n + m
  {
    assert a == q * n + a % n;
    assert (q + 1) * n == q * n + n;
    ModIs(a + m, n, if a % n + m >= n then a % n + m - n else a % n + m, if a % n + m >= n then q + 1 else q);
  }

  // ---------------------------------------------------------------- the table

  function Home(t: Text, n: nat): nat
    requires n > 0
  {
    HashStr(t) % n
  }

  /** No text is too long or in two slots, and none is beyond an empty slot on its way. */
  ghost predicate Ok(slots: seq<Option<Text>>) {
    && |slots| % 2 == 1
    && (forall i :: 0 <= i < |slots| && slots[i].Some? ==> |slots[i].value| <= MAX_NAME_LENGTH)
    && (forall i, j :: 0 <= i < j < |slots| && slots[i].Some? ==> slots[i] != slots[j])
    && (forall i: nat :: i < |slots| && slots[i].Some? ==> Reached(slots, slots[i].value, i))
  }

  ghost predicate Reached(slots: seq<Option<Text>>, t: Text, i: nat)
    requires |slots| > 0 && i < |slots|
  {
    forall k :: 0 <= k < StepsTo(Home(t, |slots|), i, |slots|) ==> slots[SlotAt(Home(t, |slots|), k, |slots|)].Some?
  }

  ghost predicate Holds(slots: seq<Option<Text>>, t: Text) {
    exists i :: 0 <= i < |slots| && slots[i] == Some(t)
  }

  /** A text that is in the table is met before any empty slot. */
  lemma MetFirst(slots: seq<Option<Text>>, t: Text, k: nat)
    requires Ok(slots) && k < |slots|
    requires forall j :: 0 <= j < k ==> slots[SlotAt(Home(t, |slots|), j, |slots|)] != Some(t)
    requires slots[SlotAt(Home(t, |slots|), k, |slots|)].None? || k + 1 == |slots|
    requires slots[SlotAt(Home(t, |slots|), k, |slots|)] != Some(t)
    ensures !Holds(slots, t)
  {
    hide SlotAt, StepsTo, HashStr, Home;
    var n := |slots|;
    forall i | 0 <= i < n ensures slots[i] != Some(t) {
      var s := StepsTo(Home(t, n), i, n);
      EverySlotMet(Home(t, n), i, n);
      assert slots[i] == Some(t) ==> Reached(slots, t, i);
    }
  }

  lemma InsertOk(slots: seq<Option<Text>>, t: Text, k: nat)
    requires Ok(slots) && k < |slots| && !Holds(slots, t) && |t| <= MAX_NAME_LENGTH
    requires forall j :: 0 <= j < k ==> slots[SlotAt(Home(t, |slots|), j, |slots|)].Some?
    requires slots[SlotAt(Home(t, |slots|), k, |slots|)].None?
    ensures Ok(slots[SlotAt(Home(t, |slots|), k, |slots|) := Some(t)])
  {
    var n := |slots|;
    var hi := SlotAt(Home(t, n), k, n);
    var slots' := slots[hi := Some(t)];
    NoSlotTwice(Home(t, n), k, n);
    forall i: nat | i < n && slots'[i].Some? ensures Reached(slots', slots'[i].value, i) {
      assert i != hi ==> Reached(slots, slots[i].value, i);
    }
  }

  datatype Result = Name(index: nat) | LimitCheck | InvalidAccess | NameTableOverflow | Undefined

  class Names {
    var slots: seq<Option<Text>>

    constructor (n: nat)
      requires n % 2 == 1
      ensures Ok(slots) && |slots| == n && forall t :: !Holds(slots, t)
    {
      slots := seq(n, _ => None);
    }

    /** What StringToName and MakeName have in common: the text's slot, an empty one for it, or none. */
    method Intern(t: Text) returns (r: Result)
      requires Ok(slots) && |t| <= MAX_NAME_LENGTH
      modifies this
      ensures Ok(slots) && |slots| == |old(slots)|
      ensures r.Name? ==> r.index < |slots| && slots == old(slots)[r.index := Some(t)]
      ensures r.Name? ==> old(slots)[r.index] == if Holds(old(slots), t) then Some(t) else None
      ensures r.Name? || r.NameTableOverflow?
      ensures r.NameTableOverflow? <==>
                !Holds(old(slots), t) && forall i :: 0 <= i < |old(slots)| ==> old(slots)[i].Some?
      ensures r.NameTableOverflow? ==> slots == old(slots)
    {
      hide HashStr, SlotAt, StepsTo, Ok;
      OddLength(slots);
      var lenNT := |slots|;
      var ntIncr := lenNT / 2;
      var h := HashStr(t) % lenNT;
      var hi := h;
      ghost var k := 0;
      NextSlot(h, 0, lenNT);
      while true
        invariant 0 <= k < lenNT && hi == SlotAt(h, k, lenNT) && slots == old(slots)
        invariant forall j :: 0 <= j < k ==> slots[SlotAt(h, j, lenNT)].Some? && slots[SlotAt(h, j, lenNT)] != Some(t)
        decreases lenNT - k
      {
        if slots[hi].None? {
          MetFirst(slots, t, k);
          InsertOk(slots, t, k);
          slots := slots[hi := Some(t)];
          return Name(hi);
        }
        if slots[hi].value == t {
          assert slots[hi := Some(t)] == slots;
          return Name(hi);
        }
        NextSlot(h, k, lenNT);
        hi := hi + ntIncr;
        if hi >= lenNT { hi := hi - lenNT; }
        if hi == h {
          AllTaken(slots, t, k);
          return NameTableOverflow;
        }
        NotAround(h, k, lenNT);
        k := k + 1;
      }
    }

    method StringToName(t: Text, readable: bool) returns (r: Result)
      requires Ok(slots)
      modifies this
      ensures Ok(slots) && |slots| == |old(slots)|
      ensures r.LimitCheck? <==> |t| > MAX_NAME_LENGTH
      ensures r.InvalidAccess? <==> |t| <= MAX_NAME_LENGTH && !readable
      ensures r.Name? ==> r.index < |slots| && slots == old(slots)[r.index := Some(t)]
      ensures r.Name? ==> old(slots)[r.index] == if Holds(old(slots), t) then Some(t) else None
      ensures !r.Undefined?
      ensures r.NameTableOverflow? <==> |t| <= MAX_NAME_LENGTH && readable && !Holds(old(slots), t)
                                        && forall i :: 0 <= i < |old(slots)| ==> old(slots)[i].Some?
      ensures !r.Name? ==> slots == old(slots)
    {
      hide Ok;
      if |t| > MAX_NAME_LENGTH { return LimitCheck; }
      if !readable { return InvalidAccess; }
      r := Intern(t);
    }

    /**
      NameToString: the text of a name, or an error if the slot is empty.  No other name has that text, and looking it
      up gives the name back.
     */
    method NameToString(index: nat) returns (t: Option<Text>)
      requires Ok(slots) && index < |slots|
      ensures t.Some? <==> exists u :: Stands(slots, Name(index), u)
      ensures t.Some? ==> |t.value| <= MAX_NAME_LENGTH && forall r :: Stands(slots, r, t.value) <==> r == Name(index)
    {
      t := slots[index];
      assert t.Some? ==> Stands(slots, Name(index), t.value);
    }

    /** From a name to its text and back: the same name, and the table is as it was. */
    method ThereAndBack(index: nat) returns (t: Option<Text>, r: Result)
      requires Ok(slots) && index < |slots|
      modifies this
      ensures slots == old(slots) && (t.Some? <==> old(slots)[index].Some?)
      ensures t.Some? ==> r == Name(index)
    {
      r := Undefined;
      assert slots[index].Some? ==> Stands(slots, Name(index), slots[index].value);
      t := NameToString(index);
      if t.None? { return; }
      assert Stands(slots, Name(index), t.value);
      assert slots[index] == t && Holds(slots, t.value);
      r := StringToName(t.value, true);
      assert Stands(old(slots), r, t.value);
      assert slots == old(slots);
    }
  }

  /** A text to be looked up, in a string that may be read or not. */
  datatype Request = Request(text: Text, readable: bool)

  /**
    Any sequence of lookups.  Two names are the same exactly if their texts are, whatever was interned between them;
    every name that was given is turned back into its text in the end; and a text that has a name does not run into a
    full table.
   */
  method InternAll(table: Names, requests: seq<Request>) returns (results: seq<Result>, texts: seq<Option<Text>>)
    requires Ok(table.slots)
    modifies table
    ensures Ok(table.slots) && |table.slots| == |old(table.slots)| && |results| == |requests|
    ensures forall i, j :: 0 <= i < j < |results| && results[i].Name? && results[j].Name? ==>
              (results[i] == results[j] <==> requests[i].text == requests[j].text)
    ensures |texts| == |requests|
    ensures forall i :: 0 <= i < |results| && results[i].Name? ==> texts[i] == Some(requests[i].text)
    ensures forall i, j :: 0 <= i < j < |results| && results[i].Name? && requests[i].text == requests[j].text ==>
              !results[j].NameTableOverflow?
    ensures forall n :: 0 <= n < |table.slots| && old(table.slots)[n].Some? ==> table.slots[n] == old(table.slots)[n]
  {
    hide Ok;
    results := [];
    while |results| < |requests|
      invariant |results| <= |requests| && Ok(table.slots) && |table.slots| == |old(table.slots)|
      invariant forall i :: 0 <= i < |results| && results[i].Name? ==> Stands(table.slots, results[i], requests[i].text)
      invariant forall i, j :: 0 <= i < j < |results| && results[i].Name? && requests[i].text == requests[j].text ==>
                  !results[j].NameTableOverflow?
      invariant forall n :: 0 <= n < |table.slots| && old(table.slots)[n].Some? ==>
                  table.slots[n] == old(table.slots)[n]
    {
      var request := requests[|results|];
      var r := table.StringToName(request.text, request.readable);
      results := results + [r];
    }
    texts := [];
    while |texts| < |results|
      modifies {}
      invariant |texts| <= |results|
      invariant forall i :: 0 <= i < |texts| && results[i].Name? ==> texts[i] == Some(requests[i].text)
    {
      var r, t := results[|texts|], None;
      if r.Name? {
        assert Stands(table.slots, r, requests[|texts|].text);
        t := table.NameToString(r.index);
        OneText(table.slots, r, t.value, requests[|texts|].text);
      }
      texts := texts + [t];
    }
    forall i, j | 0 <= i < j < |results| && results[i].Name? && results[j].Name?
      ensures results[i] == results[j] <==> requests[i].text == requests[j].text
    {
      SameNumber(table.slots, results[i], results[j]);
    }
  }

  /** The name stands for the text. */
  predicate Stands(slots: seq<Option<Text>>, r: Result, t: Text) {
    r.Name? && r.index < |slots| && slots[r.index] == Some(t)
  }

  lemma OneText(slots: seq<Option<Text>>, r: Result, t: Text, u: Text)
    requires Stands(slots, r, t) && Stands(slots, r, u)
    ensures t == u
  {
  }

  lemma SameNumber(slots: seq<Option<Text>>, a: Result, b: Result)
    requires Ok(slots)
    ensures forall t, u :: Stands(slots, a, t) && Stands(slots, b, u) ==> (a == b <==> t == u)
  {
  }

  lemma OddLength(slots: seq<Option<Text>>)
    requires Ok(slots)
    ensures |slots| % 2 == 1 && |slots| > 0
  {
  }

  /** Back at the start: that was the last slot. */
  lemma Around(h: nat, k: nat, n: nat)
    requires n > 0 && n % 2 == 1 && k < n && h < n && SlotAt(h, k + 1, n) == h
    ensures k + 1 == n
  {
    assert StepsTo(h, h, n) == 0 by { ModIs(2 * (h - h), n, 0, 0); }
    if k + 1 < n {
      NoSlotTwice(h, k + 1, n);
    }
  }

  /** Back at the start, with other texts in all slots that were met. */
  lemma AllTaken(slots: seq<Option<Text>>, t: Text, k: nat)
    requires Ok(slots) && k < |slots| && SlotAt(Home(t, |slots|), k + 1, |slots|) == Home(t, |slots|)
    requires forall j :: 0 <= j <= k ==>
               var other := slots[SlotAt(Home(t, |slots|), j, |slots|)]; other.Some? && other != Some(t)
    ensures !Holds(slots, t) && forall i :: 0 <= i < |slots| ==> slots[i].Some?
  {
    hide HashStr, SlotAt, StepsTo, Ok, Holds;
    OddLength(slots);
    var h, n := Home(t, |slots|), |slots|;
    Around(h, k, n);
    MetFirst(slots, t, k);
    forall i | 0 <= i < n ensures slots[i].Some? {
      EverySlotMet(h, i, n);
    }
  }

  /** Not back at the start: there are more slots. */
  lemma NotAround(h: nat, k: nat, n: nat)
    requires n > 0 && n % 2 == 1 && k < n && h < n && SlotAt(h, k + 1, n) != h
    ensures k + 1 < n
  {
    if k + 1 == n {
      assert h + n * (n / 2) == h + (n / 2) * n;
      ModIs(h + n * (n / 2), n, h, n / 2);
    }
  }
}
