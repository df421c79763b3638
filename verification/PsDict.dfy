/**
  PostScript dictionaries (PostScript/Adobe/dict.c): open addressing in a table of prime size, no deletion.

  A key is a name, or any other object together with the class it belongs to under Equal and its HashObject value;
  strings never get here, because KeyName turns them into names.  An empty cell holds the null key.
 */
module PsDict {
  import opened Probing
  import opened Wrappers

  datatype Key = NullKey | NameKey(nval: nat) | OtherKey(class_: nat, hash: nat)

  /** Objects as values; what is in them does not matter here. */
  type Value = int

  datatype KeyVal = KeyVal(key: Key, value: Value)

  datatype Access = Access(read: bool, write: bool)

  /** A dictionary body and its cells; bit is the dictionary's mark in the vectors of the name cache. */
  datatype Dict = Dict(cells: seq<KeyVal>, curlength: nat, maxlength: nat, access: Access, bit: bv32)

  const MAX_DICT_LENGTH := 2000

  function Hash(key: Key): nat {
    match key
    case NullKey => 0
    case NameKey(nval) => nval
    case OtherKey(_, hash) => hash
  }

  function Home(key: Key, size: nat): (h: nat)
    requires size > 0
    ensures h < size
  {
    Hash(key) % size
  }

  /** How many cells are in use. */
  function Count(cells: seq<KeyVal>): (n: nat)
    ensures n <= |cells|
  {
    if cells == [] then 0
    else Count(cells[..|cells| - 1]) + (if cells[|cells| - 1].key.NullKey? then 0 else 1)
  }

  ghost predicate Distinct(cells: seq<KeyVal>) {
    forall c, d :: 0 <= c < d < |cells| && !cells[c].key.NullKey? ==> cells[c].key != cells[d].key
  }

  /** No empty cell lies between a key and its home. */
  ghost predicate Reachable(cells: seq<KeyVal>) {
    forall c, k :: 0 <= c < |cells| && 0 <= k < |cells| ==>
      !cells[c].key.NullKey? && Before(Home(cells[c].key, |cells|), k, c) ==> !cells[k].key.NullKey?
  }

  ghost predicate Ok(d: Dict) {
    && d.curlength == Count(d.cells) && d.curlength <= d.maxlength < |d.cells|
    && Distinct(d.cells) && Reachable(d.cells)
  }

  ghost predicate Holds(d: Dict, key: Key) {
    exists c :: 0 <= c < |d.cells| && d.cells[c].key == key
  }

  /** The dictionary as a finite map. */
  function Contents(cells: seq<KeyVal>): map<Key, Value> {
    if cells == [] then map[]
    else
      var last := cells[|cells| - 1];
      var m := Contents(cells[..|cells| - 1]);
      if last.key.NullKey? then m else m[last.key := last.value]
  }

  lemma {:induction false} ContentsMeaning(cells: seq<KeyVal>)
    requires Distinct(cells)
    ensures forall c :: 0 <= c < |cells| && !cells[c].key.NullKey?
              ==> cells[c].key in Contents(cells) && Contents(cells)[cells[c].key] == cells[c].value
    ensures forall k :: k in Contents(cells) ==> !k.NullKey? && exists c :: 0 <= c < |cells| && cells[c].key == k
  {
    if cells != [] {
      var n := |cells| - 1;
      var rest := cells[..n];
      ContentsMeaning(rest);
      forall k | k in Contents(cells) ensures !k.NullKey? && exists c :: 0 <= c < |cells| && cells[c].key == k {
        if k in Contents(rest) {
          var c :| 0 <= c < n && rest[c].key == k;
          assert cells[c].key == k;
        } else {
          assert cells[n].key == k;
        }
      }
      assert forall c :: 0 <= c < n ==> cells[c] == rest[c];
    }
  }

  lemma {:induction false} FullTable(cells: seq<KeyVal>)
    requires forall c :: 0 <= c < |cells| ==> !cells[c].key.NullKey?
    ensures Count(cells) == |cells|
  {
    if cells != [] {
      FullTable(cells[..|cells| - 1]);
    }
  }

  /** The table is longer than the capacity, so there is always a null key for a search to stop at. */
  lemma NullCellExists(d: Dict) returns (e: nat)
    requires Ok(d)
    ensures e < |d.cells| && d.cells[e].key.NullKey?
  {
    if forall c :: 0 <= c < |d.cells| ==> !d.cells[c].key.NullKey? {
      FullTable(d.cells);
      assert false;
    }
    e :| e < |d.cells| && d.cells[e].key.NullKey?;
  }

  lemma {:induction false} ContentsSize(cells: seq<KeyVal>)
    requires Distinct(cells)
    ensures |Contents(cells)| == Count(cells)
  {
    if cells != [] {
      ContentsSize(cells[..|cells| - 1]);
      ContentsMeaning(cells[..|cells| - 1]);
    }
  }

  // ---------------------------------------------------------------- search

  /** DictKVLoc: the key's location, or where it would go if the dictionary is not full. */
  datatype Search = Known(loc: nat) | Unknown(slot: Option<nat>) | TypeCheck

  /** Where a search for a key that is not there ends. */
  ghost predicate EndsAt(cells: seq<KeyVal>, key: Key, slot: nat) {
    && slot < |cells| && cells[slot].key.NullKey?
    && forall k :: 0 <= k < |cells| && Before(Home(key, |cells|), k, slot) ==> !cells[k].key.NullKey?
  }

  method SearchDict(d: Dict, key: Key) returns (dl: Search)
    requires Ok(d)
    ensures dl.TypeCheck? <==> key.NullKey?
    ensures dl.Known? ==> dl.loc < |d.cells| && d.cells[dl.loc].key == key
    ensures dl.Unknown? ==> !Holds(d, key)
    ensures dl.Unknown? ==> if d.curlength < d.maxlength then dl.slot.Some? && EndsAt(d.cells, key, dl.slot.value)
                            else dl.slot.None?
  {
    if key.NullKey? { return TypeCheck; }
    var size := |d.cells|;
    var kvloc := Home(key, size);
    ghost var start := kvloc;
    ghost var e := NullCellExists(d);
    var i := 0;
    while i < size
      invariant 0 <= kvloc < size && i == Distance(start, kvloc, size) <= Distance(start, e, size)
      invariant forall k :: 0 <= k < size && Before(start, k, kvloc) ==>
                  !d.cells[k].key.NullKey? && d.cells[k].key != key
    {
      if d.cells[kvloc].key == key { return Known(kvloc); }
      if d.cells[kvloc].key.NullKey? {
        SearchEnds(d, key, kvloc);
        return Unknown(if d.curlength < d.maxlength then Some(kvloc) else None);
      }
      assert kvloc != e;
      kvloc := kvloc + 1;
      if kvloc == size { kvloc := 0; }
      i := i + 1;
    }
    // "no empty kvlocs"
    assert false;
  }

  /** A search that has come to a null key without meeting the key has not missed it. */
  lemma SearchEnds(d: Dict, key: Key, slot: nat)
    requires Ok(d) && !key.NullKey? && EndsAt(d.cells, key, slot)
    requires forall k :: 0 <= k < |d.cells| && Before(Home(key, |d.cells|), k, slot) ==> d.cells[k].key != key
    ensures !Holds(d, key)
  {
  }

  // ---------------------------------------------------------------- insertion and update

  function Inserted(d: Dict, slot: nat, key: Key, value: Value): Dict
    requires slot < |d.cells|
  {
    d.(cells := d.cells[slot := KeyVal(key, value)], curlength := d.curlength + 1)
  }

  function Stored(d: Dict, loc: nat, value: Value): Dict
    requires loc < |d.cells|
  {
    d.(cells := d.cells[loc := KeyVal(d.cells[loc].key, value)])
  }

  /** d' is d with a value changed or added for key: every key that was there is where it was. */
  ghost predicate Grew(d: Dict, d': Dict, key: Key) {
    && |d'.cells| == |d.cells| && d'.maxlength == d.maxlength && d'.access == d.access && d'.bit == d.bit
    && (forall c :: 0 <= c < |d.cells| && !d.cells[c].key.NullKey? ==> d'.cells[c].key == d.cells[c].key)
    && Holds(d', key)
    && (forall k :: k != key && !k.NullKey? ==> (Holds(d', k) <==> Holds(d, k)))
  }

  lemma {:induction false} CountUpdate(cells: seq<KeyVal>, c: nat, kv: KeyVal)
    requires c < |cells|
    ensures Count(cells[c := kv]) - (if kv.key.NullKey? then 0 else 1)
            == Count(cells) - (if cells[c].key.NullKey? then 0 else 1)
  {
    var n := |cells| - 1;
    if c == n {
      assert cells[c := kv][..n] == cells[..n];
    } else {
      assert cells[c := kv][..n] == cells[..n][c := kv];
      CountUpdate(cells[..n], c, kv);
    }
  }

  lemma {:induction false} ContentsUpdate(cells: seq<KeyVal>, c: nat, kv: KeyVal)
    requires c < |cells| && Distinct(cells) && Distinct(cells[c := kv])
    requires !kv.key.NullKey? && (cells[c].key.NullKey? || cells[c].key == kv.key)
    ensures Contents(cells[c := kv]) == Contents(cells)[kv.key := kv.value]
  {
    var n := |cells| - 1;
    var cells' := cells[c := kv];
    if c == n {
      assert cells'[..n] == cells[..n];
    } else {
      assert cells'[..n] == cells[..n][c := kv];
      ContentsUpdate(cells[..n], c, kv);
      assert cells'[c].key != cells'[n].key;
    }
  }

  /** A new key goes where the search for it ended; no other key moves. */
  lemma InsertOk(d: Dict, slot: nat, key: Key, value: Value)
    requires Ok(d) && !key.NullKey? && !Holds(d, key) && d.curlength < d.maxlength && EndsAt(d.cells, key, slot)
    ensures Ok(Inserted(d, slot, key, value))
    ensures Contents(Inserted(d, slot, key, value).cells) == Contents(d.cells)[key := value]
    ensures Grew(d, Inserted(d, slot, key, value), key)
  {
    hide Contents, Count, Grew;
    CountUpdate(d.cells, slot, KeyVal(key, value));
    assert forall c :: 0 <= c < |d.cells| ==> d.cells[c].key != key;
    ContentsUpdate(d.cells, slot, KeyVal(key, value));
    InsertGrows(d, slot, key, value);
  }

  lemma InsertGrows(d: Dict, slot: nat, key: Key, value: Value)
    requires slot < |d.cells| && d.cells[slot].key.NullKey?
    ensures Grew(d, Inserted(d, slot, key, value), key)
  {
    var d' := Inserted(d, slot, key, value);
    assert d'.cells[slot].key == key;
    forall k | k != key && Holds(d, k) && !k.NullKey? ensures Holds(d', k) {
      var c :| 0 <= c < |d.cells| && d.cells[c].key == k;
      assert d'.cells[c].key == k;
    }
  }

  lemma StoreOk(d: Dict, loc: nat, value: Value)
    requires Ok(d) && loc < |d.cells| && !d.cells[loc].key.NullKey?
    ensures Ok(Stored(d, loc, value))
    ensures Contents(Stored(d, loc, value).cells) == Contents(d.cells)[d.cells[loc].key := value]
    ensures Grew(d, Stored(d, loc, value), d.cells[loc].key)
  {
    hide Contents, Count;
    var cells := Stored(d, loc, value).cells;
    CountUpdate(d.cells, loc, cells[loc]);
    ContentsUpdate(d.cells, loc, cells[loc]);
    assert forall c :: 0 <= c < |cells| ==> cells[c].key == d.cells[c].key;
    assert cells[loc].key == d.cells[loc].key;
    forall k | Holds(d, k) ensures Holds(Stored(d, loc, value), k) {
      var c :| 0 <= c < |cells| && d.cells[c].key == k;
      assert cells[c].key == k;
    }
  }

  // ---------------------------------------------------------------- sizes

  const PRIME_COUNT := 56

  /** The array primes. */
  function Prime(i: nat): nat
    requires i < PRIME_COUNT
  {
    match i
    case 0 => 17 case 1 => 19 case 2 => 23 case 3 => 29 case 4 => 31 case 5 => 37 case 6 => 41
    case 7 => 43 case 8 => 47 case 9 => 59 case 10 => 67 case 11 => 79 case 12 => 89 case 13 => 97
    case 14 => 109 case 15 => 113 case 16 => 127 case 17 => 139 case 18 => 149 case 19 => 157 case 20 => 167
    case 21 => 179 case 22 => 199 case 23 => 211 case 24 => 229 case 25 => 257 case 26 => 277 case 27 => 307
    case 28 => 331 case 29 => 353 case 30 => 373 case 31 => 401 case 32 => 433 case 33 => 463 case 34 => 491
    case 35 => 523 case 36 => 569 case 37 => 659 case 38 => 769 case 39 => 877 case 40 => 997 case 41 => 1097
    case 42 => 1193 case 43 => 1297 case 44 => 1399 case 45 => 1499 case 46 => 1597 case 47 => 1699 case 48 => 1789
    case 49 => 1889 case 50 => 1999 case 51 => 2099 case 52 => 2179 case 53 => 2297 case 54 => 2399 case 55 => 2477
  }

  /** The gaps between neighbours are small enough for a table to be longer than its capacity. */
  lemma PrimeGaps(i: nat)
    requires i + 1 < PRIME_COUNT
    ensures Prime(i) < Prime(i + 1) <= Prime(i) + Prime(i) / 2 + 1
    ensures Prime(i) >= 569 ==> Prime(i + 1) <= Prime(i) + Prime(i) / 5 + 1
    ensures Prime(i) < 569 ==> Prime(i + 1) <= 569
  {
  }

  /** Half as much again, or a fifth as much again, for the table of a dictionary of capacity s. */
  function Roomy(s: nat): nat {
    if s <= 500 then s + s / 2 + 1 else s + s / 5 + 1
  }

  /** PrimeSize: the length of the table for a dictionary of capacity s, or limitcheck. */
  method PrimeSize(s: nat) returns (r: Option<nat>)
    ensures r.Some? <==> s <= MAX_DICT_LENGTH
    ensures r.Some? ==> s < r.value
    ensures r.Some? && s <= 10 ==> r.value == [3, 3, 3, 5, 7, 7, 11, 11, 13, 13, 13][s]
    ensures r.Some? && s > 10 ==>
              exists i: nat :: i + 1 < PRIME_COUNT && Prime(i) == r.value
                                && Prime(i) <= s + s / (if s <= 500 then 2 else 5) + 1 < Prime(i + 1)
  {
    var size := Roomy(s);
    if s > MAX_DICT_LENGTH { return None; }
    match s
    case 0 => return Some(3);
    case 1 => return Some(3);
    case 2 => return Some(3);
    case 3 => return Some(5);
    case 4 => return Some(7);
    case 5 => return Some(7);
    case 6 => return Some(11);
    case 7 => return Some(11);
    case 8 => return Some(13);
    case 9 => return Some(13);
    case 10 => return Some(13);
    case _ =>
      var i := 0;
      while !(size >= Prime(i) && size < Prime(i + 1))
        invariant 0 <= i < PRIME_COUNT - 1 && Prime(i) <= size < Prime(PRIME_COUNT - 1)
        decreases PRIME_COUNT - i
      {
        i := i + 1;
      }
      PrimeGaps(i);
      return Some(Prime(i));
  }
}
