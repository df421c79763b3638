/**
  The global reverse hash table (Kernel/mxwl/ipc/ipc_hash.c): chained buckets shared by all spaces, holding
  the tree entries, with a found entry moved to the front of its bucket.
 */
module IpcGlobalHash {
  import opened IpcNames
  import opened Wrappers

  /** A tree entry in a bucket: the space that owns it, its name in that space, and the object it holds. */
  datatype Node = Node(space: nat, name: Name, obj: nat)

  /** A bucket without the node at position k. */
  function Without(b: seq<Node>, k: nat): seq<Node>
    requires k < |b|
  {
    b[..k] + b[k + 1..]
  }

  function MoveToFront(b: seq<Node>, k: nat): seq<Node>
    requires k < |b|
  {
    [b[k]] + Without(b, k)
  }

  ghost function Elements(b: seq<Node>): set<Node> {
    set k | 0 <= k < |b| :: b[k]
  }

  ghost predicate NoDuplicates(b: seq<Node>) {
    forall i, j :: 0 <= i < j < |b| ==> b[i] != b[j]
  }

  /** Bucket h has x in front of what it had. */
  ghost predicate Pushed(was: seq<seq<Node>>, now: seq<seq<Node>>, h: nat, x: Node) {
    h < |was| && now == was[h := [x] + was[h]]
  }

  /** Bucket h has lost x and kept the order of the others. */
  ghost predicate Unlinked(was: seq<seq<Node>>, now: seq<seq<Node>>, h: nat, x: Node) {
    h < |was| && exists before, after :: was[h] == before + [x] + after && now == was[h := before + after]
  }

  /** In bucket h, x has come to the front. */
  ghost predicate ToFront(was: seq<seq<Node>>, now: seq<seq<Node>>, h: nat, x: Node) {
    h < |was| && exists before, after :: was[h] == before + [x] + after && now == was[h := [x] + before + after]
  }

  lemma WithoutFacts(b: seq<Node>, k: nat)
    requires k < |b| && NoDuplicates(b)
    ensures NoDuplicates(Without(b, k)) && Elements(Without(b, k)) == Elements(b) - {b[k]}
  {
    var w := Without(b, k);
    assert forall i :: 0 <= i < |w| ==> w[i] == if i < k then b[i] else b[i + 1];
    forall x | x in Elements(b) - {b[k]} ensures x in Elements(w) {
      var i :| 0 <= i < |b| && b[i] == x;
      assert w[if i < k then i else i - 1] == x;
    }
  }

  lemma FrontFacts(b: seq<Node>, x: Node)
    requires NoDuplicates(b) && x !in Elements(b)
    ensures NoDuplicates([x] + b) && Elements([x] + b) == Elements(b) + {x}
  {
    var w := [x] + b;
    assert forall i :: 0 <= i < |w| ==> w[i] == if i == 0 then x else b[i - 1];
    assert forall i :: 0 <= i < |b| ==> b[i] in Elements(b);
    forall y | y in Elements(b) + {x} ensures y in Elements(w) {
      if y == x {
        assert w[0] == x;
      } else {
        var i :| 0 <= i < |b| && b[i] == y;
        assert w[i + 1] == y;
      }
    }
  }

  class GlobalHash {
    var buckets: seq<seq<Node>>

    /** IH_GLOBAL_HASH; the mask is the number of buckets less one, and that number is a power of two. */
    function Bucket(space: nat, obj: nat): (h: nat)
      requires |buckets| > 0
      reads this
      ensures h < |buckets|
    {
      (space % 0x1_0000_0000 / 16 + obj % 0x1_0000_0000 / 64) % |buckets|
    }

    ghost predicate Valid()
      reads this
    {
      && |buckets| > 0
      && (forall h :: 0 <= h < |buckets| ==> NoDuplicates(buckets[h]))
      && (forall h, k :: 0 <= h < |buckets| && 0 <= k < |buckets[h]|
            ==> Bucket(buckets[h][k].space, buckets[h][k].obj) == h)
    }

    /** The abstract contents, in which buckets and the order within them do not show. */
    ghost predicate Holds(x: Node)
      reads this
    {
      |buckets| > 0 && x in Elements(buckets[Bucket(x.space, x.obj)])
    }

    constructor (size: nat)
      requires size > 0
      ensures Valid() && forall x :: !Holds(x)
    {
      buckets := seq(size, _ => []);
    }

    /** ipc_hash_global_lookup. */
    method Lookup(space: nat, obj: nat) returns (r: Option<Name>)
      requires Valid()
      modifies this
      ensures Valid() && forall x :: Holds(x) == old(Holds(x))
      ensures r.Some? ==> Holds(Node(space, r.value, obj))
      ensures r.None? ==> buckets == old(buckets) && forall m :: !Holds(Node(space, m, obj))
      ensures |buckets| == |old(buckets)|
      ensures r.Some? ==> ToFront(old(buckets), buckets, Bucket(space, obj), Node(space, r.value, obj))
    {
      var h := Bucket(space, obj);
      var b := buckets[h];
      var k := 0;
      while k < |b| && !(b[k].obj == obj && b[k].space == space)
        invariant 0 <= k <= |b|
        invariant forall i :: 0 <= i < k ==> !(b[i].obj == obj && b[i].space == space)
      {
        k := k + 1;
      }
      if k == |b| {
        return None;
      }
      r := Some(b[k].name);
      assert b == b[..k] + [b[k]] + b[k + 1..] && MoveToFront(b, k) == [b[k]] + b[..k] + b[k + 1..];
      assert b[k] in Elements(b);
      WithoutFacts(b, k);
      FrontFacts(Without(b, k), b[k]);
      buckets := buckets[h := MoveToFront(b, k)];
      assert Elements(MoveToFront(b, k)) == Elements(b);
      assert forall i :: 0 <= i < |buckets[h]| ==> buckets[h][i] in Elements(buckets[h]);
    }

    /** ipc_hash_global_insert: at the front of the bucket. */
    method Insert(x: Node)
      requires Valid() && !Holds(x)
      modifies this
      ensures Valid() && forall y :: Holds(y) <==> old(Holds(y)) || y == x
      ensures |buckets| == |old(buckets)| && Pushed(old(buckets), buckets, Bucket(x.space, x.obj), x)
    {
      var h := Bucket(x.space, x.obj);
      FrontFacts(buckets[h], x);
      buckets := buckets[h := [x] + buckets[h]];
    }

    /** ipc_hash_global_delete: unlink the entry from its bucket. */
    method Delete(x: Node)
      requires Valid() && Holds(x)
      modifies this
      ensures Valid() && forall y :: Holds(y) <==> old(Holds(y)) && y != x
      ensures |buckets| == |old(buckets)| && Unlinked(old(buckets), buckets, Bucket(x.space, x.obj), x)
    {
      var h := Bucket(x.space, x.obj);
      var b := buckets[h];
      var k := 0;
      while b[k] != x
        invariant 0 <= k < |b|
        invariant exists i :: k <= i < |b| && b[i] == x
        decreases |b| - k
      {
        k := k + 1;
      }
      WithoutFacts(b, k);
      assert b == b[..k] + [x] + b[k + 1..];
      buckets := buckets[h := Without(b, k)];
    }
  }
}
