/**
 The hash table from local indices to handshakes and keypairs (src/wg_noise.c:49-50,
 src/wg_noise.c:377-455, src/wg_noise.c:633-642): 2^13 bucket lists that stand for one map.
 */
module IndexTable {
  import opened Wrappers
  import opened Machine
  import opened Sessions

  const SIZE: int := 8192

  // struct noise_index, with what it is embedded in
  datatype Node = Node(index: u32, owner: Owner)

  // HT_INDEX_MASK
  function Bucket(index: u32): (b: nat)
    ensures b < SIZE && b == index % SIZE
  {
    assert Pow2(13) == 8192;
    AndMask(index, 13);
    And(index, 8191)
  }

  // Bucket b lists exactly the live nodes that hash to it, no index twice.
  ghost predicate Lists(bucket: seq<Node>, b: nat, live: map<u32, Owner>) {
    && (forall n :: n in bucket <==> Bucket(n.index) == b && n.index in live && live[n.index] == n.owner)
    && NoIndexTwice(bucket)
  }

  // CK_LIST_FOREACH until the index is found
  method Walk(bucket: seq<Node>, index: u32) returns (found: Option<Owner>)
    ensures found.Some? ==> Node(index, found.value) in bucket
    ensures found.None? ==> forall n :: n in bucket ==> n.index != index
  {
    for i := 0 to |bucket|
      invariant forall j :: 0 <= j < i ==> bucket[j].index != index
    {
      if bucket[i].index == index {
        assert bucket[i] in bucket;
        return Some(bucket[i].owner);
      }
    }
    return None;
  }

  ghost predicate NoIndexTwice(bucket: seq<Node>) {
    forall i, j :: 0 <= i < j < |bucket| ==> bucket[i].index != bucket[j].index
  }

  // CK_LIST_REMOVE
  method Unlink(bucket: seq<Node>, index: u32) returns (rest: seq<Node>)
    requires NoIndexTwice(bucket) && exists n :: n in bucket && n.index == index
    ensures forall m :: m in rest <==> m in bucket && m.index != index
    ensures NoIndexTwice(rest)
  {
    var i := Position(bucket, index);
    rest := bucket[..i] + bucket[i + 1..];
    assert bucket == bucket[..i] + [bucket[i]] + bucket[i + 1..];
  }

  method Exchange(bucket: seq<Node>, n: Node) returns (changed: seq<Node>)
    requires NoIndexTwice(bucket) && exists m :: m in bucket && m.index == n.index
    ensures forall m :: m in changed <==> m == n || (m in bucket && m.index != n.index)
    ensures NoIndexTwice(changed)
  {
    var i := Position(bucket, n.index);
    var both := bucket[..i] + [n] + bucket[i..];
    changed := both[..i + 1] + both[i + 2..];
    assert changed == bucket[..i] + [n] + bucket[i + 1..];
    assert bucket == bucket[..i] + [bucket[i]] + bucket[i + 1..];
  }

  method Position(bucket: seq<Node>, index: u32) returns (i: nat)
    requires exists n :: n in bucket && n.index == index
    ensures i < |bucket| && bucket[i].index == index
  {
    i := 0;
    while bucket[i].index != index
      invariant i < |bucket| && exists n :: n in bucket[i..] && n.index == index
      decreases |bucket| - i
    {
      i := i + 1;
    }
  }

  class Table {
    const buckets: array<seq<Node>>

    ghost var live: map<u32, Owner>

    ghost predicate Valid()
      reads this, buckets
    {
      buckets.Length == SIZE && forall b :: 0 <= b < SIZE ==> Lists(buckets[b], b, live)
    }

    constructor ()
      ensures Valid() && fresh(buckets) && live == map[]
    {
      buckets := new seq<Node>[SIZE](_ => []);
      live := map[];
    }

    method Find(index: u32) returns (found: Option<Owner>)
      requires Valid()
      ensures found == if index in live then Some(live[index]) else None
    {
      hide Bucket;
      found := Walk(buckets[Bucket(index)], index);
      assert Lists(buckets[Bucket(index)], Bucket(index), live);
      if index in live {
        assert Node(index, live[index]) in buckets[Bucket(index)];
      }
    }

    // The loop of noise_remote_index_insert: draw until the index is not in use. `draws` are the
    // numbers that arc4random returns.
    method Draw(draws: seq<u32>) returns (index: u32)
      requires Valid() && exists d :: d in draws && d !in live
      ensures index in draws && index !in live
    {
      hide Bucket;
      var i := 0;
      index := draws[0];
      var found := Find(index);
      while found.Some?
        invariant 0 <= i < |draws| && index == draws[i]
        invariant found == if index in live then Some(live[index]) else None
        invariant exists d :: d in draws[i..] && d !in live
        decreases |draws| - i
      {
        i := i + 1;
        index := draws[i];
        found := Find(index);
      }
    }

    // Every other bucket still lists what it should.
    lemma OtherBuckets(was: map<u32, Owner>, index: u32, c: nat)
      requires buckets.Length == SIZE && c < SIZE && c != Bucket(index)
      requires Lists(buckets[c], c, was) && live - {index} == was - {index}
      ensures Lists(buckets[c], c, live)
    {
      hide Bucket;
      forall n: Node
        ensures n in buckets[c] <==> Bucket(n.index) == c && n.index in live && live[n.index] == n.owner
      {
        assert n.index in live - {index} <==> n.index in was - {index};
        assert n.index in was - {index} ==> (was - {index})[n.index] == (live - {index})[n.index];
      }
    }

    // CK_LIST_INSERT_HEAD
    method Insert(index: u32, owner: Owner)
      requires Valid() && index !in live
      modifies this, buckets
      ensures Valid()
      ensures live == old(live)[index := owner]
      ensures forall c :: 0 <= c < SIZE && c != Bucket(index) ==> buckets[c] == old(buckets[c])
    {
      hide Bucket;
      var b := Bucket(index);
      assert Lists(buckets[b], b, live);
      buckets[b] := [Node(index, owner)] + buckets[b];
      live := live[index := owner];
      assert live - {index} == old(live) - {index};
      forall c | 0 <= c < SIZE
        ensures Lists(buckets[c], c, live)
      {
        if c != b {
          assert Lists(old(buckets[c]), c, old(live));
          OtherBuckets(old(live), index, c);
        }
      }
    }

    // CK_LIST_REMOVE of the node with this index
    method Remove(index: u32)
      requires Valid() && index in live
      modifies this, buckets
      ensures Valid()
      ensures live == old(live) - {index}
    {
      hide Bucket;
      var b := Bucket(index);
      assert Lists(buckets[b], b, live);
      ghost var n := Node(index, live[index]);
      assert n in buckets[b];
      buckets[b] := Unlink(buckets[b], index);
      live := live - {index};
      assert live - {index} == old(live) - {index};
      forall c | 0 <= c < SIZE
        ensures Lists(buckets[c], c, live)
      {
        if c != b {
          assert Lists(old(buckets[c]), c, old(live));
          OtherBuckets(old(live), index, c);
        }
      }
    }

    // CK_LIST_INSERT_BEFORE a node with the same index, then CK_LIST_REMOVE of that node
    method Supplant(index: u32, owner: Owner)
      requires Valid() && index in live
      modifies this, buckets
      ensures Valid()
      ensures live == old(live)[index := owner]
    {
      hide Bucket;
      var b := Bucket(index);
      assert Lists(buckets[b], b, live);
      ghost var n := Node(index, live[index]);
      assert n in buckets[b];
      buckets[b] := Exchange(buckets[b], Node(index, owner));
      live := live[index := owner];
      assert live - {index} == old(live) - {index};
      forall c | 0 <= c < SIZE
        ensures Lists(buckets[c], c, live)
      {
        if c != b {
          assert Lists(old(buckets[c]), c, old(live));
          OtherBuckets(old(live), index, c);
        }
      }
    }
  }
}
