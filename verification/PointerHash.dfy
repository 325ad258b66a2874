// The hash of pointers: 512 buckets, each a doubly linked list.

module PointerHash {
  import opened LinkedList
  import opened Words

  const BUCKETS: nat := 512

  /** fnv_random_key on 32-bit unsigned numbers: shift right by 22, mask with 0x1FF. */
  function Key(x: Pointer): (key: nat)
    ensures key < BUCKETS
  {
    x * 1103515245 % WORD / 0x40_0000 % BUCKETS
  }

  /** The key is bits 22 to 30 of the product, so that its reduction to 32 bits makes no difference. */
  lemma KeyIsMiddleBits(x: Pointer)
    ensures Key(x) == x * 1103515245 / 0x40_0000 % 512
  {
    MiddleBits(x * 1103515245);
  }

  lemma MiddleBits(n: int)
    ensures n % WORD / 0x40_0000 % 512 == n / 0x40_0000 % 512
  {
    var a, b := n / 0x40_0000, n % 0x40_0000;
    LowWord(a, b);
    Mod512(a);
  }

  lemma LowWord(a: int, b: int)
    requires 0 <= b < 0x40_0000
    ensures (a * 0x40_0000 + b) % WORD / 0x40_0000 == a % 1024
  {
    var c, d := a / 1024, a % 1024;
    ModMultiple(c, d * 0x40_0000 + b);
    assert a * 0x40_0000 + b == c * WORD + (d * 0x40_0000 + b);
  }

  lemma Mod512(a: int)
    ensures a % 1024 % 512 == a % 512
  {
    assert a == a / 1024 * 2 * 512 + a % 1024;
  }

  function Bag(lists: seq<seq<Pointer>>): multiset<Pointer> {
    if lists == [] then multiset{} else multiset(lists[0]) + Bag(lists[1..])
  }

  function Flat(lists: seq<seq<Pointer>>): seq<Pointer> {
    if lists == [] then [] else lists[0] + Flat(lists[1..])
  }

  lemma {:induction false} FlatSnoc(lists: seq<seq<Pointer>>, last: seq<Pointer>)
    ensures Flat(lists + [last]) == Flat(lists) + last
  {
    if lists == [] {
      assert lists + [last] == [last];
    } else {
      FlatSnoc(lists[1..], last);
      assert (lists + [last])[1..] == lists[1..] + [last];
    }
  }

  /** Walking the buckets one after the other meets every stored pointer as often as it is stored. */
  lemma {:induction false} FlatIsBag(lists: seq<seq<Pointer>>)
    ensures multiset(Flat(lists)) == Bag(lists)
  {
    if lists != [] {
      FlatIsBag(lists[1..]);
    }
  }

  lemma {:induction false} BagUpdate(lists: seq<seq<Pointer>>, k: nat, list: seq<Pointer>)
    requires k < |lists|
    ensures multiset(lists[k]) <= Bag(lists)
    ensures Bag(lists[k := list]) == Bag(lists) - multiset(lists[k]) + multiset(list)
  {
    if k > 0 {
      BagUpdate(lists[1..], k - 1, list);
      assert lists[k := list][1..] == lists[1..][k - 1 := list];
    }
  }

  lemma BagInsert(lists: seq<seq<Pointer>>, k: nat, x: Pointer)
    requires k < |lists|
    ensures Bag(lists[k := [x] + lists[k]]) == Bag(lists) + multiset{x}
  {
    BagUpdate(lists, k, [x] + lists[k]);
  }

  lemma BagRemove(lists: seq<seq<Pointer>>, k: nat, x: Pointer)
    requires Placed(lists) && k == Key(x)
    ensures Bag(lists[k := Removed(lists[k], x)]) == Bag(lists) - multiset{x}
  {
    BagUpdate(lists, k, Removed(lists[k], x));
    RemovedIsMultisetMinus(lists[k], x);
    PlacedMember(lists, x);
    assert x in lists[k] <==> x in multiset(lists[k]);
  }

  lemma RemovedFrom(s: seq<Pointer>, x: Pointer)
    ensures forall y <- Removed(s, x) :: y in s
  {
    RemovedIsMultisetMinus(s, x);
    forall y <- Removed(s, x) ensures y in s {
      assert y in multiset(Removed(s, x));
    }
  }

  lemma {:induction false} BagMember(lists: seq<seq<Pointer>>, x: Pointer)
    ensures x in Bag(lists) <==> exists i :: 0 <= i < |lists| && x in lists[i]
  {
    if lists != [] {
      BagMember(lists[1..], x);
      if i :| 0 <= i < |lists| && x in lists[i] {
        if i > 0 {
          assert lists[1..][i - 1] == lists[i];
        }
      }
    }
  }

  /** A pointer is stored only in the list that its key names. */
  ghost predicate Placed(lists: seq<seq<Pointer>>) {
    && |lists| == BUCKETS
    && forall i, x :: 0 <= i < BUCKETS && x in lists[i] ==> Key(x) == i
  }

  lemma PlacedMember(lists: seq<seq<Pointer>>, x: Pointer)
    requires Placed(lists)
    ensures x in Bag(lists) <==> x in lists[Key(x)]
  {
    BagMember(lists, x);
  }

  lemma {:induction false} EmptyBag(n: nat)
    ensures Bag(seq(n, _ => [])) == multiset{}
  {
    if n > 0 {
      EmptyBag(n - 1);
      var none: seq<seq<Pointer>> := seq(n, _ => []);
      assert none[1..] == seq(n - 1, _ => []);
    }
  }

  class Hash {
    const buckets: array<Node?>
    var available: nat
    ghost var chains: seq<seq<Node>>       // the nodes of each bucket
    ghost var lists: seq<seq<Pointer>>     // the pointers in each bucket
    ghost var owner: map<Node, nat>        // the bucket of each node

    /** Every node of bucket i belongs to it, and to no other bucket. */
    ghost predicate Owned()
      reads this`chains, this`owner
    {
      && |chains| == BUCKETS
      && forall i, a :: 0 <= i < BUCKETS && 0 <= a < |chains[i]| ==> chains[i][a] in owner && owner[chains[i][a]] == i
    }

    ghost predicate BucketAt(i: nat)
      requires i < buckets.Length && i < |chains| && i < |lists|
      reads this`chains, this`lists, buckets, chains[i]
    {
      IsList(buckets[i], chains[i], lists[i])
    }

    ghost predicate Stored()
      reads this`chains, this`lists, this`owner, buckets, owner.Keys
    {
      && buckets.Length == BUCKETS && Placed(lists) && Owned()
      && forall i :: 0 <= i < BUCKETS ==> BucketAt(i)
    }

    ghost function Contents(): multiset<Pointer>
      reads this`lists
    {
      Bag(lists)
    }

    /** The contents are in place, and available_num is their number. */
    ghost predicate Valid()
      reads this, buckets, owner.Keys
    {
      Stored() && available == |Contents()| % WORD
    }

    constructor ()
      ensures Valid() && Contents() == multiset{}
      ensures fresh(buckets) && fresh(owner.Keys)
    {
      buckets := new Node?[BUCKETS](_ => null);
      available := 0;
      owner := map[];
      chains, lists := seq(BUCKETS, _ => []), seq(BUCKETS, _ => []);
      EmptyBag(BUCKETS);
    }

    method Lookup(x: Pointer) returns (key: nat)
      requires Stored()
      ensures key == Key(x) < buckets.Length
    {
      key := Key(x);
    }

    ghost predicate OthersStored(key: nat)
      reads this`chains, this`lists, this`owner, buckets, owner.Keys
    {
      && key < BUCKETS == buckets.Length && Placed(lists) && Owned()
      && forall i :: 0 <= i < BUCKETS && i != key ==> BucketAt(i)
    }

    /** The other buckets do not notice a change of the nodes of bucket `key`. */
    twostate lemma OthersKept(key: nat)
      requires key < BUCKETS && old(Stored())
      requires unchanged(this) && unchanged(buckets)
      requires forall n :: n in owner && owner[n] != key ==> unchanged(n)
      ensures OthersStored(key)
    {
      forall i | 0 <= i < BUCKETS && i != key
        ensures BucketAt(i)
      {
        assert old(BucketAt(i));
        forall a | 0 <= a < |chains[i]|
          ensures unchanged(chains[i][a])
        {
          assert chains[i][a] in owner;
        }
      }
    }

    /** Hangs a new list into bucket `key`. */
    method SetBucket(key: nat, head: Node?, ghost nodes: seq<Node>, ghost list: seq<Pointer>)
      requires OthersStored(key) && IsList(head, nodes, list)
      requires forall x <- list :: Key(x) == key
      requires forall n <- nodes :: n in owner ==> owner[n] == key
      modifies this`chains, this`lists, this`owner, buckets
      ensures Stored() && lists == old(lists)[key := list]
      ensures owner.Keys == old(owner.Keys) + (set n | n in nodes)
    {
      buckets[key] := head;
      owner := owner + map n | n in nodes :: key;
      chains, lists := chains[key := nodes], lists[key := list];
      forall i | 0 <= i < BUCKETS
        ensures BucketAt(i)
      {
        if i != key {
          assert old(BucketAt(i));
        }
      }
    }

    method Insert(x: Pointer) returns (key: nat)
      requires Stored()
      modifies this, buckets, owner.Keys
      ensures Stored() && fresh(owner.Keys - old(owner.Keys))
      ensures key == Key(x) && Contents() == old(Contents()) + multiset{x}
      ensures available == Increment(old(available))
    {
      key := Lookup(x);
      BagInsert(lists, key, x);
      InsertAt(key, x);
      available := Increment(available);
    }

    method InsertAt(key: nat, x: Pointer)
      requires Stored() && key == Key(x)
      modifies this`chains, this`lists, this`owner, buckets, owner.Keys
      ensures Stored() && fresh(owner.Keys - old(owner.Keys))
      ensures lists == old(lists)[key := [x] + old(lists)[key]]
    {
      assert BucketAt(key);
      var head := AddHead(buckets[key], x, chains[key], lists[key]);
      OthersKept(key);
      SetBucket(key, head, [head] + chains[key], [x] + lists[key]);
    }

    /** Without `x` in the hash the contents stay, and a build with assertions stops. */
    method Remove(x: Pointer) returns (key: nat)
      requires Stored()
      modifies this, buckets, owner.Keys
      ensures Stored() && owner.Keys == old(owner.Keys)
      ensures key == Key(x) && Contents() == old(Contents()) - multiset{x}
      ensures available == Decrement(old(available))
    {
      key := Lookup(x);
      BagRemove(lists, key, x);
      RemoveAt(key, x);
      available := Decrement(available);
    }

    method RemoveAt(key: nat, x: Pointer)
      requires Stored() && key == Key(x)
      modifies this`chains, this`lists, this`owner, buckets, owner.Keys
      ensures Stored() && owner.Keys == old(owner.Keys)
      ensures lists == old(lists)[key := Removed(old(lists)[key], x)]
    {
      assert BucketAt(key);
      var head, rest := LinkedList.Remove(buckets[key], x, chains[key], lists[key]);
      OthersKept(key);
      RemovedFrom(lists[key], x);
      SetBucket(key, head, rest, Removed(lists[key], x));
    }

    method Amount() returns (n: nat)
      requires Valid()
      ensures n == |Contents()| % WORD
    {
      n := available;
    }

    /** z3_hash_foreach, with the callback reduced to noting what it is called for. */
    method ForEach() returns (visited: seq<Pointer>)
      requires Stored()
      ensures multiset(visited) == Contents()
    {
      visited := [];
      var index := 0;
      while index < buckets.Length
        invariant 0 <= index <= BUCKETS
        invariant visited == Flat(lists[..index])
      {
        assert BucketAt(index);
        if buckets[index] != null {
          var some := LinkedList.ForEach(buckets[index], chains[index], lists[index]);
          visited := visited + some;
        } else {
          assert visited + lists[index] == visited;
        }
        FlatSnoc(lists[..index], lists[index]);
        assert lists[..index + 1] == lists[..index] + [lists[index]];
        index := index + 1;
      }
      assert lists[..index] == lists;
      FlatIsBag(lists);
    }
  }

  /** Insertion keeps available_num right; removal does if and only if the pointer was there. */
  lemma CountKept(contents: multiset<Pointer>, x: Pointer, available: nat)
    requires available == |contents| % WORD
    ensures Increment(available) == |contents + multiset{x}| % WORD
    ensures Decrement(available) == |contents - multiset{x}| % WORD <==> x in contents
  {
    IncrementCount(|contents|);
    if x in contents {
      assert contents == contents - multiset{x} + multiset{x};
      DecrementCount(|contents|);
    } else {
      assert contents - multiset{x} == contents;
    }
  }
}
