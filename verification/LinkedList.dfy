// The doubly linked list of the utility library. Only the first node knows the length, in list_num.

module LinkedList {
  import opened Words

  /** A `void *` stored in a node. */
  type Pointer = int

  class Node {
    var data: Pointer
    var next: Node?
    var prev: Node?
    var listNum: nat

    constructor (x: Pointer)
      ensures data == x && next == null && prev == null && listNum == 0
    {
      data, next, prev, listNum := x, null, null, 0;
    }
  }

  ghost function At(nodes: seq<Node>, i: int): Node? {
    if 0 <= i < |nodes| then nodes[i] else null
  }

  /** The nodes are chained both ways in this order and hold this data. */
  ghost predicate Linked(nodes: seq<Node>, data: seq<Pointer>)
    reads nodes
  {
    && |nodes| == |data|
    && (forall i {:trigger nodes[i].next} :: 0 <= i < |nodes| ==> nodes[i].next == At(nodes, i + 1))
    && (forall i {:trigger nodes[i].prev} :: 0 <= i < |nodes| ==> nodes[i].prev == At(nodes, i - 1))
    && (forall i {:trigger nodes[i].data} :: 0 <= i < |nodes| ==> nodes[i].data == data[i])
    && (forall i, j :: 0 <= i < j < |nodes| ==> nodes[i] != nodes[j])
  }

  /** `list` is the first of the linked nodes and counts them, as a 32-bit number. */
  ghost predicate IsList(list: Node?, nodes: seq<Node>, data: seq<Pointer>)
    reads nodes
  {
    && Linked(nodes, data)
    && list == At(nodes, 0)
    && (nodes != [] ==> nodes[0].listNum == |nodes| % WORD)
  }

  function Removed(s: seq<Pointer>, x: Pointer): seq<Pointer> {
    if s == [] then [] else if s[0] == x then s[1..] else [s[0]] + Removed(s[1..], x)
  }

  function RemovedAll(s: seq<Pointer>, x: Pointer): seq<Pointer> {
    if s == [] then [] else if s[0] == x then RemovedAll(s[1..], x) else [s[0]] + RemovedAll(s[1..], x)
  }

  function Without<T>(s: seq<T>, i: nat): seq<T>
    requires i < |s|
  {
    s[..i] + s[i + 1..]
  }

  lemma WithoutAt<T>(s: seq<T>, i: nat)
    requires i < |s|
    ensures |Without(s, i)| == |s| - 1
    ensures forall j :: 0 <= j < |s| - 1 ==> Without(s, i)[j] == if j < i then s[j] else s[j + 1]
  {
  }

  lemma {:induction false} RemovedAt(s: seq<Pointer>, x: Pointer, i: nat)
    requires i < |s| && s[i] == x && forall j :: 0 <= j < i ==> s[j] != x
    ensures Removed(s, x) == Without(s, i)
  {
    if i > 0 {
      RemovedAt(s[1..], x, i - 1);
      assert Without(s, i) == [s[0]] + Without(s[1..], i - 1);
    }
  }

  lemma {:induction false} RemovedAbsent(s: seq<Pointer>, x: Pointer)
    requires x !in s
    ensures Removed(s, x) == s
  {
    if s != [] {
      RemovedAbsent(s[1..], x);
    }
  }

  lemma {:induction false} RemovedIsMultisetMinus(s: seq<Pointer>, x: Pointer)
    ensures multiset(Removed(s, x)) == multiset(s) - multiset{x}
  {
    if s != [] {
      assert s == [s[0]] + s[1..];
      if s[0] != x {
        RemovedIsMultisetMinus(s[1..], x);
      }
    }
  }

  lemma {:induction false} RemovedAllKeepsOthers(s: seq<Pointer>, x: Pointer)
    ensures multiset(RemovedAll(s, x)) == multiset(s)[x := 0]
  {
    if s != [] {
      assert s == [s[0]] + s[1..];
      RemovedAllKeepsOthers(s[1..], x);
    }
  }

  /** Chains the first node of one list behind the last of another. */
  method Join(last: Node, first: Node, ghost nodes1: seq<Node>, ghost data1: seq<Pointer>,
              ghost nodes2: seq<Node>, ghost data2: seq<Pointer>)
    requires Linked(nodes1, data1) && Linked(nodes2, data2)
    requires last == At(nodes1, |nodes1| - 1) && first == At(nodes2, 0)
    requires forall i, j :: 0 <= i < |nodes1| && 0 <= j < |nodes2| ==> nodes1[i] != nodes2[j]
    modifies last`next, first`prev
    ensures Linked(nodes1 + nodes2, data1 + data2)
  {
    last.next := first;
    first.prev := last;
  }

  method AddHead(list: Node?, x: Pointer, ghost nodes: seq<Node>, ghost data: seq<Pointer>) returns (head: Node)
    requires IsList(list, nodes, data)
    modifies nodes
    ensures fresh(head)
    ensures IsList(head, [head] + nodes, [x] + data)
  {
    head := new Node(x);
    if list != null {
      IncrementCount(|nodes|);
      head.listNum := Increment(list.listNum);
      list.listNum := 0;
      Join(head, list, [head], [x], nodes, data);
    } else {
      head.listNum := 1;
      assert nodes == [] && data == [];
    }
  }

  method Last(list: Node?, ghost nodes: seq<Node>, ghost data: seq<Pointer>) returns (last: Node?)
    requires IsList(list, nodes, data)
    ensures last == At(nodes, |nodes| - 1)
  {
    last := list;
    if last != null {
      ghost var i := 0;
      while last.next != null
        invariant 0 <= i < |nodes| && last == nodes[i]
        decreases |nodes| - i
      {
        last := last.next;
        i := i + 1;
      }
    }
  }

  method AddTail(list: Node?, x: Pointer, ghost nodes: seq<Node>, ghost data: seq<Pointer>)
    returns (head: Node, ghost added: Node)
    requires IsList(list, nodes, data)
    modifies nodes
    ensures fresh(added)
    ensures IsList(head, nodes + [added], data + [x])
  {
    var node := new Node(x);
    added := node;
    if list != null {
      var last := Last(list, nodes, data);
      IncrementCount(|nodes|);
      list.listNum := Increment(list.listNum);
      Join(last, node, nodes, data, [node], [x]);
      head := list;
    } else {
      node.listNum := 1;
      head := node;
    }
  }

  /** Makes the neighbours of the node at position i point past it. */
  method Bypass(link: Node, ghost nodes: seq<Node>, ghost data: seq<Pointer>, ghost i: nat)
    requires Linked(nodes, data) && i < |nodes| && nodes[i] == link
    modifies nodes
    ensures Linked(Without(nodes, i), Without(data, i))
    ensures unchanged(link) && forall n <- nodes :: n.listNum == old(n.listNum)
  {
    if link.prev != null {
      link.prev.next := link.next;
    }
    if link.next != null {
      link.next.prev := link.prev;
    }
    BypassedIsLinked(nodes, data, i);
  }

  /** The neighbours of the node at position i point past it. */
  ghost predicate Bypassed(nodes: seq<Node>, data: seq<Pointer>, i: nat)
    reads nodes
  {
    && |nodes| == |data|
    && (forall m {:trigger nodes[m].next} :: 0 <= m < |nodes| ==>
          nodes[m].next == At(nodes, if m + 1 == i then i + 1 else m + 1))
    && (forall m {:trigger nodes[m].prev} :: 0 <= m < |nodes| ==>
          nodes[m].prev == At(nodes, if m == i + 1 then i - 1 else m - 1))
    && (forall m {:trigger nodes[m].data} :: 0 <= m < |nodes| ==> nodes[m].data == data[m])
    && (forall j, m :: 0 <= j < m < |nodes| ==> nodes[j] != nodes[m])
  }

  lemma BypassedIsLinked(nodes: seq<Node>, data: seq<Pointer>, i: nat)
    requires i < |nodes| && Bypassed(nodes, data, i)
    ensures Linked(Without(nodes, i), Without(data, i))
  {
    WithoutAt(nodes, i);
    WithoutAt(data, i);
  }

  /** z3_list_remove; a build with assertions also insists that x was found. */
  method Remove(list: Node?, x: Pointer, ghost nodes: seq<Node>, ghost data: seq<Pointer>)
    returns (head: Node?, ghost rest: seq<Node>)
    requires IsList(list, nodes, data)
    modifies nodes
    ensures IsList(head, rest, Removed(data, x))
    ensures forall n <- rest :: n in nodes
  {
    head := list;
    rest := nodes;
    var link := list;
    ghost var i := 0;
    while link != null && link.data != x
      invariant 0 <= i <= |nodes| && link == At(nodes, i)
      invariant forall j :: 0 <= j < i ==> data[j] != x
      decreases |nodes| - i
    {
      link := link.next;
      i := i + 1;
    }
    if link != null {
      RemovedAt(data, x, i);
      DecrementCount(|nodes|);
      Bypass(link, nodes, data, i);
      rest := Without(nodes, i);
      if head == link {
        head := link.next;
        if head != null {
          head.listNum := link.listNum;
        }
      }
      if head != null {
        head.listNum := Decrement(head.listNum);
      }
    } else {
      RemovedAbsent(data, x);
    }
  }

  lemma {:induction false} RemovedAllSplit(s: seq<Pointer>, x: Pointer, i: nat)
    requires i < |s|
    ensures RemovedAll(s[..i + 1], x) == RemovedAll(s[..i], x) + if s[i] == x then [] else [s[i]]
  {
    if i == 0 {
      assert s[..1] == [s[0]];
    } else {
      RemovedAllSplit(s[1..], x, i - 1);
      assert s[..i + 1][1..] == s[1..][..i] && s[..i][1..] == s[1..][..i - 1];
    }
  }

  /** The list once its first k elements have been looked at. */
  function Partly(s: seq<Pointer>, x: Pointer, k: nat): seq<Pointer>
    requires k <= |s|
  {
    RemovedAll(s[..k], x) + s[k..]
  }

  lemma PartlyStep(s: seq<Pointer>, x: Pointer, k: nat)
    requires k < |s|
    ensures var n := |RemovedAll(s[..k], x)|;
            && n < |Partly(s, x, k)| && Partly(s, x, k)[n] == s[k]
            && Partly(s, x, k + 1) == (if s[k] == x then Without(Partly(s, x, k), n) else Partly(s, x, k))
            && |RemovedAll(s[..k + 1], x)| == (if s[k] == x then n else n + 1)
  {
    RemovedAllSplit(s, x, k);
  }

  lemma PartlyDone(s: seq<Pointer>, x: Pointer, k: nat)
    requires k <= |s| && |Partly(s, x, k)| <= |RemovedAll(s[..k], x)|
    ensures Partly(s, x, k) == RemovedAll(s, x)
  {
    assert s[..k] == s;
  }

  /** Unlinks one node and keeps the count in the head, as the body of z3_list_remove_all does. */
  method Unlink(head: Node, link: Node, ghost nodes: seq<Node>, ghost data: seq<Pointer>, ghost i: nat)
    returns (newHead: Node?)
    requires IsList(head, nodes, data) && i < |nodes| && nodes[i] == link
    modifies nodes
    ensures IsList(newHead, Without(nodes, i), Without(data, i))
    ensures link.next == old(link.next)
  {
    DecrementCount(|nodes|);
    var next := link.next;
    newHead := head;
    if link.prev == null {
      if next != null {
        next.listNum := head.listNum;
      }
      newHead := next;
    }
    if newHead != null {
      newHead.listNum := Decrement(newHead.listNum);
    }
    Bypass(link, nodes, data, i);
  }

  method RemoveAll(list: Node?, x: Pointer, ghost nodes: seq<Node>, ghost data: seq<Pointer>)
    returns (head: Node?, ghost rest: seq<Node>)
    requires IsList(list, nodes, data)
    modifies nodes
    ensures IsList(head, rest, RemovedAll(data, x))
    ensures forall n <- rest :: n in nodes
  {
    head := list;
    var link := list;
    rest := nodes;
    ghost var k, n := 0, 0;
    assert Partly(data, x, 0) == data;
    while link != null
      invariant k <= |data| && n == |RemovedAll(data[..k], x)|
      invariant IsList(head, rest, Partly(data, x, k)) && link == At(rest, n)
      invariant forall j :: 0 <= j < |rest| ==> rest[j] in nodes
      decreases |data| - k
    {
      PartlyStep(data, x, k);
      head, link, rest := RemoveOrPass(head, link, x, rest, Partly(data, x, k), n);
      n := |RemovedAll(data[..k + 1], x)|;
      k := k + 1;
    }
    PartlyDone(data, x, k);
  }

  /** One turn of the loop: a node that holds x goes, any other stays. */
  method RemoveOrPass(list: Node, link: Node, x: Pointer,
                      ghost nodes: seq<Node>, ghost data: seq<Pointer>, ghost n: nat)
    returns (head: Node?, next: Node?, ghost rest: seq<Node>)
    requires IsList(list, nodes, data) && n < |nodes| && nodes[n] == link
    modifies nodes
    ensures IsList(head, rest, if data[n] == x then Without(data, n) else data)
    ensures next == At(rest, if data[n] == x then n else n + 1)
    ensures forall j :: 0 <= j < |rest| ==> rest[j] in nodes
  {
    next := link.next;
    if link.data != x {
      head, rest := list, nodes;
    } else {
      head := Unlink(list, link, nodes, data, n);
      rest := Without(nodes, n);
    }
  }

  /** z3_list_remove_link; removing the only node would read through a null `next`. */
  method RemoveLink(list: Node, link: Node?, ghost nodes: seq<Node>, ghost data: seq<Pointer>, ghost i: nat)
    returns (head: Node)
    requires IsList(list, nodes, data)
    requires link != null ==> i < |nodes| && nodes[i] == link && |nodes| > 1
    modifies nodes
    ensures link == null ==> head == list && IsList(list, nodes, data)
    ensures link != null ==> IsList(head, Without(nodes, i), Without(data, i)) && link.next == null && link.prev == null
  {
    head := list;
    if link != null {
      DecrementCount(|nodes|);
      Bypass(link, nodes, data, i);
      if link == list {
        list.next.listNum := list.listNum;
        head := list.next;
      }
      head.listNum := Decrement(head.listNum);
      link.next := null;
      link.prev := null;
    }
  }

  method Concat(list1: Node?, list2: Node?, ghost nodes1: seq<Node>, ghost data1: seq<Pointer>,
                ghost nodes2: seq<Node>, ghost data2: seq<Pointer>) returns (head: Node?)
    requires IsList(list1, nodes1, data1) && IsList(list2, nodes2, data2)
    requires forall i, j :: 0 <= i < |nodes1| && 0 <= j < |nodes2| ==> nodes1[i] != nodes2[j]
    modifies nodes1, nodes2
    ensures IsList(head, nodes1 + nodes2, data1 + data2)
  {
    head := list1;
    if list2 == null {
      assert nodes1 + nodes2 == nodes1 && data1 + data2 == data1;
    } else {
      var last := Last(list1, nodes1, data1);
      if last != null {
        AddCounts(|nodes1|, |nodes2|);
        list1.listNum := Plus(list1.listNum, list2.listNum);
        list2.listNum := 0;
        Join(last, list2, nodes1, data1, nodes2, data2);
      } else {
        assert nodes1 + nodes2 == nodes2 && data1 + data2 == data2;
        head := list2;
        list2.prev := last;
      }
    }
  }

  method Find(list: Node?, x: Pointer, ghost nodes: seq<Node>, ghost data: seq<Pointer>) returns (link: Node?)
    requires IsList(list, nodes, data)
    ensures link == null <==> x !in data
    ensures link != null ==> exists i :: 0 <= i < |nodes| && nodes[i] == link && data[i] == x && x !in data[..i]
  {
    link := list;
    ghost var i := 0;
    while link != null && link.data != x
      invariant 0 <= i <= |nodes| && link == At(nodes, i)
      invariant x !in data[..i]
      decreases |nodes| - i
    {
      link := link.next;
      i := i + 1;
    }
  }

  /** z3_list_foreach, with the callback reduced to noting what it is called for. */
  method ForEach(list: Node?, ghost nodes: seq<Node>, ghost data: seq<Pointer>) returns (visited: seq<Pointer>)
    requires IsList(list, nodes, data)
    ensures visited == data
  {
    var link := list;
    visited := [];
    while link != null
      invariant |visited| <= |nodes| && link == At(nodes, |visited|)
      invariant visited == data[..|visited|]
      decreases |nodes| - |visited|
    {
      var next := link.next;
      visited := visited + [link.data];
      link := next;
    }
  }

  method First(link: Node?, ghost nodes: seq<Node>, ghost data: seq<Pointer>, ghost i: nat) returns (first: Node?)
    requires Linked(nodes, data) && link == At(nodes, i)
    ensures first == if link == null then null else nodes[0]
  {
    first := link;
    ghost var k := i;
    while first != null && first.prev != null
      invariant first == At(nodes, k) && (first == null <==> link == null) && 0 <= k
      decreases k
    {
      first := first.prev;
      k := k - 1;
    }
  }

  method Number(list: Node?, ghost nodes: seq<Node>, ghost data: seq<Pointer>) returns (n: nat)
    requires IsList(list, nodes, data)
    ensures n == |data| % WORD
  {
    if list != null {
      n := list.listNum;
    } else {
      n := 0;
    }
  }
}
