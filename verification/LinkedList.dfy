/** src/lib/list.c: doubly linked lists between two sentinels, threaded through nodes that
    belong to their users. */
module LinkedList {

  class Node {
    var prev: Node?
    var next: Node?
    var key: int

    constructor (key: int)
      ensures prev == null && next == null && this.key == key
    {
      prev, next := null, null;
      this.key := key;
    }
  }

  ghost predicate Distinct(chain: seq<Node>) {
    forall i, j :: 0 <= i < j < |chain| ==> chain[i] != chain[j]
  }

  ghost predicate Linked(chain: seq<Node>)
    reads chain
  {
    forall i :: 0 <= i < |chain| - 1 ==> chain[i].next == chain[i + 1] && chain[i + 1].prev == chain[i]
  }

  function Inserted<T>(s: seq<T>, i: nat, x: T): seq<T>
    requires i <= |s|
  {
    s[..i] + [x] + s[i..]
  }

  function Without<T>(s: seq<T>, i: nat): seq<T>
    requires i < |s|
  {
    s[..i] + s[i + 1..]
  }

  class List {
    const head: Node
    const tail: Node
    /** The nodes from one sentinel to the other, both included. */
    ghost var chain: seq<Node>

    ghost predicate Valid()
      reads this, chain
    {
      && |chain| >= 2 && chain[0] == head && chain[|chain| - 1] == tail
      && Distinct(chain) && Linked(chain) && head.prev == null && tail.next == null
    }

    /** The nodes that the list holds. */
    ghost function Nodes(): seq<Node>
      reads this
    {
      if |chain| < 2 then [] else chain[1..|chain| - 1]
    }

    /** list_init. */
    constructor ()
      ensures Valid() && Nodes() == [] && fresh(head) && fresh(tail)
    {
      head := new Node(0);
      tail := new Node(0);
      new;
      head.next := tail;
      tail.prev := head;
      chain := [head, tail];
    }

    /** list_insert_before, for the anchor at position i of the chain. */
    method InsertBefore(anchor: Node, node: Node, ghost i: nat)
      requires Valid() && 1 <= i < |chain| && chain[i] == anchor && node !in chain
      modifies this`chain, chain`prev, chain`next, node`prev, node`next
      ensures Valid() && chain == Inserted(old(chain), i, node)
    {
      var before := anchor.prev;
      assert before == chain[i - 1] == chain[i].prev by {
        assert chain[i - 1].next == chain[i - 1 + 1];
      }
      node.prev := anchor.prev;
      node.next := anchor;
      anchor.prev.next := node;
      anchor.prev := node;
      chain := Inserted(chain, i, node);
    }

    /** list_insert_after. */
    method InsertAfter(anchor: Node, node: Node, ghost i: nat)
      requires Valid() && i < |chain| - 1 && chain[i] == anchor && node !in chain
      modifies this`chain, chain`prev, chain`next, node`prev, node`next
      ensures Valid() && chain == Inserted(old(chain), i + 1, node)
    {
      assert anchor.next == chain[i + 1];
      node.prev := anchor;
      node.next := anchor.next;
      anchor.next.prev := node;
      anchor.next := node;
      chain := Inserted(chain, i + 1, node);
    }

    /** list_remove. */
    method Remove(node: Node, ghost i: nat)
      requires Valid() && 1 <= i < |chain| - 1 && chain[i] == node
      modifies this`chain, chain`prev, chain`next
      ensures Valid() && chain == Without(old(chain), i)
      ensures node.prev == null && node.next == null
    {
      assert node.next == chain[i + 1] && chain[i - 1].next == chain[i - 1 + 1] && node.prev == chain[i - 1];
      node.prev.next := node.next;
      node.next.prev := node.prev;
      node.next := null;
      node.prev := null;
      chain := Without(chain, i);
    }

    /** list_push: in front of all others. */
    method Push(node: Node)
      requires Valid() && node !in chain
      modifies this`chain, chain`prev, chain`next, node`prev, node`next
      ensures Valid() && Nodes() == [node] + old(Nodes())
    {
      InsertAfter(head, node, 0);
    }

    /** list_pushback: behind all others. */
    method PushBack(node: Node)
      requires Valid() && node !in chain
      modifies this`chain, chain`prev, chain`next, node`prev, node`next
      ensures Valid() && Nodes() == old(Nodes()) + [node]
    {
      InsertBefore(tail, node, |chain| - 1);
    }

    /** list_pop; it asserts that the list is not empty. */
    method Pop() returns (node: Node)
      requires Valid() && Nodes() != []
      modifies this`chain, chain`prev, chain`next
      ensures Valid() && old(Nodes()) == [node] + Nodes() && node.prev == null && node.next == null
    {
      assert head.next == chain[0 + 1];
      node := head.next;
      Remove(node, 1);
    }

    /** list_popback. */
    method PopBack() returns (node: Node)
      requires Valid() && Nodes() != []
      modifies this`chain, chain`prev, chain`next
      ensures Valid() && old(Nodes()) == Nodes() + [node] && node.prev == null && node.next == null
    {
      assert chain[|chain| - 2].next == chain[|chain| - 2 + 1];
      node := tail.prev;
      Remove(node, |chain| - 2);
    }

    /** list_empty. */
    method Empty() returns (b: bool)
      requires Valid()
      ensures b <==> Nodes() == []
    {
      assert head.next == chain[0 + 1];
      b := head.next == tail;
    }

    /** list_search. */
    method Search(node: Node) returns (found: bool)
      requires Valid()
      ensures found <==> node in Nodes()
    {
      ghost var i := 1;
      assert head.next == chain[0 + 1];
      var ptr := head.next;
      while ptr != tail
        invariant 1 <= i < |chain| && ptr == chain[i]
        invariant forall j :: 1 <= j < i ==> chain[j] != node
        decreases |chain| - i
      {
        if ptr == node {
          assert Nodes()[i - 1] == node;
          return true;
        }
        assert chain[i].next == chain[i + 1];
        ptr := ptr.next;
        i := i + 1;
      }
      return false;
    }

    /** list_size. */
    method Size() returns (size: nat)
      requires Valid()
      ensures size == |Nodes()|
    {
      size := 0;
      assert head.next == chain[0 + 1];
      var ptr := head.next;
      while ptr != tail
        invariant size < |chain| - 1 && ptr == chain[size + 1]
        decreases |chain| - size
      {
        assert chain[size + 1].next == chain[size + 1 + 1];
        size := size + 1;
        ptr := ptr.next;
      }
    }

    /** The search of list_insert_sort: the first node with a larger key, or the tail. */
    method FindAnchor(key: int) returns (anchor: Node, ghost i: nat)
      requires Valid()
      ensures 1 <= i < |chain| && anchor == chain[i] && i - 1 == Place(Keys(Nodes()), key)
    {
      i := 1;
      assert head.next == chain[0 + 1];
      var ptr := head.next;
      while ptr != tail && ptr.key <= key
        invariant 1 <= i < |chain| && ptr == chain[i]
        invariant forall j :: 1 <= j < i ==> chain[j].key <= key
        decreases |chain| - i
      {
        assert chain[i].next == chain[i + 1];
        ptr := ptr.next;
        i := i + 1;
      }
      anchor := ptr;
      PlaceIs(Keys(Nodes()), key, i - 1);
    }

    /** list_insert_sort: before the first node with a larger key. */
    method InsertSort(node: Node)
      requires Valid() && node !in chain && node.prev == null && node.next == null
      modifies this`chain, chain`prev, chain`next, node`prev, node`next
      ensures Valid() && Nodes() == Inserted(old(Nodes()), Place(old(Keys(Nodes())), node.key), node)
    {
      ghost var i;
      var anchor;
      anchor, i := FindAnchor(node.key);
      InsertAmong(anchor, node, i);
    }

    /** list_insert_before, as seen from between the sentinels. */
    method InsertAmong(anchor: Node, node: Node, ghost i: nat)
      requires Valid() && 1 <= i < |chain| && chain[i] == anchor && node !in chain
      modifies this`chain, chain`prev, chain`next, node`prev, node`next
      ensures Valid() && Nodes() == Inserted(old(Nodes()), i - 1, node)
    {
      InnerInserted(chain, i, node);
      InsertBefore(anchor, node, i);
    }
  }

  lemma InnerInserted<T>(s: seq<T>, i: nat, x: T)
    requires 1 <= i < |s|
    ensures Inserted(s, i, x)[1..|s|] == Inserted(s[1..|s| - 1], i - 1, x)
  {
  }

  ghost function Keys(nodes: seq<Node>): (ks: seq<int>)
    reads nodes`key
    ensures |ks| == |nodes| && forall i :: 0 <= i < |ks| ==> ks[i] == nodes[i].key
  {
    if nodes == [] then [] else [nodes[0].key] + Keys(nodes[1..])
  }

  /** Where a key goes: before the first larger one. */
  function Place(ks: seq<int>, k: int): (p: nat)
    ensures p <= |ks|
  {
    if ks == [] || ks[0] > k then 0 else 1 + Place(ks[1..], k)
  }

  lemma {:induction false} PlaceIs(ks: seq<int>, k: int, p: nat)
    requires p <= |ks| && (forall i :: 0 <= i < p ==> ks[i] <= k) && (p < |ks| ==> ks[p] > k)
    ensures Place(ks, k) == p
  {
    if p == 0 {
    } else {
      PlaceIs(ks[1..], k, p - 1);
    }
  }

  ghost predicate NoneLarger(ks: seq<int>, j: nat) {
    j < |ks| ==> forall i :: 0 <= i < j ==> ks[i] <= ks[j]
  }

  /** No key is behind a larger one. */
  ghost predicate Sorted(ks: seq<int>) {
    forall j: nat :: NoneLarger(ks, j)
  }

  lemma SortedIs(ks: seq<int>)
    ensures Sorted(ks) <==> forall i, j :: 0 <= i < j < |ks| ==> ks[i] <= ks[j]
  {
    if Sorted(ks) {
      forall i, j | 0 <= i < j < |ks|
        ensures ks[i] <= ks[j]
      {
        assert NoneLarger(ks, j);
      }
    }
  }

  lemma {:induction false} PlaceSplits(ks: seq<int>, k: int)
    requires Sorted(ks)
    ensures forall i :: 0 <= i < |ks| ==> (i < Place(ks, k) <==> ks[i] <= k)
  {
    SortedIs(ks);
    if ks == [] || ks[0] > k {
    } else {
      SortedIs(ks[1..]);
      PlaceSplits(ks[1..], k);
      forall i | 0 < i < |ks|
        ensures i < Place(ks, k) <==> ks[i] <= k
      {
        assert ks[i] == ks[1..][i - 1];
      }
    }
  }

  /** Insertion keeps a sorted list sorted, and puts a key behind all its equals. */
  lemma {:induction false} PlaceSorts(ks: seq<int>, k: int)
    requires Sorted(ks)
    ensures Sorted(Inserted(ks, Place(ks, k), k))
    ensures forall i :: 0 <= i < |ks| ==> (i < Place(ks, k) <==> ks[i] <= k)
  {
    PlaceSplits(ks, k);
    SortedIs(ks);
    SortedIs(Inserted(ks, Place(ks, k), k));
  }
}
