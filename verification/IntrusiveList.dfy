/**
 Circular doubly linked lists through the `next` and `prev` fields of their elements, with a dummy
 head.  `next` and `prev` hold these fields of all elements and heads.
*/
module IntrusiveList {
  import opened Finite

  type Node = nat

  // The neighbour after position i of the ring that starts at the head.
  function After(ring: seq<Node>, i: nat): Node
    requires i < |ring|
  {
    if i + 1 < |ring| then ring[i + 1] else ring[0]
  }

  ghost predicate Linked(next: map<Node, Node>, prev: map<Node, Node>, x: Node, y: Node) {
    x in next && next[x] == y && y in prev && prev[y] == x
  }

  // `list` is what is linked to the head, oldest first.
  ghost predicate IsList(next: map<Node, Node>, prev: map<Node, Node>, head: Node, list: seq<Node>) {
    var ring := [head] + list;
    NoDup(ring) && forall i: nat | i < |ring| :: Linked(next, prev, ring[i], After(ring, i))
  }

  lemma EmptyList(next: map<Node, Node>, prev: map<Node, Node>, head: Node)
    requires head in next && next[head] == head && head in prev && prev[head] == head
    ensures IsList(next, prev, head, [])
  {
  }

  // What the head's fields say.
  lemma Ends(next: map<Node, Node>, prev: map<Node, Node>, head: Node, list: seq<Node>)
    requires IsList(next, prev, head, list)
    ensures head in next && head in prev && head !in list
    ensures next[head] == if list == [] then head else list[0]
    ensures prev[head] == if list == [] then head else list[|list| - 1]
  {
    var ring := [head] + list;
    assert Linked(next, prev, ring[0], After(ring, 0));
    assert Linked(next, prev, ring[|ring| - 1], After(ring, |ring| - 1));
    forall j | 0 <= j < |list| ensures list[j] != head { assert ring[0] != ring[j + 1]; }
  }

  // LRU_Remove
  function RemoveNext(next: map<Node, Node>, prev: map<Node, Node>, e: Node): map<Node, Node>
    requires e in next && e in prev
  {
    next[prev[e] := next[e]]
  }

  function RemovePrev(next: map<Node, Node>, prev: map<Node, Node>, e: Node): map<Node, Node>
    requires e in next && e in prev
  {
    prev[next[e] := prev[e]]
  }

  function Without(list: seq<Node>, i: nat): seq<Node>
    requires i < |list|
  {
    list[..i] + list[i + 1..]
  }

  lemma Neighbours(next: map<Node, Node>, prev: map<Node, Node>, head: Node, list: seq<Node>, i: nat)
    requires IsList(next, prev, head, list) && i < |list|
    ensures list[i] in next && list[i] in prev
    ensures next[list[i]] == if i + 1 < |list| then list[i + 1] else head
    ensures prev[list[i]] == if i > 0 then list[i - 1] else head
  {
    var ring := [head] + list;
    assert Linked(next, prev, ring[i], After(ring, i)) && Linked(next, prev, ring[i + 1], After(ring, i + 1));
  }

  // Taking e out from between p and n links these two, and leaves the other links alone.
  lemma RemoveOne(next: map<Node, Node>, prev: map<Node, Node>, p: Node, e: Node, n: Node, x: Node, y: Node)
    requires Linked(next, prev, p, e) && Linked(next, prev, e, n)
    ensures Linked(RemoveNext(next, prev, e), RemovePrev(next, prev, e), p, n)
    ensures Linked(next, prev, x, y) && x != p && y != n ==>
      Linked(RemoveNext(next, prev, e), RemovePrev(next, prev, e), x, y)
  {
  }

  lemma LinkEnds(next: map<Node, Node>, prev: map<Node, Node>, p: Node, e: Node, n: Node)
    requires Linked(next, prev, p, e) && Linked(next, prev, e, n)
    ensures e in next && e in prev
  {
  }

  // The links of the ring without the element at i + 1: one new link, and old ones.
  lemma RingLinks(ring: seq<Node>, i: nat, j: nat)
    requires i + 1 < |ring| && NoDup(ring) && j < |ring| - 1
    ensures var ring1, k := ring[..i + 1] + ring[i + 2..], if j <= i then j else j + 1;
      && ring1[j] == ring[k]
      && (j == i ==> After(ring1, j) == After(ring, i + 1))
      && (j != i ==> After(ring1, j) == After(ring, k) && ring[k] != ring[i] && After(ring, k) != After(ring, i + 1))
  {
    var ring1 := ring[..i + 1] + ring[i + 2..];
    assert j + 1 < |ring1| ==> ring1[j + 1] == if j + 1 <= i then ring[j + 1] else ring[j + 2];
  }

  lemma RemoveLink(next: map<Node, Node>, prev: map<Node, Node>, ring: seq<Node>, i: nat, j: nat)
    requires i + 1 < |ring| && NoDup(ring) && forall k: nat | k < |ring| :: Linked(next, prev, ring[k], After(ring, k))
    requires j < |ring| - 1
    ensures ring[i + 1] in next && ring[i + 1] in prev
    ensures var e, ring1 := ring[i + 1], ring[..i + 1] + ring[i + 2..];
      Linked(RemoveNext(next, prev, e), RemovePrev(next, prev, e), ring1[j], After(ring1, j))
  {
    hide Linked, RemoveNext, RemovePrev, NoDup;
    var e, n, k := ring[i + 1], After(ring, i + 1), if j <= i then j else j + 1;
    assert Linked(next, prev, ring[i], After(ring, i)) && Linked(next, prev, ring[k], After(ring, k));
    LinkEnds(next, prev, ring[i], e, n);
    RemoveOne(next, prev, ring[i], e, n, ring[k], After(ring, k));
    RingLinks(ring, i, j);
  }

  lemma {:induction false} NoDupWithout(ring: seq<Node>, i: nat)
    requires i < |ring| && NoDup(ring)
    ensures NoDup(ring[..i] + ring[i + 1..])
  {
  }

  lemma RemoveKeepsList(next: map<Node, Node>, prev: map<Node, Node>, head: Node, list: seq<Node>, i: nat)
    requires IsList(next, prev, head, list) && i < |list|
    ensures list[i] in next && list[i] in prev
    ensures IsList(RemoveNext(next, prev, list[i]), RemovePrev(next, prev, list[i]), head, Without(list, i))
  {
    hide NoDup, Linked, RemoveNext, RemovePrev;
    Neighbours(next, prev, head, list, i);
    var e := list[i];
    var next1, prev1 := RemoveNext(next, prev, e), RemovePrev(next, prev, e);
    var ring, ring1 := [head] + list, [head] + Without(list, i);
    assert ring1 == ring[..i + 1] + ring[i + 2..];
    NoDupWithout(ring, i + 1);
    forall j: nat | j < |ring1| ensures Linked(next1, prev1, ring1[j], After(ring1, j)) {
      RemoveLink(next, prev, ring, i, j);
    }
  }

  // LRU_Append
  function AppendNext(next: map<Node, Node>, prev: map<Node, Node>, head: Node, e: Node): map<Node, Node>
    requires head in prev
  {
    next[e := head][prev[head] := e]
  }

  function AppendPrev(prev: map<Node, Node>, head: Node, e: Node): map<Node, Node>
    requires head in prev
  {
    prev[e := prev[head]][head := e]
  }

  lemma AppendLink(next: map<Node, Node>, prev: map<Node, Node>, ring: seq<Node>, e: Node, j: nat)
    requires ring != [] && NoDup(ring) && (forall k: nat | k < |ring| :: Linked(next, prev, ring[k], After(ring, k)))
    requires e !in ring && j <= |ring|
    ensures ring[0] in prev
    ensures Linked(AppendNext(next, prev, ring[0], e), AppendPrev(prev, ring[0], e), (ring + [e])[j],
      After(ring + [e], j))
  {
    var last := |ring| - 1;
    assert Linked(next, prev, ring[last], After(ring, last));
    if j < last {
      assert Linked(next, prev, ring[j], After(ring, j));
      assert ring[j] != ring[last] && ring[j + 1] != ring[0] && ring[j] in ring && ring[j + 1] in ring;
    }
  }

  lemma AppendKeepsList(next: map<Node, Node>, prev: map<Node, Node>, head: Node, list: seq<Node>, e: Node)
    requires IsList(next, prev, head, list) && e != head && e !in list
    ensures head in prev
    ensures IsList(AppendNext(next, prev, head, e), AppendPrev(prev, head, e), head, list + [e])
  {
    hide Linked, AppendNext, AppendPrev;
    Ends(next, prev, head, list);
    var ring, ring1 := [head] + list, [head] + (list + [e]);
    assert ring1 == ring + [e];
    forall j: nat | j < |ring1|
      ensures Linked(AppendNext(next, prev, head, e), AppendPrev(prev, head, e), ring1[j], After(ring1, j))
    {
      AppendLink(next, prev, ring, e, j);
    }
  }

  // A list is not affected by fields of elements that are not in it.
  lemma ListFrame(next: map<Node, Node>, prev: map<Node, Node>, next1: map<Node, Node>, prev1: map<Node, Node>,
                  head: Node, list: seq<Node>)
    requires IsList(next, prev, head, list)
    requires forall x <- [head] + list ::
      (x in next ==> x in next1 && next1[x] == next[x]) && (x in prev ==> x in prev1 && prev1[x] == prev[x])
    ensures IsList(next1, prev1, head, list)
  {
    var ring := [head] + list;
    forall i: nat | i < |ring| ensures Linked(next1, prev1, ring[i], After(ring, i)) {
      assert Linked(next, prev, ring[i], After(ring, i));
      assert ring[i] in ring && After(ring, i) in ring;
    }
  }
}
