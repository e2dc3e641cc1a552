/** One shard of the LRU cache. */
module LRUCache {
  import opened Finite
  import opened HandleTable
  import opened IntrusiveList
  import opened CacheState

  // The dummy heads of the two lists.
  const LRU: Node := 0
  const IN_USE: Node := 1

  // ----- Two lists through the same fields -----

  ghost predicate Apart(lru: seq<Node>, inUse: seq<Node>) {
    && (forall x <- lru :: x >= 2 && x !in inUse)
    && (forall x <- inUse :: x >= 2 && x !in lru)
  }

  ghost predicate TwoLists(next: map<Node, Node>, prev: map<Node, Node>, lru: seq<Node>, inUse: seq<Node>) {
    IsList(next, prev, LRU, lru) && IsList(next, prev, IN_USE, inUse) && Apart(lru, inUse)
  }

  lemma RemoveBeside(next: map<Node, Node>, prev: map<Node, Node>, head: Node, list: seq<Node>, i: nat, other: Node,
                     others: seq<Node>)
    requires IsList(next, prev, head, list) && IsList(next, prev, other, others) && i < |list|
    requires forall x <- [head] + list :: x !in [other] + others
    ensures list[i] in next && list[i] in prev
    ensures IsList(RemoveNext(next, prev, list[i]), RemovePrev(next, prev, list[i]), other, others)
  {
    hide IsList;
    Neighbours(next, prev, head, list, i);
    var ring := [head] + list;
    assert ring[0] == head && ring[i] in ring;
    assert i + 1 < |list| ==> ring[i + 2] == list[i + 1];
    ListFrame(next, prev, RemoveNext(next, prev, list[i]), RemovePrev(next, prev, list[i]), other, others);
  }

  lemma AppendBeside(next: map<Node, Node>, prev: map<Node, Node>, head: Node, list: seq<Node>, e: Node, other: Node,
                     others: seq<Node>)
    requires IsList(next, prev, head, list) && IsList(next, prev, other, others)
    requires e !in [other] + others && forall x <- [head] + list :: x !in [other] + others
    ensures head in prev
    ensures IsList(AppendNext(next, prev, head, e), AppendPrev(prev, head, e), other, others)
  {
    hide IsList;
    Ends(next, prev, head, list);
    var ring := [head] + list;
    assert ring[0] == head && (list != [] ==> ring[|ring| - 1] == list[|list| - 1]);
    ListFrame(next, prev, AppendNext(next, prev, head, e), AppendPrev(prev, head, e), other, others);
  }

  lemma RingsApart(lru: seq<Node>, inUse: seq<Node>)
    requires Apart(lru, inUse)
    ensures forall x <- [LRU] + lru :: x !in [IN_USE] + inUse
    ensures forall x <- [IN_USE] + inUse :: x !in [LRU] + lru
  {
  }

  lemma RemoveFromLru(next: map<Node, Node>, prev: map<Node, Node>, lru: seq<Node>, inUse: seq<Node>, i: nat)
    requires TwoLists(next, prev, lru, inUse) && i < |lru|
    ensures lru[i] in next && lru[i] in prev
    ensures TwoLists(RemoveNext(next, prev, lru[i]), RemovePrev(next, prev, lru[i]), Without(lru, i), inUse)
  {
    hide IsList;
    RingsApart(lru, inUse);
    RemoveKeepsList(next, prev, LRU, lru, i);
    RemoveBeside(next, prev, LRU, lru, i, IN_USE, inUse);
    ListNoDup(next, prev, LRU, lru);
    WithoutMembers(lru, i);
  }

  lemma RemoveFromInUse(next: map<Node, Node>, prev: map<Node, Node>, lru: seq<Node>, inUse: seq<Node>, i: nat)
    requires TwoLists(next, prev, lru, inUse) && i < |inUse|
    ensures inUse[i] in next && inUse[i] in prev
    ensures TwoLists(RemoveNext(next, prev, inUse[i]), RemovePrev(next, prev, inUse[i]), lru, Without(inUse, i))
  {
    hide IsList;
    RingsApart(lru, inUse);
    RemoveKeepsList(next, prev, IN_USE, inUse, i);
    RemoveBeside(next, prev, IN_USE, inUse, i, LRU, lru);
    ListNoDup(next, prev, IN_USE, inUse);
    WithoutMembers(inUse, i);
  }

  lemma AppendToEither(next: map<Node, Node>, prev: map<Node, Node>, lru: seq<Node>, inUse: seq<Node>, e: Node)
    requires TwoLists(next, prev, lru, inUse) && e >= 2 && e !in lru && e !in inUse
    ensures LRU in prev && IN_USE in prev
    ensures TwoLists(AppendNext(next, prev, LRU, e), AppendPrev(prev, LRU, e), lru + [e], inUse)
    ensures TwoLists(AppendNext(next, prev, IN_USE, e), AppendPrev(prev, IN_USE, e), lru, inUse + [e])
  {
    hide IsList;
    RingsApart(lru, inUse);
    AppendKeepsList(next, prev, LRU, lru, e);
    AppendBeside(next, prev, LRU, lru, e, IN_USE, inUse);
    AppendKeepsList(next, prev, IN_USE, inUse, e);
    AppendBeside(next, prev, IN_USE, inUse, e, LRU, lru);
  }

  lemma ListNoDup(next: map<Node, Node>, prev: map<Node, Node>, head: Node, list: seq<Node>)
    requires IsList(next, prev, head, list)
    ensures NoDup(list)
  {
    var ring := [head] + list;
    forall i, j | 0 <= i < j < |list| ensures list[i] != list[j] { assert ring[i + 1] != ring[j + 1]; }
  }

  lemma IndexOf(list: seq<Node>, x: Node) returns (i: nat)
    requires x in list
    ensures i < |list| && list[i] == x
  {
    i :| i < |list| && list[i] == x;
  }

  // ----- The cache -----

  ghost predicate PointersOk<K(!new)>(table: HandleTable<K>, next: map<Node, Node>, prev: map<Node, Node>,
                                      lru: seq<Node>, inUse: seq<Node>, nextNode: Node)
    reads table
  {
    && table.Valid() && nextNode >= 2
    && TwoLists(next, prev, lru, inUse)
    && forall x <- table.keys :: x < nextNode
  }

  class LRUCache<K(==, !new), V> {
    const table: HandleTable<K>
    var capacity: nat
    var usage: int
    var next: map<Node, Node>
    var prev: map<Node, Node>
    var entries: map<Node, Entry<K, V>>
    var nextNode: Node
    ghost var lru: seq<Node>
    ghost var inUse: seq<Node>
    ghost var deletions: seq<Node>

    ghost function State(): Cache<K, V>
      reads this, table
    {
      Cache(entries, lru, inUse, table.index, usage, deletions, nextNode)
    }

    // The pointers agree with the lists and the table with the index.
    ghost predicate Linked()
      reads this, table
    {
      PointersOk(table, next, prev, lru, inUse, nextNode)
    }

    ghost predicate Valid()
      reads this, table
    {
      Linked() && Inv(State(), Null)
    }

    constructor (hash: K -> nat, capacity: nat)
      ensures Valid() && entries == map[] && table.index == map[] && deletions == [] && usage == 0
      ensures this.capacity == capacity && table.hash == hash && fresh(table)
    {
      table := new HandleTable<K>(hash);
      this.capacity, usage, entries, nextNode := capacity, 0, map[], 2;
      next, prev := map[LRU := LRU, IN_USE := IN_USE], map[LRU := LRU, IN_USE := IN_USE];
      lru, inUse, deletions := [], [], [];
      new;
      EmptyList(next, prev, LRU);
      EmptyList(next, prev, IN_USE);
    }

    // LRU_Remove and LRU_Append
    method ListRemove(e: Node)
      requires e in next && e in prev
      modifies this`next, this`prev
      ensures next == RemoveNext(old(next), old(prev), e) && prev == RemovePrev(old(next), old(prev), e)
    {
      var n, p := next[e], prev[e];
      prev := prev[n := p];
      next := next[p := n];
    }

    method ListAppend(head: Node, e: Node)
      requires head in prev
      modifies this`next, this`prev
      ensures next == AppendNext(old(next), old(prev), head, e) && prev == AppendPrev(old(prev), head, e)
    {
      var p := prev[head];
      next := next[e := head];
      prev := prev[e := p];
      next := next[p := e];
      prev := prev[head := e];
    }

    // An entry goes from one list to the end of the other.
    method MoveToInUse(x: Node, ghost i: nat)
      requires Linked() && i < |lru| && lru[i] == x && x >= 2
      modifies this`next, this`prev, this`lru, this`inUse
      ensures Linked() && lru == Without(old(lru), i) && inUse == old(inUse) + [x]
    {
      hide TableOk, TwoLists, RemoveNext, RemovePrev, AppendNext, AppendPrev, Without;
      RemoveFromLru(next, prev, lru, inUse, i);
      LeftBoth(next, prev, lru, inUse, i);
      ListRemove(x);
      lru := Without(lru, i);
      AppendToEither(next, prev, lru, inUse, x);
      ListAppend(IN_USE, x);
      inUse := inUse + [x];
    }

    method MoveToLru(x: Node, ghost i: nat)
      requires Linked() && i < |inUse| && inUse[i] == x && x >= 2
      modifies this`next, this`prev, this`lru, this`inUse
      ensures Linked() && lru == old(lru) + [x] && inUse == Without(old(inUse), i)
    {
      hide TableOk, TwoLists, RemoveNext, RemovePrev, AppendNext, AppendPrev, Without;
      RemoveFromInUse(next, prev, lru, inUse, i);
      LeftBoth(next, prev, lru, inUse, i);
      ListRemove(x);
      inUse := Without(inUse, i);
      AppendToEither(next, prev, lru, inUse, x);
      ListAppend(LRU, x);
      lru := lru + [x];
    }

    // One more client reference.
    method Ref(x: Node)
      requires Valid() && x in entries
      modifies this
      ensures Valid() && entries == old(entries)[x := old(entries)[x].(refs := old(entries)[x].refs + 1)]
      ensures usage == old(usage) && deletions == old(deletions) && nextNode == old(nextNode)
        && capacity == old(capacity)
      ensures lru == Dropped(old(lru), x)
    {
      hide PointersOk, Inv, Without, Dropped;
      ghost var c := State();
      var e := entries[x];
      EntryIsOk(c, x);
      DroppedIs(c, Null, x);
      if e.refs == 1 && e.inCache {
        ghost var i := IndexOf(lru, x);
        LruToInUse(c, x, i);
        MoveToInUse(x, i);
      } else {
        RefsStay(c, Null, x, e.refs + 1);
      }
      entries := entries[x := e.(refs := e.refs + 1)];
    }

    // One client reference less; the last reference of all runs the deleter and frees the entry.
    method Unref(x: Node)
      requires Valid() && x in entries && (entries[x].inCache ==> entries[x].refs >= 2)
      modifies this
      ensures Valid() && usage == old(usage) && nextNode == old(nextNode) && capacity == old(capacity)
      ensures old(entries)[x].refs == 1 ==> entries == old(entries) - {x} && deletions == old(deletions) + [x]
      ensures old(entries)[x].refs > 1 ==>
        entries == old(entries)[x := old(entries)[x].(refs := old(entries)[x].refs - 1)] && deletions == old(deletions)
      ensures !old(entries)[x].inCache ==> inUse == old(inUse)
      ensures lru == old(lru) + (if old(entries)[x].inCache && old(entries)[x].refs == 2 then [x] else [])
    {
      hide PointersOk, Inv, Without;
      ghost var c := State();
      var e := entries[x];
      EntryIsOk(c, x);
      if e.refs == 1 {
        DeleteEntry(c, x);
        deletions := deletions + [x];
        entries := entries - {x};
      } else {
        entries := entries[x := e.(refs := e.refs - 1)];
        if e.inCache && e.refs == 2 {
          ghost var i := IndexOf(inUse, x);
          InUseToLru(c, x, i);
          MoveToLru(x, i);
        } else {
          RefsStay(c, Null, x, e.refs - 1);
        }
      }
    }

    // Takes an entry off its list.
    method Unlink(x: Node, ghost i: nat, ghost idle: bool)
      requires Linked() && (if idle then i < |lru| && lru[i] == x else i < |inUse| && inUse[i] == x)
      modifies this`next, this`prev, this`lru, this`inUse
      ensures Linked()
      ensures lru == (if idle then Without(old(lru), i) else old(lru))
        && inUse == (if idle then old(inUse) else Without(old(inUse), i))
    {
      hide TableOk, TwoLists, RemoveNext, RemovePrev, Without;
      if idle { RemoveFromLru(next, prev, lru, inUse, i); } else { RemoveFromInUse(next, prev, lru, inUse, i); }
      ListRemove(x);
      lru, inUse := if idle then Without(lru, i) else lru, if idle then inUse else Without(inUse, i);
    }

    // Finishes removing an entry that is out of the table already: off its list, out of the charge,
    // and without the cache's reference.
    method FinishErase(p: Ptr) returns (erased: bool)
      requires Linked() && Inv(State(), p)
      modifies this
      ensures Valid() && erased == (p != Null) && capacity == old(capacity)
      ensures p == Null ==> State() == old(State())
      ensures p != Null ==> p.node in old(entries) && State() == Erased(old(State()), p.node)
    {
      hide PointersOk, Inv, Without, Dropped;
      if p != Null {
        ghost var c := State();
        OutIsOk(c, p);
        var x := p.node;
        var e := entries[x];
        ghost var idle := e.refs == 1;
        ghost var i := IndexOf(if idle then lru else inUse, x);
        DroppedIs(c, p, x);
        Unlink(x, i, idle);
        LeaveLists(c, x, lru, inUse, i);
        entries := entries[x := e.(inCache := false)];
        usage := usage - e.charge;
        Unref(x);
        assert c.entries[x := e.(inCache := false)] - {x} == c.entries - {x};
      }
      erased := p != Null;
    }

    // An entry for the client, if the key is there.
    method Lookup(k: K, h: nat) returns (e: Ptr)
      requires Valid() && h == table.hash(k)
      modifies this
      ensures Valid() && usage == old(usage) && deletions == old(deletions)
      ensures e == if k in table.index then To(table.index[k]) else Null
      ensures e != Null ==> e.node in old(entries) && old(entries)[e.node].key == k
      ensures e != Null ==>
        entries == old(entries)[e.node := old(entries)[e.node].(refs := old(entries)[e.node].refs + 1)]
      ensures e == Null ==> entries == old(entries)
      ensures lru == if e != Null then Dropped(old(lru), e.node) else old(lru)
    {
      hide TableOk, TwoLists, Inv;
      if k in table.index { IndexedIsEntry(State(), k); }
      e := table.Lookup(k, h);
      if e != Null {
        Ref(e.node);
      }
    }

    // The client gives a handle back: it has one, so the entry has a reference besides the cache's.
    method Release(x: Node)
      requires Valid() && x in entries && (entries[x].inCache ==> entries[x].refs >= 2)
      modifies this
      ensures Valid() && usage == old(usage)
      ensures old(entries)[x].refs == 1 ==> entries == old(entries) - {x} && deletions == old(deletions) + [x]
      ensures old(entries)[x].refs > 1 ==>
        entries == old(entries)[x := old(entries)[x].(refs := old(entries)[x].refs - 1)] && deletions == old(deletions)
      ensures lru == old(lru) + (if old(entries)[x].inCache && old(entries)[x].refs == 2 then [x] else [])
    {
      Unref(x);
    }

    method TableRemove(k: K, h: nat) returns (p: Ptr)
      requires Linked() && h == table.hash(k)
      modifies table
      ensures Linked() && table.index == old(table.index) - {k}
      ensures p == if k in old(table.index) then To(old(table.index)[k]) else Null
    {
      hide TableOk, TwoLists;
      p := table.Remove(k, h);
    }

    // The entry for a key leaves the cache; clients that hold it keep it.
    method Erase(k: K, h: nat)
      requires Valid() && h == table.hash(k)
      modifies this, table
      ensures Valid() && table.index == old(table.index) - {k}
      ensures k !in old(table.index) ==> State() == old(State())
      ensures k in old(table.index) ==>
        old(table.index)[k] in old(entries)
          && State() == Erased(old(State()).(index := old(table.index) - {k}), old(table.index)[k])
      ensures SameClients(old(entries), entries)
    {
      hide PointersOk, Inv, Dropped, SameClients;
      ghost var c := State();
      if k in table.index { LeaveTable(c, k); IndexedIsEntry(c, k); } else { assert table.index - {k} == table.index; }
      EraseKeepsClients(c, k);
      var p := TableRemove(k, h);
      assert State() == c.(index := c.index - {k});
      var erased := FinishErase(p);
    }

    // The oldest entry nobody uses leaves the cache, and is deleted.
    method EvictOldest()
      requires Valid() && lru != []
      modifies this, table
      ensures Valid() && capacity == old(capacity)
      ensures old(lru)[0] in old(entries)
      ensures State() == Evicted(old(State()), 1)
    {
      hide PointersOk, Inv, NoDup;
      ghost var c := State();
      HeadOfLru();
      var x := next[LRU];
      OldestIsIdle(c, x);
      LeaveTable(c, entries[x].key);
      var p := TableRemove(entries[x].key, table.hash(entries[x].key));
      assert State() == c.(index := c.index - {c.entries[x].key});
      var erased := FinishErase(p);
      EvictOne(c);
    }

    // The loop at the end of Insert, and with a limit of -1 that of Prune: from the oldest on, entries
    // nobody uses leave the cache as long as the charge is above the limit.
    method Evict(limit: int) returns (ghost n: nat)
      requires Valid()
      modifies this, table
      ensures Valid() && capacity == old(capacity)
      ensures JustEnough(old(State()), n, limit) && State() == Evicted(old(State()), n)
    {
      hide PointersOk, Inv, Charge, Evicted, NoDup;
      n := 0;
      ghost var c := State();
      EvictNone(c);
      HeadOfLru();
      while usage > limit && next[LRU] != LRU
        invariant Valid() && capacity == old(capacity)
        invariant LRU in next && (next[LRU] == LRU <==> lru == [])
        invariant n <= |c.lru| && State() == Evicted(c, n)
        invariant forall j | 0 <= j < n :: c.usage - Charge(c.entries, c.lru[..j]) > limit
        decreases |c.lru| - n
      {
        EvictNext(c, n);
        EvictOldest();
        n := n + 1;
        HeadOfLru();
      }
      EvictedIs(c, n);
    }

    // A new entry at the end of the in-use list.
    method LinkNew(x: Node)
      requires Linked() && x == nextNode && x !in lru && x !in inUse
      modifies this`next, this`prev, this`inUse, this`nextNode
      ensures Linked() && inUse == old(inUse) + [x] && nextNode == x + 1
    {
      hide TableOk, TwoLists;
      AppendToEither(next, prev, lru, inUse, x);
      ListAppend(IN_USE, x);
      inUse := inUse + [x];
      nextNode := nextNode + 1;
    }

    // Puts a new entry in the table and in the in-use list ...
    method Admit(k: K, h: nat, v: V, charge: nat) returns (x: Node, p: Ptr)
      requires Valid() && h == table.hash(k)
      modifies this, table
      ensures Linked() && x == old(nextNode) && capacity == old(capacity)
      ensures p == Replaced(old(State()), k)
      ensures State() == Admitted(old(State()), Entry(k, v, charge, 2, true))
    {
      hide PointersOk, Inv;
      ghost var c := State();
      x := nextNode;
      var e := Entry(k, v, charge, 2, true);
      NewInTable(table, next, prev, lru, inUse, nextNode);
      FreshNode(c, e);
      NotListed(c);
      LinkNew(x);
      entries := entries[x := e];
      usage := usage + charge;
      p := TableInsert(x, k, h);
    }

    // ... and the entry it replaces leaves the cache.
    method AddEntry(k: K, h: nat, v: V, charge: nat) returns (x: Node)
      requires Valid() && h == table.hash(k)
      modifies this, table
      ensures Valid() && x == old(nextNode) && capacity == old(capacity)
      ensures k in old(table.index) ==> old(table.index)[k] in old(entries)
      ensures State() == Added(old(State()), Entry(k, v, charge, 2, true))
    {
      hide PointersOk, Inv, Erased, Admitted;
      ghost var c := State();
      NewInTable(table, next, prev, lru, inUse, nextNode);
      NewCached(c, Entry(k, v, charge, 2, true));
      if k in table.index { IndexedIsEntry(c, k); }
      var p;
      x, p := Admit(k, h, v, charge);
      var erased := FinishErase(p);
    }

    method TableInsert(x: Node, k: K, h: nat) returns (p: Ptr)
      requires Linked() && h == table.hash(k) && x + 1 == nextNode && x !in table.keys
      modifies table
      ensures Linked() && table.index == old(table.index)[k := x]
      ensures p == if k in old(table.index) then To(old(table.index)[k]) else Null
    {
      hide TableOk, TwoLists;
      p := table.Insert(x, k, h);
    }

    // Insert: a handle for the client.  With a capacity of 0 the entry is not cached.
    method Insert(k: K, h: nat, v: V, charge: nat) returns (x: Node, ghost n: nat)
      requires Valid() && h == table.hash(k)
      modifies this, table
      ensures Valid() && x == old(nextNode) && capacity == old(capacity)
      ensures InsertedAndEvicted(old(State()), State(), capacity, k, v, charge, n)
      ensures usage <= capacity || lru == []
      ensures x in entries && entries[x] == Entry(k, v, charge, if capacity > 0 then 2 else 1, capacity > 0)
      ensures capacity > 0 ==> k in table.index && table.index[k] == x
      ensures SameClients(old(entries), entries)
    {
      hide PointersOk, Inv, Charge, Added, Evicted, SameClients, JustEnough;
      ghost var c := State();
      if k in table.index { IndexedIsEntry(c, k); }
      if capacity > 0 {
        x := AddEntry(k, h, v, charge);
        AddedFields(c, Entry(k, v, charge, 2, true));
      } else {
        x := nextNode;
        AddUncached(Entry(k, v, charge, 1, false));
      }
      ghost var c1 := State();
      assert c1 == Inserted(c, capacity, k, v, charge);
      n := Evict(capacity);
      EvictedFits(c1, n, capacity);
      EvictKeepsClients(c1, n);
      EvictKeepsHeld(c1, n, x);
      ClientsTransitive(c.entries, c1.entries, entries);
    }

    // An entry that is not cached.
    method AddUncached(e: Entry<K, V>)
      requires Valid() && e.refs == 1 && !e.inCache
      modifies this
      ensures Valid() && capacity == old(capacity)
      ensures State() == old(State()).(entries := old(entries)[old(nextNode) := e], nextNode := old(nextNode) + 1)
      ensures SameClients(old(entries), entries)
    {
      hide TableOk, Inv, TwoLists, Charge;
      NewUncached(State(), e);
      FreshNode(State(), e);
      entries, nextNode := entries[nextNode := e], nextNode + 1;
    }

    method Prune()
      requires Valid()
      modifies this, table
      ensures Valid() && State() == Evicted(old(State()), |old(lru)|) && lru == []
      ensures SameClients(old(entries), entries)
    {
      hide PointersOk, Inv, Charge, Evicted, SameClients;
      ghost var c := State();
      var n := Evict(-1);
      UsageIsNat(State());
      EvictedFits(c, n, -1);
      EvictKeepsClients(c, n);
    }

    // What the code can see of the LRU list being empty.
    lemma HeadOfLru()
      requires Valid()
      ensures LRU in next && (next[LRU] == LRU <==> lru == [])
      ensures lru != [] ==> next[LRU] == lru[0]
      ensures NoDup(lru)
    {
      hide TableOk, Inv;
      Ends(next, prev, LRU, lru);
      ListNoDup(next, prev, LRU, lru);
      if lru != [] { assert lru[0] in lru; }
    }
  }

  lemma LeftBoth(next: map<Node, Node>, prev: map<Node, Node>, lru: seq<Node>, inUse: seq<Node>, i: nat)
    requires TwoLists(next, prev, lru, inUse)
    ensures i < |lru| ==> lru[i] !in Without(lru, i) && lru[i] !in inUse
    ensures i < |inUse| ==> inUse[i] !in Without(inUse, i) && inUse[i] !in lru
  {
    hide IsList;
    ListNoDup(next, prev, LRU, lru);
    ListNoDup(next, prev, IN_USE, inUse);
    if i < |lru| { WithoutMembers(lru, i); }
    if i < |inUse| { WithoutMembers(inUse, i); }
  }

  lemma EntryIsOk<K(!new), V>(c: Cache<K, V>, x: Node)
    requires Inv(c, Null) && x in c.entries
    ensures EntryOk(c, Null, x)
  {
  }

  lemma OutIsOk<K(!new), V>(c: Cache<K, V>, p: Ptr)
    requires Inv(c, p) && p != Null
    ensures p.node in c.entries && EntryOk(c, p, p.node)
  {
  }

  lemma OldestIsIdle<K(!new), V>(c: Cache<K, V>, x: Node)
    requires Inv(c, Null) && c.lru != [] && c.lru[0] == x
    ensures x in c.entries && c.entries[x].refs == 1 && c.entries[x].key in c.index && c.index[c.entries[x].key] == x
  {
    assert x in c.lru;
    assert EntryOk(c, Null, x);
  }

  lemma DroppedIs<K(!new), V>(c: Cache<K, V>, out: Ptr, x: Node)
    requires Inv(c, out)
    ensures x !in c.lru ==> Dropped(c.lru, x) == c.lru
    ensures forall i: nat | i < |c.lru| && c.lru[i] == x :: Dropped(c.lru, x) == Without(c.lru, i)
    ensures forall i: nat | i < |c.inUse| && c.inUse[i] == x :: Dropped(c.inUse, x) == Without(c.inUse, i)
  {
    DroppedAt(c.lru, x);
    DroppedAt(c.inUse, x);
  }

  // The references that clients hold.
  function ClientRefs<K, V>(e: Entry<K, V>): int {
    e.refs - (if e.inCache then 1 else 0)
  }

  // Handles that clients hold stay valid: same key and value, same references.
  ghost predicate SameClients<K, V>(before: map<Node, Entry<K, V>>, after: map<Node, Entry<K, V>>) {
    forall y <- before | ClientRefs(before[y]) > 0 ::
      && y in after && ClientRefs(after[y]) == ClientRefs(before[y])
      && after[y].key == before[y].key && after[y].value == before[y].value
  }

  lemma EvictKeepsClients<K(!new), V>(c: Cache<K, V>, n: nat)
    requires Inv(c, Null) && n <= |c.lru|
    ensures SameClients(c.entries, Evicted(c, n).entries)
  {
    hide Charge;
    forall y <- c.entries | ClientRefs(c.entries[y]) > 0 ensures y !in c.lru[..n] {
      assert EntryOk(c, Null, y);
    }
  }

  // An entry that a client holds is not evicted, and keeps its place in the index.
  lemma EvictKeepsHeld<K(!new), V>(c: Cache<K, V>, n: nat, x: Node)
    requires Inv(c, Null) && n <= |c.lru| && x in c.entries && ClientRefs(c.entries[x]) > 0
    ensures var c1 := Evicted(c, n);
      && x in c1.entries && c1.entries[x] == c.entries[x]
      && (c.entries[x].inCache ==> c.entries[x].key in c1.index && c1.index[c.entries[x].key] == x)
  {
    hide Charge;
    assert EntryOk(c, Null, x);
    assert x !in c.lru[..n];
  }

  lemma ClientsTransitive<K, V>(a: map<Node, Entry<K, V>>, b: map<Node, Entry<K, V>>, c: map<Node, Entry<K, V>>)
    requires SameClients(a, b) && SameClients(b, c)
    ensures SameClients(a, c)
  {
  }

  lemma EraseKeepsClients<K(!new), V>(c: Cache<K, V>, k: K)
    requires Inv(c, Null)
    ensures SameClients(c.entries, c.entries)
    ensures k in c.index ==> c.index[k] in c.entries
    ensures k in c.index ==> SameClients(c.entries, Erased(c.(index := c.index - {k}), c.index[k]).entries)
  {
    hide Charge, NoDup, Dropped;
    if k in c.index { assert EntryOk(c, Null, c.index[k]); }
  }

  lemma AddedFields<K(!new), V>(c: Cache<K, V>, e: Entry<K, V>)
    requires Inv(c, Null) && e.refs == 2 && e.inCache
    ensures e.key in c.index ==> c.index[e.key] in c.entries
    ensures var c1 := Added(c, e);
      && SameClients(c.entries, c1.entries)
      && c.nextNode in c1.entries && c1.entries[c.nextNode] == e
  {
    hide Inv, Dropped;
    FreshNode(c, e);
    if e.key in c.index { IndexedIsEntry(c, e.key); }
  }

  lemma EvictedFits<K(!new), V>(c: Cache<K, V>, n: nat, limit: int)
    requires JustEnough(c, n, limit)
    ensures n <= |c.lru| && (Evicted(c, n).usage <= limit || (n == |c.lru| && Evicted(c, n).lru == []))
  {
    hide Charge;
  }

  // Evicting the oldest entry is what erasing it does.
  lemma EvictOne<K(!new), V>(c: Cache<K, V>)
    requires Inv(c, Null) && c.lru != [] && c.lru[0] in c.entries && c.entries[c.lru[0]].refs == 1
    ensures Erased(c.(index := c.index - {c.entries[c.lru[0]].key}), c.lru[0]) == Evicted(c, 1)
  {
    hide Charge, Inv;
    var x := c.lru[0];
    OldestIsIdle(c, x);
    assert c.lru[..1] == [] + [x];
    ChargeAppend(c.entries, [], x);
    NothingGone(c);
    forall k <- c.index ensures c.index[k] == x <==> k == c.entries[x].key { IndexedIsEntry(c, k); }
    assert c.index - {c.entries[x].key} == Keep(c.index, c.lru[..1]);
    assert c.entries - {x} == Entries(c.entries, c.lru[..1]);
  }

  lemma EvictedIs<K(!new), V>(c: Cache<K, V>, n: nat)
    requires n <= |c.lru|
    ensures Evicted(c, n).usage == c.usage - Charge(c.entries, c.lru[..n])
    ensures Evicted(c, n).lru == [] <==> n == |c.lru|
  {
    hide Charge;
  }

  lemma EvictNone<K(!new), V>(c: Cache<K, V>)
    ensures Evicted(c, 0) == c
  {
    NothingGone(c);
    assert c.lru[..0] == [] && c.lru[0..] == c.lru;
  }

  // One more eviction.
  lemma EvictNext<K(!new), V>(c: Cache<K, V>, n: nat)
    requires n <= |c.lru| && Inv(Evicted(c, n), Null) && Evicted(c, n).lru != []
    ensures n < |c.lru| && Evicted(Evicted(c, n), 1) == Evicted(c, n + 1)
    ensures Evicted(c, n).usage == c.usage - Charge(c.entries, c.lru[..n])
  {
    hide Inv;
    var c1 := Evicted(c, n);
    GoneNext(c, c1, n);
    NothingGone(c1);
    var x := c.lru[n];
    assert c1.lru[..1] == [] + [x] && c1.lru[1..] == c.lru[n + 1..];
    ChargeAppend(c1.entries, [], x);
    assert Entries(c1.entries, c1.lru[..1]) == Entries(c.entries, c.lru[..n + 1]);
    assert Keep(c1.index, c1.lru[..1]) == Keep(c.index, c.lru[..n + 1]);
  }

  lemma IndexedIsEntry<K(!new), V>(c: Cache<K, V>, k: K)
    requires Inv(c, Null) && k in c.index
    ensures c.index[k] in c.entries && c.entries[c.index[k]].key == k && c.entries[c.index[k]].inCache
  {
    assert EntryOk(c, Null, c.index[k]);
  }

  lemma NothingGone<K(!new), V>(c: Cache<K, V>)
    ensures Entries(c.entries, []) == c.entries && Keep(c.index, []) == c.index && Charge(c.entries, []) == 0
  {
  }

  // The next entry to go is the oldest of those left.
  lemma GoneNext<K(!new), V>(c: Cache<K, V>, c1: Cache<K, V>, n: nat)
    requires Inv(c1, Null) && n < |c.lru| && c1.lru == c.lru[n..]
    requires c1.entries == Entries(c.entries, c.lru[..n]) && c1.index == Keep(c.index, c.lru[..n])
    ensures var x := c.lru[n];
      && x in c1.entries && x in c.entries && c1.entries[x] == c.entries[x]
      && c.lru[..n + 1] == c.lru[..n] + [x]
      && c1.entries - {x} == Entries(c.entries, c.lru[..n + 1])
      && c1.index - {c1.entries[x].key} == Keep(c.index, c.lru[..n + 1])
      && Charge(c.entries, c.lru[..n + 1]) == Charge(c.entries, c.lru[..n]) + c.entries[x].charge
  {
    hide Charge, Inv;
    var x := c.lru[n];
    OldestIsIdle(c1, x);
    assert c.lru[..n + 1] == c.lru[..n] + [x];
    ChargeAppend(c.entries, c.lru[..n], x);
    forall k <- c1.index ensures c1.index[k] == x <==> k == c1.entries[x].key { IndexedIsEntry(c1, k); }
  }

  lemma NotListed<K(!new), V>(c: Cache<K, V>)
    requires Inv(c, Null)
    ensures c.nextNode !in c.lru && c.nextNode !in c.inUse
  {
    forall y <- c.entries ensures y < c.nextNode { assert EntryOk(c, Null, y); }
  }

  lemma UsageIsNat<K(!new), V>(c: Cache<K, V>)
    requires Inv(c, Null)
    ensures c.usage >= 0
  {
  }

  lemma NewInTable<K(!new)>(table: HandleTable<K>, next: map<Node, Node>, prev: map<Node, Node>,
                            lru: seq<Node>, inUse: seq<Node>, nextNode: Node)
    requires PointersOk(table, next, prev, lru, inUse, nextNode)
    ensures nextNode !in table.keys && nextNode >= 2
  {
    hide TwoLists;
  }

  // Every entry that ever was is either still there or its deleter has run exactly once.
  lemma DeletedOnce<K(!new), V>(c: Cache<K, V>, x: Node)
    requires Inv(c, Null) && 2 <= x < c.nextNode
    ensures multiset(c.deletions)[x] == if x in c.entries then 0 else 1
  {
    if x in c.deletions {
      var i :| 0 <= i < |c.deletions| && c.deletions[i] == x;
      OnlyOnce(c.deletions, i);
    }
  }

  lemma {:induction false} OnlyOnce(s: seq<Node>, i: nat)
    requires NoDup(s) && i < |s|
    ensures multiset(s)[s[i]] == 1
  {
    var rest := s[..i] + s[i + 1..];
    assert s == s[..i] + [s[i]] + s[i + 1..];
    assert multiset(s) == multiset(s[..i]) + multiset{s[i]} + multiset(s[i + 1..]);
    assert s[i] !in s[..i] && s[i] !in s[i + 1..];
  }
}
