/**
 What an LRU cache holds, and the invariant that ties references, lists, table and charge together.
 Entries are named by numbers from 2 on; 0 and 1 are the heads of the two lists.
*/
module CacheState {
  import opened Finite
  import opened HandleTable
  import opened IntrusiveList

  // refs counts the references of clients and, if the entry is in the cache, the cache's own.
  datatype Entry<K, V> = Entry(key: K, value: V, charge: nat, refs: nat, inCache: bool)

  // `lru` and `inUse` are the two lists, `index` is what the table finds, and `deletions` the entries
  // whose deleter has run.
  datatype Cache<K, V> = Cache(
    entries: map<Node, Entry<K, V>>,
    lru: seq<Node>,
    inUse: seq<Node>,
    index: map<K, Node>,
    usage: int,
    deletions: seq<Node>,
    nextNode: Node)

  function Charge<K, V>(entries: map<Node, Entry<K, V>>, list: seq<Node>): nat {
    if list == [] then 0
    else (if list[0] in entries then entries[list[0]].charge else 0) + Charge(entries, list[1..])
  }

  // `out` is an entry that has just been taken out of the table and is still in a list.
  ghost predicate EntryOk<K, V>(c: Cache<K, V>, out: Ptr, x: Node)
    requires x in c.entries
  {
    var e := c.entries[x];
    && 2 <= x < c.nextNode && e.refs >= 1
    && (x in c.lru <==> e.inCache && e.refs == 1)
    && (x in c.inUse <==> e.inCache && e.refs >= 2)
    && (out == To(x) ==> e.inCache)
    && ((e.key in c.index && c.index[e.key] == x) <==> (e.inCache && out != To(x)))
  }

  // An entry that is gone has been deleted, and none is deleted twice.
  ghost predicate DeletionsOk<K, V>(c: Cache<K, V>) {
    && NoDup(c.deletions)
    && (forall d <- c.deletions :: d !in c.entries && d < c.nextNode)
    && (forall x | 2 <= x < c.nextNode :: x in c.entries || x in c.deletions)
  }

  ghost predicate ListsOk<K, V>(c: Cache<K, V>) {
    && NoDup(c.lru) && NoDup(c.inUse)
    && (forall x <- c.lru :: x in c.entries)
    && (forall x <- c.inUse :: x in c.entries)
  }

  ghost predicate Inv<K(!new), V>(c: Cache<K, V>, out: Ptr) {
    && (forall x <- c.entries :: EntryOk(c, out, x))
    && (forall k <- c.index :: c.index[k] in c.entries && c.entries[c.index[k]].key == k)
    && ListsOk(c) && DeletionsOk(c)
    && (out != Null ==> out.node in c.entries)
    && c.usage == Charge(c.entries, c.lru) + Charge(c.entries, c.inUse)
  }

  // ----- Charges -----

  lemma {:induction false} ChargeSame<K, V>(entries: map<Node, Entry<K, V>>, entries1: map<Node, Entry<K, V>>,
                                            list: seq<Node>)
    requires forall x <- list :: x in entries && x in entries1 && entries1[x].charge == entries[x].charge
    ensures Charge(entries1, list) == Charge(entries, list)
  {
    if list != [] { ChargeSame(entries, entries1, list[1..]); }
  }

  lemma {:induction false} ChargeAppend<K, V>(entries: map<Node, Entry<K, V>>, list: seq<Node>, x: Node)
    requires x in entries
    ensures Charge(entries, list + [x]) == Charge(entries, list) + entries[x].charge
  {
    if list != [] {
      ChargeAppend(entries, list[1..], x);
      assert (list + [x])[1..] == list[1..] + [x];
    } else {
      assert (list + [x])[1..] == [];
    }
  }

  lemma {:induction false} ChargeWithout<K, V>(entries: map<Node, Entry<K, V>>, list: seq<Node>, i: nat)
    requires i < |list| && list[i] in entries
    ensures Charge(entries, Without(list, i)) == Charge(entries, list) - entries[list[i]].charge
  {
    if i == 0 {
      assert Without(list, 0) == list[1..];
    } else {
      ChargeWithout(entries, list[1..], i - 1);
      assert Without(list, i)[1..] == Without(list[1..], i - 1);
      assert Without(list, i)[0] == list[0];
    }
  }

  lemma WithoutMembers(list: seq<Node>, i: nat)
    requires i < |list| && NoDup(list)
    ensures NoDup(Without(list, i))
    ensures forall x: Node :: x in Without(list, i) <==> x in list && x != list[i]
  {
    var r := Without(list, i);
    NoDupWithout(list, i);
    forall x: Node ensures x in r <==> x in list && x != list[i] {
      if x in list && x != list[i] {
        var j :| 0 <= j < |list| && list[j] == x;
        assert r[if j < i then j else j - 1] == x;
      }
      if x in r {
        var j :| 0 <= j < |r| && r[j] == x;
        assert list[if j < i then j else j + 1] == x;
      }
    }
  }

  lemma AppendMembers(list: seq<Node>, x: Node)
    requires NoDup(list) && x !in list
    ensures NoDup(list + [x])
    ensures forall y: Node :: y in list + [x] <==> y in list || y == x
  {
  }

  // ----- References -----

  // One more or one fewer reference that moves the entry to no other list.
  lemma RefsStay<K(!new), V>(c: Cache<K, V>, out: Ptr, x: Node, refs: nat)
    requires Inv(c, out) && x in c.entries && refs >= 1
    requires c.entries[x].inCache ==> (refs == 1 <==> c.entries[x].refs == 1)
    ensures Inv(c.(entries := c.entries[x := c.entries[x].(refs := refs)]), out)
  {
    hide Charge, NoDup;
    var entries1 := c.entries[x := c.entries[x].(refs := refs)];
    ChargeSame(c.entries, entries1, c.lru);
    ChargeSame(c.entries, entries1, c.inUse);
    forall y <- entries1 ensures EntryOk(c.(entries := entries1), out, y) {
      assert EntryOk(c, out, y);
    }
  }

  // The first client reference takes an entry out of the LRU list ...
  lemma LruToInUse<K(!new), V>(c: Cache<K, V>, x: Node, i: nat)
    requires Inv(c, Null) && i < |c.lru| && c.lru[i] == x && x in c.entries
    ensures Inv(c.(entries := c.entries[x := c.entries[x].(refs := 2)], lru := Without(c.lru, i),
      inUse := c.inUse + [x]), Null)
  {
    hide Charge, NoDup;
    assert EntryOk(c, Null, x);
    var entries1, lru1, inUse1 := c.entries[x := c.entries[x].(refs := 2)], Without(c.lru, i), c.inUse + [x];
    WithoutMembers(c.lru, i);
    AppendMembers(c.inUse, x);
    ChargeWithout(c.entries, c.lru, i);
    ChargeAppend(c.entries, c.inUse, x);
    ChargeSame(c.entries, entries1, lru1);
    ChargeSame(c.entries, entries1, inUse1);
    forall y <- entries1 ensures EntryOk(c.(entries := entries1, lru := lru1, inUse := inUse1), Null, y) {
      assert EntryOk(c, Null, y);
    }
  }

  // ... and the last one puts it back, as the newest.
  lemma InUseToLru<K(!new), V>(c: Cache<K, V>, x: Node, i: nat)
    requires Inv(c, Null) && i < |c.inUse| && c.inUse[i] == x && x in c.entries && c.entries[x].refs == 2
    ensures Inv(c.(entries := c.entries[x := c.entries[x].(refs := 1)], lru := c.lru + [x],
      inUse := Without(c.inUse, i)), Null)
  {
    hide Charge, NoDup;
    assert EntryOk(c, Null, x);
    var entries1, lru1, inUse1 := c.entries[x := c.entries[x].(refs := 1)], c.lru + [x], Without(c.inUse, i);
    WithoutMembers(c.inUse, i);
    AppendMembers(c.lru, x);
    ChargeWithout(c.entries, c.inUse, i);
    ChargeAppend(c.entries, c.lru, x);
    ChargeSame(c.entries, entries1, lru1);
    ChargeSame(c.entries, entries1, inUse1);
    forall y <- entries1 ensures EntryOk(c.(entries := entries1, lru := lru1, inUse := inUse1), Null, y) {
      assert EntryOk(c, Null, y);
    }
  }

  // The last reference of all: the deleter runs and the entry is freed.
  lemma DeleteEntry<K(!new), V>(c: Cache<K, V>, x: Node)
    requires Inv(c, Null) && x in c.entries && c.entries[x].refs == 1 && !c.entries[x].inCache
    ensures Inv(c.(entries := c.entries - {x}, deletions := c.deletions + [x]), Null)
  {
    hide Charge, NoDup;
    assert EntryOk(c, Null, x);
    var entries1, deletions1 := c.entries - {x}, c.deletions + [x];
    AppendMembers(c.deletions, x);
    ChargeSame(c.entries, entries1, c.lru);
    ChargeSame(c.entries, entries1, c.inUse);
    forall y <- entries1 ensures EntryOk(c.(entries := entries1, deletions := deletions1), Null, y) {
      assert EntryOk(c, Null, y);
    }
  }

  // ----- Entries that enter and leave the cache -----

  // An entry leaves the table.
  lemma LeaveTable<K(!new), V>(c: Cache<K, V>, k: K)
    requires Inv(c, Null) && k in c.index
    ensures Inv(c.(index := c.index - {k}), To(c.index[k]))
  {
    hide Charge, NoDup;
    var x := c.index[k];
    forall y <- c.entries ensures EntryOk(c.(index := c.index - {k}), To(x), y) {
      assert EntryOk(c, Null, y) && EntryOk(c, Null, x);
    }
  }

  // The list that an entry is in, without it.
  lemma LeaveOne<K, V>(entries: map<Node, Entry<K, V>>, list: seq<Node>, x: Node, i: nat)
    requires NoDup(list) && i < |list| && list[i] == x && x in entries && forall y <- list :: y in entries
    ensures var rest, entries1 := Without(list, i), entries[x := entries[x].(inCache := false)];
      && NoDup(rest)
      && (forall y: Node :: y in rest <==> y in list && y != x)
      && Charge(entries1, rest) == Charge(entries, list) - entries[x].charge
  {
    hide Charge, NoDup, Without;
    WithoutMembers(list, i);
    ChargeWithout(entries, list, i);
    ChargeSame(entries, entries[x := entries[x].(inCache := false)], Without(list, i));
  }

  // FinishErase: it leaves its list, the charge goes down, and the cache's flag with it.
  lemma LeaveLists<K(!new), V>(c: Cache<K, V>, x: Node, lru: seq<Node>, inUse: seq<Node>, i: nat)
    requires Inv(c, To(x)) && x in c.entries
    requires if c.entries[x].refs == 1
      then i < |c.lru| && c.lru[i] == x && lru == Without(c.lru, i) && inUse == c.inUse
      else i < |c.inUse| && c.inUse[i] == x && lru == c.lru && inUse == Without(c.inUse, i)
    ensures Inv(c.(entries := c.entries[x := c.entries[x].(inCache := false)], lru := lru, inUse := inUse,
                   usage := c.usage - c.entries[x].charge), Null)
  {
    hide Charge, NoDup, Without, EntryOk, ListsOk;
    var entries1 := c.entries[x := c.entries[x].(inCache := false)];
    var c1 := c.(entries := entries1, lru := lru, inUse := inUse, usage := c.usage - c.entries[x].charge);
    assert EntryOk(c, To(x), x);
    LeftLists(c, c1, x, i);
    forall y <- entries1 ensures EntryOk(c1, Null, y) {
      assert EntryOk(c, To(x), y);
      LeftEntryOk(c, c1, x, y);
    }
  }

  lemma LeftLists<K(!new), V>(c: Cache<K, V>, c1: Cache<K, V>, x: Node, i: nat)
    requires ListsOk(c) && x in c.entries && EntryOk(c, To(x), x)
    requires c1.entries == c.entries[x := c.entries[x].(inCache := false)]
    requires if c.entries[x].refs == 1
      then i < |c.lru| && c.lru[i] == x && c1.lru == Without(c.lru, i) && c1.inUse == c.inUse
      else i < |c.inUse| && c.inUse[i] == x && c1.lru == c.lru && c1.inUse == Without(c.inUse, i)
    ensures ListsOk(c1)
    ensures forall y :: (y in c1.lru <==> y in c.lru && y != x) && (y in c1.inUse <==> y in c.inUse && y != x)
    ensures Charge(c1.entries, c1.lru) + Charge(c1.entries, c1.inUse) ==
      Charge(c.entries, c.lru) + Charge(c.entries, c.inUse) - c.entries[x].charge
  {
    hide Charge, NoDup, Without, EntryOk;
    InOneList(c, To(x), x);
    if c.entries[x].refs == 1 {
      LeaveOne(c.entries, c.lru, x, i);
      ChargeSame(c.entries, c1.entries, c1.inUse);
    } else {
      LeaveOne(c.entries, c.inUse, x, i);
      ChargeSame(c.entries, c1.entries, c1.lru);
    }
  }

  lemma InOneList<K, V>(c: Cache<K, V>, out: Ptr, x: Node)
    requires x in c.entries && EntryOk(c, out, x)
    ensures x < c.nextNode
    ensures if c.entries[x].refs == 1 then x !in c.inUse else x !in c.lru
  {
  }

  lemma LeftEntryOk<K, V>(c: Cache<K, V>, c1: Cache<K, V>, x: Node, y: Node)
    requires x in c.entries && y in c.entries && EntryOk(c, To(x), x) && EntryOk(c, To(x), y)
    requires c1.entries == c.entries[x := c.entries[x].(inCache := false)] && c1.index == c.index
      && c1.nextNode == c.nextNode
    requires y in c1.lru <==> y in c.lru && y != x
    requires y in c1.inUse <==> y in c.inUse && y != x
    ensures EntryOk(c1, Null, y)
  {
  }

  lemma FreshNode<K(!new), V>(c: Cache<K, V>, e: Entry<K, V>)
    requires Inv(c, Null)
    ensures c.nextNode !in c.entries && c.nextNode !in c.deletions && c.nextNode !in c.inUse
    ensures var entries1 := c.entries[c.nextNode := e];
      Charge(entries1, c.lru) == Charge(c.entries, c.lru) && Charge(entries1, c.inUse) == Charge(c.entries, c.inUse)
  {
    hide Charge, NoDup;
    var x := c.nextNode;
    forall y <- c.entries ensures y < x { assert EntryOk(c, Null, y); }
    var entries1 := c.entries[x := e];
    ChargeSame(c.entries, entries1, c.lru);
    ChargeSame(c.entries, entries1, c.inUse);
  }

  // A new entry that is not cached ...
  lemma NewUncached<K(!new), V>(c: Cache<K, V>, e: Entry<K, V>)
    requires Inv(c, Null) && c.nextNode >= 2 && e.refs == 1 && !e.inCache
    ensures Inv(c.(entries := c.entries[c.nextNode := e], nextNode := c.nextNode + 1), Null)
  {
    hide Charge, NoDup;
    FreshNode(c, e);
    var x := c.nextNode;
    var c1 := c.(entries := c.entries[x := e], nextNode := x + 1);
    forall y <- c1.entries ensures EntryOk(c1, Null, y) { if y != x { assert EntryOk(c, Null, y); } }
  }

  // ... and one that is, perhaps in the place of another one, which is then out of the table.
  ghost function Admitted<K, V>(c: Cache<K, V>, e: Entry<K, V>): Cache<K, V> {
    var x := c.nextNode;
    c.(entries := c.entries[x := e], nextNode := x + 1, inUse := c.inUse + [x],
       usage := c.usage + e.charge, index := c.index[e.key := x])
  }

  ghost function Replaced<K, V>(c: Cache<K, V>, k: K): Ptr {
    if k in c.index then To(c.index[k]) else Null
  }

  lemma NewCached<K(!new), V>(c: Cache<K, V>, e: Entry<K, V>)
    requires Inv(c, Null) && c.nextNode >= 2 && e.refs == 2 && e.inCache
    ensures Inv(Admitted(c, e), Replaced(c, e.key))
  {
    hide Charge, NoDup, EntryOk;
    FreshNode(c, e);
    var x, c1 := c.nextNode, Admitted(c, e);
    AppendMembers(c.inUse, x);
    ChargeAppend(c1.entries, c.inUse, x);
    forall y <- c1.entries ensures EntryOk(c1, Replaced(c, e.key), y) {
      if y != x {
        OldEntryOk(c, e, y);
      } else {
        NewEntryOk(c1, Replaced(c, e.key), x);
      }
    }
  }

  lemma NewEntryOk<K, V>(c: Cache<K, V>, out: Ptr, x: Node)
    requires x in c.entries && 2 <= x < c.nextNode && x !in c.lru && x in c.inUse && out != To(x)
    requires var e := c.entries[x]; e.refs == 2 && e.inCache && e.key in c.index && c.index[e.key] == x
    ensures EntryOk(c, out, x)
  {
  }

  lemma OldEntryOk<K(!new), V>(c: Cache<K, V>, e: Entry<K, V>, y: Node)
    requires Inv(c, Null) && y in c.entries && c.nextNode !in c.entries
    ensures EntryOk(Admitted(c, e), Replaced(c, e.key), y)
  {
    hide Charge, NoDup;
    assert EntryOk(c, Null, y);
    if e.key in c.index { assert EntryOk(c, Null, c.index[e.key]); }
  }

  // The list without its entry x, the others in the same order.
  ghost function Dropped(list: seq<Node>, x: Node): seq<Node> {
    if list == [] then [] else if list[0] == x then list[1..] else [list[0]] + Dropped(list[1..], x)
  }

  lemma {:induction false} DroppedAt(list: seq<Node>, x: Node)
    requires NoDup(list)
    ensures x !in list ==> Dropped(list, x) == list
    ensures forall i: nat | i < |list| && list[i] == x :: Dropped(list, x) == Without(list, i)
  {
    if list != [] && list[0] != x {
      var rest := list[1..];
      DroppedAt(rest, x);
      forall i: nat | i < |list| && list[i] == x ensures Dropped(list, x) == Without(list, i) {
        assert rest[i - 1] == x;
        assert Without(list, i) == [list[0]] + Without(rest, i - 1);
      }
    } else if list != [] {
      forall i: nat | i < |list| && list[i] == x ensures Dropped(list, x) == Without(list, i) {
        assert i == 0;
      }
    }
  }

  // FinishErase: an entry that is out of the table leaves its list and the charge, and loses the
  // cache's reference.
  ghost function Erased<K, V>(c: Cache<K, V>, x: Node): Cache<K, V>
    requires x in c.entries
  {
    var e := c.entries[x];
    if e.refs == 1 then
      c.(entries := c.entries - {x}, lru := Dropped(c.lru, x), usage := c.usage - e.charge,
        deletions := c.deletions + [x])
    else
      c.(entries := c.entries[x := e.(inCache := false, refs := if e.refs > 0 then e.refs - 1 else 0)],
         inUse := Dropped(c.inUse, x), usage := c.usage - e.charge)
  }

  // A cached entry is added: in use, charged, and in the place of the one with its key.
  ghost function Added<K, V>(c: Cache<K, V>, e: Entry<K, V>): Cache<K, V>
    requires e.key in c.index ==> c.index[e.key] in c.entries
  {
    if e.key in c.index then Erased(Admitted(c, e), c.index[e.key]) else Admitted(c, e)
  }

  // What is left when some entries are gone.
  ghost function Entries<K, V>(entries: map<Node, Entry<K, V>>, gone: seq<Node>): map<Node, Entry<K, V>> {
    map x | x in entries && x !in gone :: entries[x]
  }

  ghost function Keep<K>(index: map<K, Node>, gone: seq<Node>): map<K, Node> {
    map k | k in index && index[k] !in gone :: index[k]
  }

  // The n oldest idle entries are evicted.
  ghost function Evicted<K, V>(c: Cache<K, V>, n: nat): Cache<K, V>
    requires n <= |c.lru|
  {
    c.(entries := Entries(c.entries, c.lru[..n]), lru := c.lru[n..], index := Keep(c.index, c.lru[..n]),
       usage := c.usage - Charge(c.entries, c.lru[..n]), deletions := c.deletions + c.lru[..n])
  }

  // n evictions bring the charge to the limit, if evictions can, and no fewer do.
  ghost predicate JustEnough<K, V>(c: Cache<K, V>, n: nat, limit: int) {
    && n <= |c.lru|
    && (c.usage - Charge(c.entries, c.lru[..n]) <= limit || n == |c.lru|)
    && forall j | 0 <= j < n :: c.usage - Charge(c.entries, c.lru[..j]) > limit
  }

  // Insert: the entry is added, cached unless the capacity is 0, and idle entries are evicted until
  // the charge fits.
  ghost function Inserted<K, V>(c: Cache<K, V>, capacity: nat, k: K, v: V, charge: nat): Cache<K, V>
    requires k in c.index ==> c.index[k] in c.entries
  {
    if capacity > 0 then Added(c, Entry(k, v, charge, 2, true))
    else c.(entries := c.entries[c.nextNode := Entry(k, v, charge, 1, false)], nextNode := c.nextNode + 1)
  }

  ghost predicate InsertedAndEvicted<K, V>(c: Cache<K, V>, c1: Cache<K, V>, capacity: nat, k: K, v: V, charge: nat,
                                           n: nat) {
    && (k in c.index ==> c.index[k] in c.entries)
    && JustEnough(Inserted(c, capacity, k, v, charge), n, capacity)
    && c1 == Evicted(Inserted(c, capacity, k, v, charge), n)
  }
}
