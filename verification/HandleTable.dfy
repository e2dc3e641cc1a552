/**
 The hash table of cache entries: an array of bucket heads, and chains through the entries' own
 next_hash fields.  Entries are named by numbers; `links` is the field next_hash of all of them.
*/
module HandleTable {
  import opened Bits
  import opened Finite
  import IntrusiveList

  type Node = IntrusiveList.Node
  datatype Ptr = Null | To(node: Node)

  // ----- Chains -----

  function PtrAt(chain: seq<Node>, i: nat): Ptr {
    if i < |chain| then To(chain[i]) else Null
  }

  ghost predicate ChainOk(links: map<Node, Ptr>, head: Ptr, chain: seq<Node>) {
    && head == PtrAt(chain, 0)
    && (forall i: nat | i < |chain| :: chain[i] in links && links[chain[i]] == PtrAt(chain, i + 1))
  }

  // What a chain in bucket b of n holds: entries that hash there, each the one for its key.
  ghost predicate NodeOk<K>(node: Node, b: nat, n: nat, keys: map<Node, K>, hash: K -> nat, index: map<K, Node>)
    requires n > 0
  {
    && node in keys && hash(keys[node]) % n == b
    && keys[node] in index && index[keys[node]] == node
  }

  ghost predicate BucketOk<K>(head: Ptr, links: map<Node, Ptr>, chain: seq<Node>, b: nat, n: nat,
                                  keys: map<Node, K>, hash: K -> nat, index: map<K, Node>)
    requires n > 0
  {
    && ChainOk(links, head, chain) && NoDup(chain)
    && forall i: nat | i < |chain| :: NodeOk(chain[i], b, n, keys, hash, index)
  }

  // The table indexes exactly `index`: every entry of it is in the chain of its bucket.
  ghost predicate TableOk<K(!new)>(heads: seq<Ptr>, links: map<Node, Ptr>, chains: seq<seq<Node>>,
                                       keys: map<Node, K>, hash: K -> nat, index: map<K, Node>) {
    && |heads| == |chains| > 0
    && (forall b: nat | b < |heads| :: BucketOk(heads[b], links, chains[b], b, |heads|, keys, hash, index))
    && (forall k <- index :: index[k] in keys && keys[index[k]] == k && index[k] in chains[hash(k) % |heads|])
  }

  // ----- Changing one chain -----

  // Writing through a pointer to a slot: the head of the bucket, or the next_hash before it.
  function WriteLink(links: map<Node, Ptr>, chain: seq<Node>, i: nat, p: Ptr): map<Node, Ptr>
    requires i <= |chain|
  {
    if i == 0 then links else links[chain[i - 1] := p]
  }

  function WriteHead(head: Ptr, i: nat, p: Ptr): Ptr {
    if i == 0 then p else head
  }

  // The slot at position i of the chain now holds h, which goes on where the old one did.
  lemma ChainReplace(links: map<Node, Ptr>, head: Ptr, chain: seq<Node>, i: nat, h: Node)
    requires ChainOk(links, head, chain) && NoDup(chain) && i < |chain| && h !in chain
    ensures var links1 := WriteLink(links[h := links[chain[i]]], chain, i, To(h));
      ChainOk(links1, WriteHead(head, i, To(h)), chain[i := h]) && NoDup(chain[i := h])
  {
    var chain1, links1 := chain[i := h], WriteLink(links[h := links[chain[i]]], chain, i, To(h));
    forall j: nat | j < |chain1| ensures chain1[j] in links1 && links1[chain1[j]] == PtrAt(chain1, j + 1) {
      assert chain[j] in links && links[chain[j]] == PtrAt(chain, j + 1);
      if i > 0 && j != i { assert chain[j] != h && (j != i - 1 ==> chain[j] != chain[i - 1]); }
    }
  }

  lemma ChainAppend(links: map<Node, Ptr>, head: Ptr, chain: seq<Node>, h: Node)
    requires ChainOk(links, head, chain) && NoDup(chain) && h !in chain
    ensures var i := |chain|;
      var links1 := WriteLink(links[h := Null], chain, i, To(h));
      ChainOk(links1, WriteHead(head, i, To(h)), chain + [h]) && NoDup(chain + [h])
  {
  }

  lemma ChainRemove(links: map<Node, Ptr>, head: Ptr, chain: seq<Node>, i: nat)
    requires ChainOk(links, head, chain) && NoDup(chain) && i < |chain|
    ensures var links1 := WriteLink(links, chain, i, links[chain[i]]);
      var chain1 := chain[..i] + chain[i + 1..];
      ChainOk(links1, WriteHead(head, i, links[chain[i]]), chain1) && NoDup(chain1)
  {
    var p := links[chain[i]];
    var chain1, links1 := chain[..i] + chain[i + 1..], WriteLink(links, chain, i, p);
    forall j: nat | j < |chain1| ensures chain1[j] in links1 && links1[chain1[j]] == PtrAt(chain1, j + 1) {
      if j >= i { assert chain1[j] == chain[j + 1]; }
    }
  }

  lemma ChainPush(links: map<Node, Ptr>, head: Ptr, chain: seq<Node>, h: Node)
    requires ChainOk(links, head, chain) && NoDup(chain) && h !in chain
    ensures ChainOk(links[h := head], To(h), [h] + chain) && NoDup([h] + chain)
  {
    var chain1, links1 := [h] + chain, links[h := head];
    forall j: nat | j < |chain1| ensures chain1[j] in links1 && links1[chain1[j]] == PtrAt(chain1, j + 1) {
      if j > 0 { assert chain1[j] == chain[j - 1]; }
    }
  }

  // Links of other entries do not matter to a chain.
  lemma ChainFrame(links: map<Node, Ptr>, links1: map<Node, Ptr>, head: Ptr, chain: seq<Node>)
    requires ChainOk(links, head, chain)
    requires forall i: nat | i < |chain| :: chain[i] in links1 && links1[chain[i]] == links[chain[i]]
    ensures ChainOk(links1, head, chain)
  {
  }

  // ----- Changing the table -----

  // Position i of the chain is where the search for k ends.
  ghost predicate EndsAt<K>(chain: seq<Node>, keys: map<Node, K>, index: map<K, Node>, k: K, i: nat) {
    && i <= |chain|
    && (if i < |chain| then chain[i] in keys && keys[chain[i]] == k else k !in index)
  }

  // The chain after an entry h for key k is put at the slot where the search ended.
  function PutChain(chain: seq<Node>, i: nat, h: Node): seq<Node>
    requires i <= |chain|
  {
    if i < |chain| then chain[i := h] else chain + [h]
  }

  // h->next_hash, then the slot
  function PutLinks(links: map<Node, Ptr>, chain: seq<Node>, i: nat, h: Node): map<Node, Ptr>
    requires i <= |chain| && (i < |chain| ==> chain[i] in links)
  {
    WriteLink(links[h := if i < |chain| then links[chain[i]] else Null], chain, i, To(h))
  }

  lemma PutInBucket<K>(head: Ptr, links: map<Node, Ptr>, chain: seq<Node>, b: nat, n: nat,
                       keys: map<Node, K>, hash: K -> nat, index: map<K, Node>, h: Node, k: K, i: nat)
    requires n > 0 && BucketOk(head, links, chain, b, n, keys, hash, index)
    requires h !in keys && hash(k) % n == b && EndsAt(chain, keys, index, k, i)
    ensures i < |chain| ==> chain[i] in links
    ensures BucketOk(WriteHead(head, i, To(h)), PutLinks(links, chain, i, h), PutChain(chain, i, h), b, n,
      keys[h := k], hash, index[k := h])
  {
    assert forall j: nat | j < |chain| :: NodeOk(chain[j], b, n, keys, hash, index);
    assert h !in chain;
    if i < |chain| {
      ChainReplace(links, head, chain, i, h);
    } else {
      ChainAppend(links, head, chain, h);
    }
    var chain1 := PutChain(chain, i, h);
    forall j: nat | j < |chain1| ensures NodeOk(chain1[j], b, n, keys[h := k], hash, index[k := h]) {
      if chain1[j] != h {
        assert chain1[j] == chain[j] && NodeOk(chain[j], b, n, keys, hash, index);
      }
    }
  }

  // A bucket that neither the changed links nor the changed key belong to.
  lemma OtherBucket<K>(head: Ptr, links: map<Node, Ptr>, links1: map<Node, Ptr>, chain: seq<Node>, b: nat, n: nat,
                       keys: map<Node, K>, keys1: map<Node, K>, hash: K -> nat,
                       index: map<K, Node>, index1: map<K, Node>)
    requires n > 0 && BucketOk(head, links, chain, b, n, keys, hash, index)
    requires forall x <- keys | hash(keys[x]) % n == b && x in links :: x in links1 && links1[x] == links[x]
    requires forall x <- keys :: x in keys1 && keys1[x] == keys[x]
    requires forall k <- index | hash(k) % n == b :: k in index1 && index1[k] == index[k]
    ensures BucketOk(head, links1, chain, b, n, keys1, hash, index1)
  {
    assert forall j: nat | j < |chain| :: NodeOk(chain[j], b, n, keys, hash, index);
    ChainFrame(links, links1, head, chain);
  }

  lemma TablePut<K(!new)>(heads: seq<Ptr>, links: map<Node, Ptr>, chains: seq<seq<Node>>,
                          keys: map<Node, K>, hash: K -> nat, index: map<K, Node>, h: Node, k: K, i: nat)
    requires TableOk(heads, links, chains, keys, hash, index) && h !in keys
    requires EndsAt(chains[hash(k) % |heads|], keys, index, k, i)
    ensures var b := hash(k) % |heads|;
      && (i < |chains[b]| ==> chains[b][i] in links)
      && TableOk(heads[b := WriteHead(heads[b], i, To(h))], PutLinks(links, chains[b], i, h),
           chains[b := PutChain(chains[b], i, h)],
                 keys[h := k], hash, index[k := h])
  {
    hide BucketOk, EndsAt, PutLinks, PutChain;
    var n, b := |heads|, hash(k) % |heads|;
    assert BucketOk(heads[b], links, chains[b], b, n, keys, hash, index);
    EndsFits(chains[b], keys, index, k, i);
    PutInBucket(heads[b], links, chains[b], b, n, keys, hash, index, h, k, i);
    var links1 := PutLinks(links, chains[b], i, h);
    PutLinksFrame(heads[b], links, chains[b], b, n, keys, hash, index, h, i);
    forall c: nat | c < n && c != b
      ensures BucketOk(heads[c], links1, chains[c], c, n, keys[h := k], hash, index[k := h]) {
      OtherBucket(heads[c], links, links1, chains[c], c, n, keys, keys[h := k], hash, index, index[k := h]);
    }
    forall x <- index[k := h] ensures index[k := h][x] in chains[b := PutChain(chains[b], i, h)][hash(x) % n] {
      PutMembers(chains[b], keys, index, k, i, h);
    }
  }

  lemma EndsFits<K>(chain: seq<Node>, keys: map<Node, K>, index: map<K, Node>, k: K, i: nat)
    requires EndsAt(chain, keys, index, k, i)
    ensures i <= |chain|
  {
  }

  lemma PutMembers<K>(chain: seq<Node>, keys: map<Node, K>, index: map<K, Node>, k: K, i: nat, h: Node)
    requires EndsAt(chain, keys, index, k, i)
    ensures h in PutChain(chain, i, h)
    ensures forall x <- chain | x in keys && keys[x] != k :: x in PutChain(chain, i, h)
  {
    var chain1 := PutChain(chain, i, h);
    assert chain1[i] == h;
    forall x <- chain | x in keys && keys[x] != k ensures x in chain1 {
      var j :| 0 <= j < |chain| && chain[j] == x;
      assert chain1[j] == x;
    }
  }

  // Only the new entry and one in the same bucket have new links.
  lemma PutLinksFrame<K>(head: Ptr, links: map<Node, Ptr>, chain: seq<Node>, b: nat, n: nat,
                         keys: map<Node, K>, hash: K -> nat, index: map<K, Node>, h: Node, i: nat)
    requires n > 0 && BucketOk(head, links, chain, b, n, keys, hash, index) && h !in keys && i <= |chain|
    ensures i < |chain| ==> chain[i] in links
    ensures forall x <- keys | hash(keys[x]) % n != b && x in links ::
      x in PutLinks(links, chain, i, h) && PutLinks(links, chain, i, h)[x] == links[x]
  {
    if i > 0 { assert NodeOk(chain[i - 1], b, n, keys, hash, index); }
  }

  function CutChain(chain: seq<Node>, i: nat): seq<Node>
    requires i < |chain|
  {
    chain[..i] + chain[i + 1..]
  }

  lemma CutInBucket<K>(head: Ptr, links: map<Node, Ptr>, chain: seq<Node>, b: nat, n: nat,
                       keys: map<Node, K>, hash: K -> nat, index: map<K, Node>, k: K, i: nat)
    requires n > 0 && BucketOk(head, links, chain, b, n, keys, hash, index)
    requires i < |chain| && chain[i] in keys && keys[chain[i]] == k
    ensures chain[i] in links && k in index && index[k] == chain[i]
    ensures var p := links[chain[i]];
      BucketOk(WriteHead(head, i, p), WriteLink(links, chain, i, p), CutChain(chain, i), b, n, keys, hash, index - {k})
  {
    assert forall j: nat | j < |chain| :: NodeOk(chain[j], b, n, keys, hash, index);
    ChainRemove(links, head, chain, i);
    var chain1 := CutChain(chain, i);
    forall j: nat | j < |chain1| ensures NodeOk(chain1[j], b, n, keys, hash, index - {k}) {
      var j0 := if j < i then j else j + 1;
      assert chain1[j] == chain[j0] && NodeOk(chain[j0], b, n, keys, hash, index);
    }
  }

  lemma CutMembers(chain: seq<Node>, i: nat)
    requires i < |chain|
    ensures forall x <- chain | x != chain[i] :: x in CutChain(chain, i)
  {
    var chain1 := CutChain(chain, i);
    forall x <- chain | x != chain[i] ensures x in chain1 {
      var j :| 0 <= j < |chain| && chain[j] == x;
      assert chain1[if j < i then j else j - 1] == x;
    }
  }

  lemma TableCut<K(!new)>(heads: seq<Ptr>, links: map<Node, Ptr>, chains: seq<seq<Node>>,
                          keys: map<Node, K>, hash: K -> nat, index: map<K, Node>, k: K, i: nat)
    requires TableOk(heads, links, chains, keys, hash, index)
    requires var chain := chains[hash(k) % |heads|]; i < |chain| && chain[i] in keys && keys[chain[i]] == k
    ensures var b := hash(k) % |heads|;
      && chains[b][i] in links && k in index && index[k] == chains[b][i]
      && TableOk(heads[b := WriteHead(heads[b], i, links[chains[b][i]])],
           WriteLink(links, chains[b], i, links[chains[b][i]]),
                 chains[b := CutChain(chains[b], i)], keys, hash, index - {k})
  {
    hide BucketOk, CutChain;
    var n, b := |heads|, hash(k) % |heads|;
    var chain := chains[b];
    assert BucketOk(heads[b], links, chain, b, n, keys, hash, index);
    CutInBucket(heads[b], links, chain, b, n, keys, hash, index, k, i);
    var links1 := WriteLink(links, chain, i, links[chain[i]]);
    CutLinksFrame(heads[b], links, chain, b, n, keys, hash, index, i);
    forall c: nat | c < n && c != b ensures BucketOk(heads[c], links1, chains[c], c, n, keys, hash, index - {k}) {
      OtherBucket(heads[c], links, links1, chains[c], c, n, keys, keys, hash, index, index - {k});
    }
    CutMembers(chain, i);
  }

  lemma CutLinksFrame<K>(head: Ptr, links: map<Node, Ptr>, chain: seq<Node>, b: nat, n: nat,
                         keys: map<Node, K>, hash: K -> nat, index: map<K, Node>, i: nat)
    requires n > 0 && BucketOk(head, links, chain, b, n, keys, hash, index) && i < |chain|
    ensures chain[i] in links
    ensures forall x <- keys | hash(keys[x]) % n != b && x in links ::
      x in WriteLink(links, chain, i, links[chain[i]]) && WriteLink(links, chain, i, links[chain[i]])[x] == links[x]
  {
    if i > 0 { assert NodeOk(chain[i - 1], b, n, keys, hash, index); }
  }

  // A key is found in the chain of its bucket or nowhere.
  lemma EndIsAbsent<K(!new)>(heads: seq<Ptr>, links: map<Node, Ptr>, chains: seq<seq<Node>>,
                             keys: map<Node, K>, hash: K -> nat, index: map<K, Node>, k: K)
    requires TableOk(heads, links, chains, keys, hash, index)
    requires var chain := chains[hash(k) % |heads|];
      forall j: nat | j < |chain| :: chain[j] in keys && keys[chain[j]] != k
    ensures k !in index
  {
  }

  lemma ChainAt<K(!new)>(heads: seq<Ptr>, links: map<Node, Ptr>, chains: seq<seq<Node>>,
                         keys: map<Node, K>, hash: K -> nat, index: map<K, Node>, b: nat, i: nat)
    requires TableOk(heads, links, chains, keys, hash, index) && b < |heads|
    ensures i == 0 ==> heads[b] == PtrAt(chains[b], 0)
    ensures i < |chains[b]| ==>
      var x := chains[b][i];
      x in links && links[x] == PtrAt(chains[b], i + 1) && x in keys && keys[x] in index && index[keys[x]] == x
  {
    assert BucketOk(heads[b], links, chains[b], b, |heads|, keys, hash, index);
    if i < |chains[b]| { assert NodeOk(chains[b][i], b, |heads|, keys, hash, index); }
  }

  // ----- Moving everything to new buckets -----

  // The entries that have been moved.
  ghost function Moved<K>(index: map<K, Node>, done: set<Node>): map<K, Node> {
    map k | k in index && index[k] in done :: index[k]
  }

  // One entry goes to the front of its new bucket.
  lemma TablePush<K(!new)>(heads: seq<Ptr>, links: map<Node, Ptr>, chains: seq<seq<Node>>,
                           keys: map<Node, K>, hash: K -> nat, index: map<K, Node>, h: Node)
    requires TableOk(heads, links, chains, keys, hash, index) && h in keys && keys[h] !in index
    ensures var b := hash(keys[h]) % |heads|;
      TableOk(heads[b := To(h)], links[h := heads[b]], chains[b := [h] + chains[b]], keys, hash, index[keys[h] := h])
  {
    hide BucketOk;
    var n, k := |heads|, keys[h];
    var b := hash(k) % n;
    var links1 := links[h := heads[b]];
    assert BucketOk(heads[b], links, chains[b], b, n, keys, hash, index);
    PushInBucket(heads[b], links, chains[b], b, n, keys, hash, index, h);
    forall c: nat | c < n && c != b ensures BucketOk(heads[c], links1, chains[c], c, n, keys, hash, index[k := h]) {
      OtherBucket(heads[c], links, links1, chains[c], c, n, keys, keys, hash, index, index[k := h]);
    }
    forall x <- index[k := h] ensures index[k := h][x] in chains[b := [h] + chains[b]][hash(x) % n] {
      assert ([h] + chains[b])[0] == h;
    }
  }

  lemma PushInBucket<K>(head: Ptr, links: map<Node, Ptr>, chain: seq<Node>, b: nat, n: nat,
                        keys: map<Node, K>, hash: K -> nat, index: map<K, Node>, h: Node)
    requires n > 0 && BucketOk(head, links, chain, b, n, keys, hash, index)
    requires h in keys && keys[h] !in index && hash(keys[h]) % n == b
    ensures BucketOk(To(h), links[h := head], [h] + chain, b, n, keys, hash, index[keys[h] := h])
  {
    assert forall j: nat | j < |chain| :: NodeOk(chain[j], b, n, keys, hash, index);
    ChainPush(links, head, chain, h);
    forall j: nat | j < |[h] + chain| ensures NodeOk(([h] + chain)[j], b, n, keys, hash, index[keys[h] := h]) {
      if j > 0 { assert NodeOk(chain[j - 1], b, n, keys, hash, index); }
    }
  }

  // Half-way through Resize: the entries in `done` are in the new table, the links of the others are
  // as they were.
  ghost predicate Moving<K(!new)>(heads: seq<Ptr>, links: map<Node, Ptr>, chains: seq<seq<Node>>, keys: map<Node, K>,
                                  hash: K -> nat, index: map<K, Node>, done: set<Node>, links0: map<Node, Ptr>) {
    && TableOk(heads, links, chains, keys, hash, Moved(index, done))
    && (forall x <- links0 | x !in done :: x in links && links[x] == links0[x])
  }

  // Exactly the entries before position j of bucket i are done.
  ghost predicate DoneTo(chains: seq<seq<Node>>, i: nat, j: nat, done: set<Node>) {
    forall b: nat, c: nat | b < |chains| && c < |chains[b]| :: chains[b][c] in done <==> b < i || (b == i && c < j)
  }

  // An entry has one place in the table.
  lemma PlacesDiffer<K(!new)>(heads: seq<Ptr>, links: map<Node, Ptr>, chains: seq<seq<Node>>,
                              keys: map<Node, K>, hash: K -> nat, index: map<K, Node>, b: nat, c: nat, b1: nat, c1: nat)
    requires TableOk(heads, links, chains, keys, hash, index)
    requires b < |chains| && b1 < |chains| && c < |chains[b]| && c1 < |chains[b1]| && (b, c) != (b1, c1)
    ensures chains[b][c] != chains[b1][c1]
  {
    assert BucketOk(heads[b], links, chains[b], b, |heads|, keys, hash, index);
    assert BucketOk(heads[b1], links, chains[b1], b1, |heads|, keys, hash, index);
    assert NodeOk(chains[b][c], b, |heads|, keys, hash, index)
      && NodeOk(chains[b1][c1], b1, |heads|, keys, hash, index);
  }

  lemma DoneNext<K(!new)>(heads: seq<Ptr>, links: map<Node, Ptr>, chains: seq<seq<Node>>,
                          keys: map<Node, K>, hash: K -> nat, index: map<K, Node>, i: nat, j: nat, done: set<Node>)
    requires TableOk(heads, links, chains, keys, hash, index)
    requires i < |chains| && j < |chains[i]| && DoneTo(chains, i, j, done)
    ensures DoneTo(chains, i, j + 1, done + {chains[i][j]})
  {
    hide TableOk;
    var h := chains[i][j];
    forall b: nat, c: nat | b < |chains| && c < |chains[b]|
      ensures chains[b][c] in done + {h} <==> b < i || (b == i && c < j + 1)
    {
      if (b, c) != (i, j) { PlacesDiffer(heads, links, chains, keys, hash, index, b, c, i, j); }
    }
  }

  ghost predicate Indexes<K(!new)>(keys: map<Node, K>, index: map<K, Node>) {
    forall k <- index :: index[k] in keys && keys[index[k]] == k
  }

  lemma MovedNext<K(!new)>(keys: map<Node, K>, index: map<K, Node>, done: set<Node>, h: Node)
    requires Indexes(keys, index) && h in keys && keys[h] in index && index[keys[h]] == h && h !in done
    ensures keys[h] !in Moved(index, done)
    ensures Moved(index, done + {h}) == Moved(index, done)[keys[h] := h]
    ensures |Moved(index, done + {h})| == |Moved(index, done)| + 1
  {
    var before, after := Moved(index, done), Moved(index, done + {h});
    forall k ensures k in after <==> k in before || k == keys[h] { }
    assert after == before[keys[h] := h];
    OneMore(before, keys[h], h);
  }

  lemma OneMore<K>(m: map<K, Node>, k: K, x: Node)
    requires k !in m
    ensures |m[k := x]| == |m| + 1
  {
    assert m[k := x].Keys == m.Keys + {k};
    assert |m[k := x].Keys| == |m[k := x]| && |m.Keys| == |m|;
  }

  lemma MoveOne<K(!new)>(heads: seq<Ptr>, links: map<Node, Ptr>, chains: seq<seq<Node>>, keys: map<Node, K>,
                         hash: K -> nat, index: map<K, Node>, done: set<Node>, links0: map<Node, Ptr>, h: Node)
    requires Moving(heads, links, chains, keys, hash, index, done, links0) && Indexes(keys, index)
    requires h in keys && keys[h] in index && index[keys[h]] == h && h !in done
    ensures |heads| == |chains| > 0
    ensures var b := hash(keys[h]) % |heads|;
      Moving(heads[b := To(h)], links[h := heads[b]], chains[b := [h] + chains[b]], keys, hash, index, done + {h},
        links0)
    ensures |Moved(index, done + {h})| == |Moved(index, done)| + 1
  {
    hide TableOk, Moved, Indexes;
    TableHasBuckets(heads, links, chains, keys, hash, Moved(index, done));
    MovedNext(keys, index, done, h);
    TablePush(heads, links, chains, keys, hash, Moved(index, done), h);
  }

  lemma TableHasBuckets<K(!new)>(heads: seq<Ptr>, links: map<Node, Ptr>, chains: seq<seq<Node>>,
                                 keys: map<Node, K>, hash: K -> nat, index: map<K, Node>)
    requires TableOk(heads, links, chains, keys, hash, index)
    ensures |heads| == |chains| > 0 && Indexes(keys, index)
  {
  }

  // No entry has been moved, or every one.
  lemma MovedEnds<K(!new)>(heads: seq<Ptr>, links: map<Node, Ptr>, chains: seq<seq<Node>>,
                           keys: map<Node, K>, hash: K -> nat, index: map<K, Node>, done: set<Node>)
    requires TableOk(heads, links, chains, keys, hash, index)
    ensures Moved(index, {}) == map[]
    ensures DoneTo(chains, |chains|, 0, done) ==> Moved(index, done) == index
  {
    if DoneTo(chains, |chains|, 0, done) {
      forall k <- index ensures index[k] in done {
        var b := hash(k) % |heads|;
        var c :| 0 <= c < |chains[b]| && chains[b][c] == index[k];
      }
    }
  }

  lemma EmptyTable<K(!new)>(n: nat, links: map<Node, Ptr>, keys: map<Node, K>, hash: K -> nat)
    requires n > 0
    ensures TableOk(seq(n, _ => Null), links, seq(n, _ => []), keys, hash, map[])
  {
  }

  // ----- The table -----

  // Where a pointer to a slot points: into the array of buckets, or at the next_hash of an entry.
  datatype Slot = Bucket(b: nat) | NextOf(node: Node)

  class HandleTable<K(==, !new)> {
    const hash: K -> nat
    var elems: nat
    var list: seq<Ptr>
    var nextHash: map<Node, Ptr>
    var keys: map<Node, K>
    ghost var chains: seq<seq<Node>>
    ghost var index: map<K, Node>

    ghost predicate Valid()
      reads this
    {
      && IsPow2(|list|)
      && elems == |index| <= |list|
      && TableOk(list, nextHash, chains, keys, hash, index)
    }

    constructor (hash: K -> nat)
      ensures Valid() && index == map[] && keys == map[] && this.hash == hash
    {
      this.hash := hash;
      elems, list, nextHash, keys := 0, seq(4, _ => Null), map[], map[];
      chains, index := seq(4, _ => []), map[];
      new;
      assert Pow2(2) == 4 by { assert Pow2(1) == 2; }
      EmptyTable(4, nextHash, keys, hash);
    }

    // The slot that points to the entry for k, or the one at the end of its chain.
    method FindPointer(k: K, h: nat) returns (slot: Slot, found: Ptr, ghost i: nat)
      requires Valid() && h == hash(k)
      ensures |list| == |chains| > 0
      ensures var b := h % |list|;
        && i <= |chains[b]|
        && slot == (if i == 0 then Bucket(b) else NextOf(chains[b][i - 1]))
        && found == PtrAt(chains[b], i)
        && EndsAt(chains[b], keys, index, k, i)
      ensures found == if k in index then To(index[k]) else Null
    {
      hide TableOk, IsPow2;
      TableHasBuckets(list, nextHash, chains, keys, hash, index);
      MaskIsMod(h, |list|);
      var b := And(h, |list| - 1);
      ghost var chain := chains[b];
      slot, i := Bucket(b), 0;
      found := list[b];
      ChainAt(list, nextHash, chains, keys, hash, index, b, 0);
      while found != Null && keys[found.node] != k
        invariant i <= |chain| && found == PtrAt(chain, i)
        invariant found != Null ==> found.node in keys && found.node in nextHash
        invariant slot == (if i == 0 then Bucket(b) else NextOf(chain[i - 1]))
        invariant forall j: nat | j < i :: chain[j] in keys && keys[chain[j]] != k
        decreases |chain| - i
      {
        ChainAt(list, nextHash, chains, keys, hash, index, b, i);
        ChainAt(list, nextHash, chains, keys, hash, index, b, i + 1);
        slot := NextOf(found.node);
        found := nextHash[found.node];
        i := i + 1;
      }
      if found == Null {
        EndIsAbsent(list, nextHash, chains, keys, hash, index, k);
      } else {
        ChainAt(list, nextHash, chains, keys, hash, index, b, i);
      }
    }

    method Lookup(k: K, h: nat) returns (e: Ptr)
      requires Valid() && h == hash(k)
      ensures e == if k in index then To(index[k]) else Null
    {
      var slot, found, i := FindPointer(k, h);
      e := found;
    }

    // *slot := p
    method Store(slot: Slot, p: Ptr)
      requires slot.Bucket? ==> slot.b < |list|
      modifies this`list, this`nextHash
      ensures slot.Bucket? ==> list == old(list)[slot.b := p] && nextHash == old(nextHash)
      ensures slot.NextOf? ==> list == old(list) && nextHash == old(nextHash)[slot.node := p]
    {
      match slot
      case Bucket(b) => list := list[b := p];
      case NextOf(node) => nextHash := nextHash[node := p];
    }

    // Puts a new entry in the place of the one with the same key, or at the end of its chain.
    method Insert(x: Node, k: K, h: nat) returns (was: Ptr)
      requires Valid() && h == hash(k) && x !in keys
      modifies this
      ensures Valid() && index == old(index)[k := x] && keys == old(keys)[x := k]
      ensures was == if k in old(index) then To(old(index)[k]) else Null
    {
      hide TableOk, IsPow2, EndsAt;
      ghost var list0, links0, chains0, i := list, nextHash, chains, 0;
      var slot;
      slot, was, i := FindPointer(k, h);
      ghost var b := h % |list|;
      TablePut(list, nextHash, chains, keys, hash, index, x, k, i);
      if was != Null { ChainAt(list, nextHash, chains, keys, hash, index, b, i); }
      keys := keys[x := k];
      nextHash := nextHash[x := if was == Null then Null else nextHash[was.node]];
      Store(slot, To(x));
      assert list == list0[b := WriteHead(list0[b], i, To(x))];
      assert nextHash == PutLinks(links0, chains0[b], i, x);
      chains := chains[b := PutChain(chains[b], i, x)];
      index := index[k := x];
      if was == Null {
        elems := elems + 1;
        if elems > |list| {
          Resize();
        }
      } else {
        assert index.Keys == old(index).Keys && |index.Keys| == |index| && |old(index).Keys| == |old(index)|;
      }
    }

    method Remove(k: K, h: nat) returns (was: Ptr)
      requires Valid() && h == hash(k)
      modifies this
      ensures Valid() && index == old(index) - {k} && keys == old(keys)
      ensures was == if k in old(index) then To(old(index)[k]) else Null
    {
      hide TableOk, IsPow2;
      ghost var list0, links0, chains0, i := list, nextHash, chains, 0;
      var slot;
      slot, was, i := FindPointer(k, h);
      ghost var b := h % |list|;
      if was != Null {
        TableCut(list, nextHash, chains, keys, hash, index, k, i);
        ChainAt(list, nextHash, chains, keys, hash, index, b, i);
        var p := nextHash[was.node];
        Store(slot, p);
        assert list == list0[b := WriteHead(list0[b], i, p)];
        assert nextHash == WriteLink(links0, chains0[b], i, p);
        chains := chains[b := CutChain(chains[b], i)];
        assert |index| == |index - {k}| + 1 by { assert index == (index - {k})[k := index[k]]; }
        index := index - {k};
        elems := elems - 1;
      } else {
        assert index - {k} == index;
      }
    }

    // The inner loop of Resize: bucket i, from its head on.
    method MoveBucket(i: nat, newList: seq<Ptr>, count: nat, ghost newChains: seq<seq<Node>>, ghost done: set<Node>,
                      ghost links0: map<Node, Ptr>)
      returns (newList': seq<Ptr>, count': nat, ghost newChains': seq<seq<Node>>, ghost done': set<Node>)
      requires i < |list| == |chains| && IsPow2(|newList|)
      requires TableOk(list, links0, chains, keys, hash, index)
      requires Moving(newList, nextHash, newChains, keys, hash, index, done, links0)
      requires DoneTo(chains, i, 0, done) && count == |Moved(index, done)|
      modifies this`nextHash
      ensures |newList'| == |newList|
      ensures Moving(newList', nextHash, newChains', keys, hash, index, done', links0)
      ensures DoneTo(chains, i + 1, 0, done') && count' == |Moved(index, done')|
    {
      hide TableOk, Moving, Moved, DoneTo, IsPow2, Indexes, And;
      newList', count', newChains', done' := newList, count, newChains, done;
      TableHasBuckets(list, links0, chains, keys, hash, index);
      ghost var j := 0;
      var h := list[i];
      ChainAt(list, links0, chains, keys, hash, index, i, 0);
      while h != Null
        invariant j <= |chains[i]| && h == PtrAt(chains[i], j) && |newList'| == |newList|
        invariant Moving(newList', nextHash, newChains', keys, hash, index, done', links0)
        invariant DoneTo(chains, i, j, done') && count' == |Moved(index, done')|
        decreases |chains[i]| - j
      {
        var x := h.node;
        ChainAt(list, links0, chains, keys, hash, index, i, j);
        NotDone(chains, i, j, done');
        Unmoved(newList', nextHash, newChains', keys, hash, index, done', links0, x);
        DoneNext(list, links0, chains, keys, hash, index, i, j, done');
        MoveOne(newList', nextHash, newChains', keys, hash, index, done', links0, x);
        var next := nextHash[x];
        MaskIsMod(hash(keys[x]), |newList'|);
        var b := And(hash(keys[x]), |newList'| - 1);
        nextHash := nextHash[x := newList'[b]];
        newChains' := newChains'[b := [x] + newChains'[b]];
        newList' := newList'[b := To(x)];
        done' := done' + {x};
        h, j, count' := next, j + 1, count' + 1;
      }
      BucketDone(chains, i, done');
    }

    static method NewLength(elems: nat) returns (newLength: nat)
      ensures IsPow2(newLength) && newLength >= elems && newLength > 0
      ensures newLength == 4 || newLength < 2 * elems
    {
      newLength := 4;
      assert Pow2(2) == 4 by { assert Pow2(1) == 2; }
      while newLength < elems
        invariant IsPow2(newLength) && newLength > 0 && (newLength == 4 || newLength < 2 * elems)
        decreases elems - newLength
      {
        ghost var lg: nat :| newLength == Pow2(lg);
        assert Pow2(lg + 1) == 2 * newLength;
        newLength := 2 * newLength;
      }
    }

    // The loops of Resize.
    method MoveAll(newLength: nat) returns (newList: seq<Ptr>, count: nat, ghost newChains: seq<seq<Node>>)
      requires IsPow2(newLength) && newLength > 0 && TableOk(list, nextHash, chains, keys, hash, index)
      modifies this`nextHash
      ensures |newList| == newLength && count == |index|
      ensures TableOk(newList, nextHash, newChains, keys, hash, index)
    {
      hide TableOk, Moving, Moved, DoneTo, IsPow2, Indexes;
      newList := seq(newLength, _ => Null);
      ghost var done, links0 := {}, nextHash;
      newChains := seq(newLength, _ => []);
      StartMoving(newLength, list, nextHash, chains, keys, hash, index);
      var i := 0;
      count := 0;
      while i < |list|
        invariant i <= |list| && |newList| == newLength
        invariant Moving(newList, nextHash, newChains, keys, hash, index, done, links0)
        invariant DoneTo(chains, i, 0, done) && count == |Moved(index, done)|
      {
        TableHasBuckets(list, links0, chains, keys, hash, index);
        newList, count, newChains, done := MoveBucket(i, newList, count, newChains, done, links0);
        i := i + 1;
      }
      TableHasBuckets(list, links0, chains, keys, hash, index);
      MovedEnds(list, links0, chains, keys, hash, index, done);
      FullyMoved(newList, nextHash, newChains, keys, hash, index, done, links0);
    }

    // A table of at least elems buckets, and every entry in it.
    method Resize()
      requires IsPow2(|list|) && elems == |index| && TableOk(list, nextHash, chains, keys, hash, index)
      modifies this`list, this`nextHash, this`chains
      ensures Valid() && (|list| == 4 || |list| < 2 * elems)
    {
      hide TableOk, IsPow2;
      var newLength := NewLength(elems);
      ghost var newChains;
      var newList, count;
      newList, count, newChains := MoveAll(newLength);
      assert elems == count;
      list, chains := newList, newChains;
    }
  }

  lemma NotDone(chains: seq<seq<Node>>, i: nat, j: nat, done: set<Node>)
    requires DoneTo(chains, i, j, done) && i < |chains| && j < |chains[i]|
    ensures chains[i][j] !in done
  {
  }

  lemma BucketDone(chains: seq<seq<Node>>, i: nat, done: set<Node>)
    requires i < |chains| && DoneTo(chains, i, |chains[i]|, done)
    ensures DoneTo(chains, i + 1, 0, done)
  {
  }

  lemma Unmoved<K(!new)>(heads: seq<Ptr>, links: map<Node, Ptr>, chains: seq<seq<Node>>, keys: map<Node, K>,
                         hash: K -> nat, index: map<K, Node>, done: set<Node>, links0: map<Node, Ptr>, x: Node)
    requires Moving(heads, links, chains, keys, hash, index, done, links0) && x in links0 && x !in done
    ensures x in links && links[x] == links0[x]
  {
    hide TableOk;
  }

  lemma StartMoving<K(!new)>(n: nat, heads: seq<Ptr>, links: map<Node, Ptr>, chains: seq<seq<Node>>,
                             keys: map<Node, K>, hash: K -> nat, index: map<K, Node>)
    requires n > 0 && TableOk(heads, links, chains, keys, hash, index)
    ensures Moving(seq(n, _ => Null), links, seq(n, _ => []), keys, hash, index, {}, links)
    ensures DoneTo(chains, 0, 0, {}) && |Moved(index, {})| == 0
  {
    hide TableOk;
    MovedEnds(heads, links, chains, keys, hash, index, {});
    EmptyTable(n, links, keys, hash);
  }

  lemma FullyMoved<K(!new)>(heads: seq<Ptr>, links: map<Node, Ptr>, chains: seq<seq<Node>>, keys: map<Node, K>,
                            hash: K -> nat, index: map<K, Node>, done: set<Node>, links0: map<Node, Ptr>)
    requires Moving(heads, links, chains, keys, hash, index, done, links0) && Moved(index, done) == index
    ensures TableOk(heads, links, chains, keys, hash, index)
  {
    hide TableOk;
  }
}
