/**
 The cells of an open-addressed hash table with tombstones: what they represent, and what writing
 one cell does to that.  Cell i is entry i % 8 of bucket i / 8.
*/
module FlatTable {
  import opened Bits
  import opened Finite
  import opened Probing

  const EMPTY: nat := 0
  const DELETED: nat := 1

  // The key and the value mean something only when the marker is at least 2.
  datatype Slot<K, V> = Slot(marker: nat, key: K, val: V)

  type Table<K, V> = seq<Slot<K, V>>

  // The low 8 bits of the hash, kept away from the two special markers.
  function Marker(hashByte: nat): (r: nat)
    ensures r >= 2
  {
    hashByte + (if hashByte < 2 then 2 else 0)
  }

  function MarkerOf(h: nat): (r: nat)
    ensures r >= 2
  {
    Marker(h % 256)
  }

  // The cell where the search for a key with hash h starts.
  function Home(h: nat, capacity: nat): (r: nat)
    requires capacity > 0
    ensures r < capacity
  {
    (h / 256) % capacity
  }

  function PathAt(h: nat, n: nat, capacity: nat): (r: nat)
    requires capacity > 0
    ensures r < capacity
  {
    Probe(Home(h, capacity), n, capacity)
  }

  function InUse<K, V>(c: Slot<K, V>): nat { if c.marker == EMPTY then 0 else 1 }
  function IsTomb<K, V>(c: Slot<K, V>): nat { if c.marker == DELETED then 1 else 0 }

  // ----- What the cells represent -----

  ghost predicate NoEmptyBefore<K, V>(t: Table<K, V>, h: nat, n: nat)
    requires |t| > 0
  {
    forall j: nat | j < n :: t[PathAt(h, j, |t|)].marker != EMPTY
  }

  // Key k lives n steps along its probe sequence, which has no empty cell before that.
  ghost predicate Lives<K, V>(t: Table<K, V>, h: nat, n: nat, k: K)
    requires |t| > 0
  {
    && n < |t| && NoEmptyBefore(t, h, n)
    && t[PathAt(h, n, |t|)].marker >= 2 && t[PathAt(h, n, |t|)].key == k
  }

  // An occupied cell is an entry of m, under its own hash byte, at the place where its key lives.
  ghost predicate CellOk<K, V>(t: Table<K, V>, hash: K -> nat, m: map<K, V>, steps: map<K, nat>, i: nat)
    requires |t| > 0 && i < |t|
  {
    var c := t[i];
    && c.key in m && m[c.key] == c.val
    && c.key in steps && PathAt(hash(c.key), steps[c.key], |t|) == i
    && c.marker == MarkerOf(hash(c.key))
  }

  ghost predicate Placed<K(!new), V>(t: Table<K, V>, hash: K -> nat, m: map<K, V>, steps: map<K, nat>) {
    && |t| > 0
    && (forall i: nat | i < |t| && t[i].marker >= 2 :: CellOk(t, hash, m, steps, i))
    && (forall k <- m :: k in steps && Lives(t, hash(k), steps[k], k))
  }

  ghost predicate Represents<K(!new), V>(t: Table<K, V>, hash: K -> nat, m: map<K, V>) {
    exists steps :: Placed(t, hash, m, steps)
  }

  // ----- Searching -----

  ghost predicate Matches<K, V>(c: Slot<K, V>, h: nat, k: K) {
    c.marker == MarkerOf(h) && c.key == k
  }

  // The search for k has looked at the first n cells of the probe sequence in vain.
  ghost predicate NotAmong<K, V>(t: Table<K, V>, h: nat, k: K, n: nat)
    requires |t| > 0
  {
    NoEmptyBefore(t, h, n) && forall j: nat | j < n :: !Matches(t[PathAt(h, j, |t|)], h, k)
  }

  ghost predicate OccupiedBefore<K, V>(t: Table<K, V>, h: nat, n: nat)
    requires |t| > 0
  {
    forall j: nat | j < n :: t[PathAt(h, j, |t|)].marker >= 2
  }

  // Cell i is the first on the probe sequence that holds no entry.
  ghost predicate FirstFree<K, V>(t: Table<K, V>, h: nat, i: nat)
    requires |t| > 0
  {
    exists n: nat :: n < |t| && PathAt(h, n, |t|) == i && t[i].marker < 2 && OccupiedBefore(t, h, n)
  }

  // The search goes on from a cell that is not empty and does not match.
  lemma ProbedOn<K, V>(t: Table<K, V>, h: nat, k: K, n: nat)
    requires |t| > 0 && NotAmong(t, h, k, n)
    requires var c := t[PathAt(h, n, |t|)]; c.marker != EMPTY && !Matches(c, h, k)
    ensures NotAmong(t, h, k, n + 1)
    ensures t[PathAt(h, n, |t|)].marker != DELETED && OccupiedBefore(t, h, n) ==> OccupiedBefore(t, h, n + 1)
  {
    hide PathAt, MarkerOf;
  }

  lemma NothingProbed<K, V>(t: Table<K, V>, h: nat, k: K)
    requires |t| > 0
    ensures NotAmong(t, h, k, 0) && OccupiedBefore(t, h, 0)
  {
  }

  // The first tombstone, or else the empty cell that ends the search.
  lemma FreeIsFirst<K, V>(t: Table<K, V>, h: nat, k: K, n: nat, m: nat)
    requires 0 < |t| && n <= m < |t| && NotAmong(t, h, k, m) && OccupiedBefore(t, h, n)
    requires t[PathAt(h, n, |t|)].marker < 2
    ensures FirstFree(t, h, PathAt(h, n, |t|)) && NoEmptyBefore(t, h, n)
  {
    hide MarkerOf, PathAt;
    var i := PathAt(h, n, |t|);
  }

  lemma FoundIsEntry<K(!new), V>(t: Table<K, V>, hash: K -> nat, m: map<K, V>, k: K, i: nat)
    requires Represents(t, hash, m) && i < |t| && Matches(t[i], hash(k), k)
    ensures k in m && m[k] == t[i].val
  {
    var steps :| Placed(t, hash, m, steps);
    assert CellOk(t, hash, m, steps, i);
  }

  // Occupied cells have different keys.
  lemma OneCellPerKey<K(!new), V>(t: Table<K, V>, hash: K -> nat, m: map<K, V>, i: nat, j: nat)
    requires Represents(t, hash, m) && i < |t| && j < |t| && t[i].marker >= 2 && t[j].marker >= 2
      && t[i].key == t[j].key
    ensures i == j
  {
    var steps :| Placed(t, hash, m, steps);
    assert CellOk(t, hash, m, steps, i) && CellOk(t, hash, m, steps, j);
  }

  lemma EntryIsOnPath<K(!new), V>(t: Table<K, V>, hash: K -> nat, m: map<K, V>, k: K) returns (n: nat)
    requires Represents(t, hash, m) && k in m && |t| > 0
    ensures n < |t| && NoEmptyBefore(t, hash(k), n) && Matches(t[PathAt(hash(k), n, |t|)], hash(k), k)
  {
    hide MarkerOf, PathAt;
    var steps :| Placed(t, hash, m, steps);
    n := steps[k];
    assert Lives(t, hash(k), n, k);
    assert CellOk(t, hash, m, steps, PathAt(hash(k), n, |t|));
  }

  // An empty cell ends the search.
  lemma EmptyMeansAbsent<K(!new), V>(t: Table<K, V>, hash: K -> nat, m: map<K, V>, k: K, n: nat)
    requires Represents(t, hash, m) && |t| > 0 && NotAmong(t, hash(k), k, n)
    requires t[PathAt(hash(k), n, |t|)].marker == EMPTY
    ensures k !in m
  {
    hide PathAt, Represents;
    if k in m {
      var s := EntryIsOnPath(t, hash, m, k);
    }
  }

  // A table that is not full has an empty cell on every probe sequence.
  lemma EmptyOnPath<K, V>(t: Table<K, V>, h: nat, lg: nat) returns (n: nat)
    requires |t| == Pow2(lg) && Sum(t, InUse) < |t|
    ensures n < |t| && t[PathAt(h, n, |t|)].marker == EMPTY
  {
    var i := SomeEmpty(t);
    ProbesCover(Home(h, |t|), lg, i);
    n :| n < Pow2(lg) && Probe(Home(h, |t|), n, Pow2(lg)) == i;
  }

  lemma {:induction false} SomeEmpty<K, V>(t: Table<K, V>) returns (i: nat)
    requires Sum(t, InUse) < |t|
    ensures i < |t| && t[i].marker == EMPTY
  {
    if t[0].marker == EMPTY {
      i := 0;
    } else {
      var j := SomeEmpty(t[1..]);
      i := j + 1;
    }
  }

  // ----- Writing one cell -----

  lemma NoEmptyStays<K, V>(t: Table<K, V>, i: nat, c: Slot<K, V>, h: nat, n: nat)
    requires i < |t| && c.marker != EMPTY && NoEmptyBefore(t, h, n)
    ensures NoEmptyBefore(t[i := c], h, n)
  {
    hide PathAt;
  }

  // A new key goes to a free cell that its probe sequence reaches.
  lemma InsertCell<K(!new), V>(t: Table<K, V>, hash: K -> nat, m: map<K, V>, k: K, v: V, n: nat)
    requires Represents(t, hash, m) && k !in m && n < |t| && NoEmptyBefore(t, hash(k), n)
    requires t[PathAt(hash(k), n, |t|)].marker < 2
    ensures Represents(t[PathAt(hash(k), n, |t|) := Slot(MarkerOf(hash(k)), k, v)], hash, m[k := v])
  {
    hide MarkerOf, PathAt, NoEmptyBefore;
    var steps :| Placed(t, hash, m, steps);
    var i, c := PathAt(hash(k), n, |t|), Slot(MarkerOf(hash(k)), k, v);
    var t', m', steps' := t[i := c], m[k := v], steps[k := n];
    forall j: nat | j < |t'| && t'[j].marker >= 2 ensures CellOk(t', hash, m', steps', j) {
      if j != i { assert CellOk(t, hash, m, steps, j); }
    }
    forall x <- m' ensures x in steps' && Lives(t', hash(x), steps'[x], x) {
      if x != k { assert Lives(t, hash(x), steps[x], x); }
      NoEmptyStays(t, i, c, hash(x), steps'[x]);
    }
    assert Placed(t', hash, m', steps');
  }

  // Overwriting the value of an entry.
  lemma SetCellValue<K(!new), V>(t: Table<K, V>, hash: K -> nat, m: map<K, V>, i: nat, v: V)
    requires Represents(t, hash, m) && i < |t| && t[i].marker >= 2
    ensures Represents(t[i := t[i].(val := v)], hash, m[t[i].key := v])
  {
    hide MarkerOf, PathAt, NoEmptyBefore;
    var steps :| Placed(t, hash, m, steps);
    var k, c := t[i].key, t[i].(val := v);
    var t', m' := t[i := c], m[k := v];
    assert CellOk(t, hash, m, steps, i);
    forall j: nat | j < |t'| && t'[j].marker >= 2 ensures CellOk(t', hash, m', steps, j) {
      assert CellOk(t, hash, m, steps, j);
    }
    forall x <- m' ensures x in steps && Lives(t', hash(x), steps[x], x) {
      assert Lives(t, hash(x), steps[x], x);
      NoEmptyStays(t, i, c, hash(x), steps[x]);
    }
    assert Placed(t', hash, m', steps);
  }

  // A tombstone takes out one entry and interrupts no probe sequence.
  lemma EraseCell<K(!new), V>(t: Table<K, V>, hash: K -> nat, m: map<K, V>, i: nat)
    requires Represents(t, hash, m) && i < |t| && t[i].marker >= 2
    ensures t[i].key in m && Represents(t[i := t[i].(marker := DELETED)], hash, m - {t[i].key})
  {
    hide MarkerOf, PathAt, NoEmptyBefore;
    var steps :| Placed(t, hash, m, steps);
    var k, c := t[i].key, t[i].(marker := DELETED);
    var t', m' := t[i := c], m - {k};
    assert CellOk(t, hash, m, steps, i);
    forall j: nat | j < |t'| && t'[j].marker >= 2 ensures CellOk(t', hash, m', steps, j) {
      assert CellOk(t, hash, m, steps, j);
    }
    forall x <- m' ensures x in steps && Lives(t', hash(x), steps[x], x) {
      assert Lives(t, hash(x), steps[x], x);
      NoEmptyStays(t, i, c, hash(x), steps[x]);
      assert CellOk(t, hash, m, steps, PathAt(hash(x), steps[x], |t|));
    }
    assert Placed(t', hash, m', steps);
  }

  lemma EmptyTable<K(!new), V>(t: Table<K, V>, hash: K -> nat)
    requires |t| > 0 && forall i | 0 <= i < |t| :: t[i].marker == EMPTY
    ensures Represents(t, hash, map[]) && Sum(t, InUse) == 0 && Sum(t, IsTomb) == 0
  {
    SumZero(t, InUse);
    SumZero(t, IsTomb);
    assert Placed(t, hash, map[], map[]);
  }

  lemma {:induction false} SameSums<K, V>(t: Table<K, V>)
    requires forall i | 0 <= i < |t| :: t[i].marker < 2
    ensures Sum(t, InUse) == Sum(t, IsTomb)
  {
    if t != [] { SameSums(t[1..]); }
  }

  lemma OnlyTombs<K(!new), V>(t: Table<K, V>, hash: K -> nat)
    requires |t| > 0 && forall i | 0 <= i < |t| :: t[i].marker < 2
    ensures Represents(t, hash, map[]) && Sum(t, InUse) == Sum(t, IsTomb)
  {
    SameSums(t);
    assert Placed(t, hash, map[], map[]);
  }

  // ----- Copying cell by cell -----

  ghost function KeysBelow<K, V>(t: Table<K, V>, i: nat): set<K>
    requires i <= |t|
  {
    set j | 0 <= j < i && t[j].marker >= 2 :: t[j].key
  }

  // The entries of m in the first i cells.
  ghost function Below<K, V>(t: Table<K, V>, m: map<K, V>, i: nat): map<K, V>
    requires i <= |t|
  {
    map k | k in m && k in KeysBelow(t, i) :: m[k]
  }

  lemma NextBelow<K(!new), V>(t: Table<K, V>, hash: K -> nat, m: map<K, V>, i: nat)
    requires Represents(t, hash, m) && i < |t|
    ensures t[i].marker < 2 ==> Below(t, m, i + 1) == Below(t, m, i)
    ensures t[i].marker >= 2 ==>
      && t[i].key !in Below(t, m, i)
      && Below(t, m, i + 1) == Below(t, m, i)[t[i].key := t[i].val]
  {
    hide CellOk, Placed;
    if t[i].marker >= 2 {
      OccupiedIsEntry(t, hash, m, i);
      forall j: nat | j < i && t[j].marker >= 2 ensures t[j].key != t[i].key {
        if t[j].key == t[i].key { OneCellPerKey(t, hash, m, i, j); }
      }
      assert KeysBelow(t, i + 1) == KeysBelow(t, i) + {t[i].key};
    } else {
      assert KeysBelow(t, i + 1) == KeysBelow(t, i);
    }
  }

  lemma OccupiedIsEntry<K(!new), V>(t: Table<K, V>, hash: K -> nat, m: map<K, V>, i: nat)
    requires Represents(t, hash, m) && i < |t| && t[i].marker >= 2
    ensures t[i].key in m && m[t[i].key] == t[i].val && t[i].marker == MarkerOf(hash(t[i].key))
  {
    var steps :| Placed(t, hash, m, steps);
    assert CellOk(t, hash, m, steps, i);
  }

  lemma AllBelow<K(!new), V>(t: Table<K, V>, hash: K -> nat, m: map<K, V>)
    requires Represents(t, hash, m)
    ensures Below(t, m, 0) == map[] && Below(t, m, |t|) == m
  {
    var steps :| Placed(t, hash, m, steps);
    forall k <- m ensures k in KeysBelow(t, |t|) {
      assert Lives(t, hash(k), steps[k], k);
    }
  }

  lemma BelowSize<K, V>(t: Table<K, V>, m: map<K, V>, i: nat)
    requires i <= |t|
    ensures |Below(t, m, i)| <= |m|
  {
    SubsetSize(Below(t, m, i).Keys, m.Keys);
    assert |Below(t, m, i).Keys| == |Below(t, m, i)| && |m.Keys| == |m|;
  }
}
