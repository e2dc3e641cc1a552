/**
 The contents of a 4-way cuckoo table: where a key may live, what the table represents, and what
 moving and writing single slots does to that.
*/
module CuckooTable {
  import opened MultiplyHigh

  type Key = nat

  const SLOTS_PER_BUCKET: nat := 4
  const UNUSED_SLOT: Key := 0xffff_ffff_ffff_ffff

  datatype Bucket<V> = Bucket(keys: seq<Key>, values: seq<V>)

  // fast_map_to_buckets
  function MapToBucket(x: nat, numBuckets: nat): nat {
    MulHigh(x, numBuckets)
  }

  // h2: multiply the word with its halves swapped
  function Mix(h: nat): nat {
    Mul64(0xc6a4_a793_5bd1_e995, h / B32 + (h % B32) * B32)
  }

  // The halves of the word change places before the multiplication, which is cut to 64 bits.
  lemma MixOfHalves()
    ensures Mix(1) == 0x5bd1_e995_0000_0000 && Mix(0x1_0000_0000) == 0xc6a4_a793_5bd1_e995 && Mix(0) == 0
  {
  }

  function FirstBucket(k: Key, n: nat): nat { MapToBucket(k, n) }
  function SecondBucket(k: Key, n: nat): nat { MapToBucket(Mix(k), n) }

  // alt_bucket: the bucket of k that is not b
  function AltBucket(k: Key, b: nat, n: nat): nat {
    if FirstBucket(k, n) != b then FirstBucket(k, n) else SecondBucket(k, n)
  }

  lemma BucketsInRange(k: Key, n: nat)
    requires k <= UNUSED_SLOT && n > 0
    ensures FirstBucket(k, n) < n && SecondBucket(k, n) < n
  {
    InRange(k, n);
    InRange(Mix(k), n);
  }

  predicate CanLive(k: Key, b: nat, n: nat) {
    b == FirstBucket(k, n) || b == SecondBucket(k, n)
  }

  lemma AltCanLive(k: Key, b: nat, n: nat)
    ensures CanLive(k, AltBucket(k, b, n), n)
  {
    hide FirstBucket, SecondBucket;
  }

  lemma RootsCanLive(k: Key, b: nat, n: nat)
    requires b == FirstBucket(k, n) || b == SecondBucket(k, n)
    ensures CanLive(k, b, n)
  {
  }

  type Table<V> = seq<Bucket<V>>

  predicate Shaped<V>(t: Table<V>) {
    forall b | 0 <= b < |t| :: |t[b].keys| == |t[b].values| == SLOTS_PER_BUCKET
  }

  datatype Pos = Pos(bucket: nat, slot: nat)

  predicate In<V>(t: Table<V>, p: Pos) {
    p.bucket < |t| && p.slot < SLOTS_PER_BUCKET
  }

  function KeyAt<V>(t: Table<V>, p: Pos): Key
    requires Shaped(t) && In(t, p)
  {
    t[p.bucket].keys[p.slot]
  }

  function ValueAt<V>(t: Table<V>, p: Pos): V
    requires Shaped(t) && In(t, p)
  {
    t[p.bucket].values[p.slot]
  }

  predicate Used<V>(t: Table<V>, p: Pos)
    requires Shaped(t)
  {
    In(t, p) && KeyAt(t, p) != UNUSED_SLOT
  }

  // InsertInternal and the store half of CopyItem
  function Put<V>(t: Table<V>, p: Pos, k: Key, v: V): (t': Table<V>)
    requires Shaped(t) && In(t, p)
    ensures Shaped(t') && |t'| == |t|
    ensures KeyAt(t', p) == k && ValueAt(t', p) == v
    ensures forall q | In(t, q) && q != p :: KeyAt(t', q) == KeyAt(t, q) && ValueAt(t', q) == ValueAt(t, q)
  {
    var bucket := t[p.bucket];
    t[p.bucket := Bucket(bucket.keys[p.slot := k], bucket.values[p.slot := v])]
  }

  // Leaving out the slot `hole`, the table holds exactly the entries of m: every other used slot is
  // an entry in a bucket where its key may live, and the entry of k is in the one slot place[k].
  ghost predicate PlacedAt<V>(t: Table<V>, hole: Pos, m: map<Key, V>, place: map<Key, Pos>) {
    && Shaped(t) && |t| > 0
    && (forall p | Used(t, p) && p != hole ::
          && KeyAt(t, p) in m && m[KeyAt(t, p)] == ValueAt(t, p)
          && KeyAt(t, p) in place && place[KeyAt(t, p)] == p
          && CanLive(KeyAt(t, p), p.bucket, |t|))
    && (forall k <- m ::
          k < UNUSED_SLOT && k in place && Used(t, place[k]) && place[k] != hole && KeyAt(t, place[k]) == k)
  }

  ghost predicate Represents<V>(t: Table<V>, hole: Pos, m: map<Key, V>) {
    Shaped(t) && |t| > 0 && exists place :: PlacedAt(t, hole, m, place)
  }

  lemma RepresentsIsShaped<V>(t: Table<V>, m: map<Key, V>)
    requires Represents(t, NOWHERE, m)
    ensures Shaped(t) && |t| > 0
  {
  }

  // A slot that is in no table, to say that nothing is left out.
  const NOWHERE: Pos := Pos(0, SLOTS_PER_BUCKET)

  lemma FreeSlotIsAHole<V>(t: Table<V>, p: Pos, m: map<Key, V>)
    requires Represents(t, NOWHERE, m) && In(t, p) && !Used(t, p)
    ensures Represents(t, p, m)
  {
    hide CanLive;
    var place: map<Key, Pos> :| PlacedAt(t, NOWHERE, m, place);
    assert PlacedAt(t, p, m, place);
  }

  // Copying an entry into the hole moves the hole to where the entry came from.
  lemma CopyMovesHole<V>(t: Table<V>, hole: Pos, p: Pos, m: map<Key, V>)
    requires Represents(t, hole, m) && In(t, hole) && Used(t, p) && p != hole
    requires CanLive(KeyAt(t, p), hole.bucket, |t|)
    ensures Represents(Put(t, hole, KeyAt(t, p), ValueAt(t, p)), p, m)
  {
    hide CanLive, Put, KeyAt, ValueAt;
    var place :| PlacedAt(t, hole, m, place);
    var k := KeyAt(t, p);
    assert PlacedAt(Put(t, hole, k, ValueAt(t, p)), p, m, place[k := hole]);
  }

  // Writing a new entry into the hole completes the table.
  lemma FillHole<V>(t: Table<V>, hole: Pos, k: Key, v: V, m: map<Key, V>)
    requires Represents(t, hole, m) && In(t, hole) && k < UNUSED_SLOT && k !in m
    requires CanLive(k, hole.bucket, |t|)
    ensures Represents(Put(t, hole, k, v), NOWHERE, m[k := v])
  {
    hide CanLive, Put, KeyAt, ValueAt;
    var place :| PlacedAt(t, hole, m, place);
    assert PlacedAt(Put(t, hole, k, v), NOWHERE, m[k := v], place[k := hole]);
  }

  // Two slots with the same key: no map describes such a table.
  ghost predicate HoldsTwice<V>(t: Table<V>, k: Key)
    requires Shaped(t)
  {
    exists p, q | Used(t, p) && Used(t, q) && p != q :: KeyAt(t, p) == k && KeyAt(t, q) == k
  }

  lemma TwiceIsNoMap<V>(t: Table<V>, k: Key, m: map<Key, V>)
    requires Shaped(t) && HoldsTwice(t, k)
    ensures !Represents(t, NOWHERE, m)
  {
    hide CanLive, KeyAt, ValueAt;
    var p, q :| Used(t, p) && Used(t, q) && p != q && KeyAt(t, p) == k && KeyAt(t, q) == k;
    assert p != NOWHERE && q != NOWHERE;
  }

  // Writing a key into the hole that is in the table already.
  lemma FillHoleTwice<V>(t: Table<V>, hole: Pos, k: Key, v: V, m: map<Key, V>)
    requires Represents(t, hole, m) && In(t, hole) && k < UNUSED_SLOT && k in m
    ensures HoldsTwice(Put(t, hole, k, v), k)
  {
    hide CanLive, Put, KeyAt, ValueAt;
    var place: map<Key, Pos> :| PlacedAt(t, hole, m, place);
    var t' := Put(t, hole, k, v);
    assert Used(t', hole) && Used(t', place[k]) && hole != place[k];
  }

  // Every used slot is an entry, and the only one with its key.
  lemma UsedIsEntry<V>(t: Table<V>, m: map<Key, V>, p: Pos)
    requires Represents(t, NOWHERE, m) && Used(t, p)
    ensures KeyAt(t, p) < UNUSED_SLOT && KeyAt(t, p) in m && m[KeyAt(t, p)] == ValueAt(t, p)
    ensures CanLive(KeyAt(t, p), p.bucket, |t|)
    ensures forall q | Used(t, q) && KeyAt(t, q) == KeyAt(t, p) :: q == p
  {
    hide CanLive;
    var place: map<Key, Pos> :| PlacedAt(t, NOWHERE, m, place);
  }

  // A key is found in its two buckets or nowhere.
  lemma KeyIsInItsBuckets<V>(t: Table<V>, m: map<Key, V>, k: Key)
    requires Represents(t, NOWHERE, m) && k < UNUSED_SLOT
    ensures k in m <==> exists p :: Used(t, p) && CanLive(k, p.bucket, |t|) && KeyAt(t, p) == k
  {
    hide CanLive;
    var place: map<Key, Pos> :| PlacedAt(t, NOWHERE, m, place);
    if k in m {
      assert Used(t, place[k]) && CanLive(k, place[k].bucket, |t|) && KeyAt(t, place[k]) == k;
    }
  }
}
