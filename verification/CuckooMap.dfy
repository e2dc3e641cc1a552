/**
 The presized cuckoo map: lookup in two buckets, insertion by a breadth-first search for a cuckoo
 path over fixed-size arrays, followed by moving the entries along the path.
*/
module CuckooMap {
  import opened Finite
  import opened CuckooTable

  const MAX_BFS_PATH_LEN: nat := 5
  const MAX_QUEUE_SIZE: nat := 682
  const VISITED_LIST_SIZE: nat := 170

  // A bucket to look at; the entry that would move there is in slot `slot` of the visited bucket
  // number `parent`.  The two roots have depth 1.
  datatype PathEntry = PathEntry(bucket: nat, depth: nat, parent: nat, slot: nat)

  // ----- The ring of entries still to be looked at -----

  ghost function Ring(slots: seq<PathEntry>, head: nat, tail: nat): seq<PathEntry>
    requires head < |slots| && tail < |slots|
  {
    if head <= tail then slots[head..tail] else slots[head..] + slots[..tail]
  }

  lemma PushRing(slots: seq<PathEntry>, head: nat, tail: nat, next: nat, e: PathEntry)
    requires head < |slots| && tail < |slots| && |Ring(slots, head, tail)| < |slots| - 1
    requires next == if tail + 1 < |slots| then tail + 1 else 0
    ensures Ring(slots[tail := e], head, next) == Ring(slots, head, tail) + [e]
  {
    var slots' := slots[tail := e];
    if next == 0 {
      assert slots'[head..] == slots[head..tail] + [e];
    } else if head > tail {
      assert slots'[..tail + 1] == slots[..tail] + [e];
      assert slots'[head..] == slots[head..];
    }
  }

  lemma PopRing(slots: seq<PathEntry>, head: nat, tail: nat, next: nat)
    requires head < |slots| && tail < |slots| && head != tail
    requires next == if head + 1 < |slots| then head + 1 else 0
    ensures Ring(slots, head, tail) == [slots[head]] + Ring(slots, next, tail)
  {
    if head < tail {
      assert slots[head..tail] == [slots[head]] + slots[head + 1..tail];
    } else {
      assert slots[head..] == [slots[head]] + slots[head + 1..];
      assert slots[head..] + slots[..tail] == [slots[head]] + (slots[head + 1..] + slots[..tail]);
      if next == 0 { assert slots[head + 1..] + slots[..tail] == slots[0..tail]; }
    }
  }

  class CuckooPathQueue {
    const queue: array<PathEntry>
    var head: nat
    var tail: nat

    ghost predicate Valid()
      reads this
    {
      queue.Length == MAX_QUEUE_SIZE && head < MAX_QUEUE_SIZE && tail < MAX_QUEUE_SIZE
    }

    ghost function Contents(): seq<PathEntry>
      reads this, queue
      requires Valid()
    {
      Ring(queue[..], head, tail)
    }

    constructor ()
      ensures Valid() && Contents() == [] && fresh(queue)
    {
      queue := new PathEntry[MAX_QUEUE_SIZE];
      head, tail := 0, 0;
    }

    method Reset()
      requires Valid()
      modifies this
      ensures Valid() && Contents() == []
    {
      head, tail := 0, 0;
    }

    // The ring holds one entry less than it has slots; the search never needs more.
    method PushBack(e: PathEntry)
      requires Valid() && |Contents()| < MAX_QUEUE_SIZE - 1
      modifies this, queue
      ensures Valid() && Contents() == old(Contents()) + [e]
    {
      PushRing(queue[..], head, tail, (tail + 1) % MAX_QUEUE_SIZE, e);
      queue[tail] := e;
      tail := (tail + 1) % MAX_QUEUE_SIZE;
    }

    method PopFront() returns (e: PathEntry)
      requires Valid() && Contents() != []
      modifies this
      ensures Valid() && old(Contents()) == [e] + Contents()
    {
      PopRing(queue[..], head, tail, (head + 1) % MAX_QUEUE_SIZE);
      e := queue[head];
      head := (head + 1) % MAX_QUEUE_SIZE;
    }

    method Empty() returns (empty: bool)
      requires Valid()
      ensures empty <==> Contents() == []
    {
      empty := head == tail;
    }
  }

  // ----- Cuckoo paths -----

  ghost predicate Full<V>(t: Table<V>, b: nat)
    requires Shaped(t)
  {
    forall s | 0 <= s < SLOTS_PER_BUCKET :: Used(t, Pos(b, s))
  }

  // How an entry hangs on the visited ones: the key in its parent's slot can move here, and here is
  // not where the parent came from.
  ghost predicate Linked<V>(t: Table<V>, visited: seq<PathEntry>, roots: (nat, nat), e: PathEntry)
    requires Shaped(t)
  {
    && e.bucket < |t|
    && 1 <= e.depth <= MAX_BFS_PATH_LEN
    && (if e.depth == 1 then
          e.parent == 0 && (e.bucket == roots.0 || e.bucket == roots.1)
        else
          && e.parent < |visited|
          && var p := visited[e.parent];
             && p.depth + 1 == e.depth
             && Used(t, Pos(p.bucket, e.slot))
             && AltBucket(KeyAt(t, Pos(p.bucket, e.slot)), p.bucket, |t|) == e.bucket
             && p.parent < |visited|
             && e.bucket != visited[p.parent].bucket)
  }

  ghost predicate VisitedOk<V>(t: Table<V>, visited: seq<PathEntry>, roots: (nat, nat))
    requires Shaped(t)
  {
    forall j | 0 <= j < |visited| ::
      && Linked(t, visited, roots, visited[j])
      && visited[j].depth < MAX_BFS_PATH_LEN
      && Full(t, visited[j].bucket)
  }

  // The slots the entries on the path to e move out of, the one nearest to e first.
  ghost function Sources(visited: seq<PathEntry>, e: PathEntry): seq<Pos>
    decreases e.depth
  {
    if e.depth > 1 && e.parent < |visited| && visited[e.parent].depth + 1 == e.depth then
      [Pos(visited[e.parent].bucket, e.slot)] + Sources(visited, visited[e.parent])
    else []
  }

  lemma LinkedMonotone<V>(t: Table<V>, visited: seq<PathEntry>, more: seq<PathEntry>, roots: (nat, nat), e: PathEntry)
    requires Shaped(t) && Linked(t, visited, roots, e)
    ensures Linked(t, visited + more, roots, e)
  {
    if e.depth > 1 {
      assert (visited + more)[e.parent] == visited[e.parent];
    }
  }

  // Entries that would move out of the same slot would move into the same bucket.
  lemma SameSource<V>(t: Table<V>, visited: seq<PathEntry>, roots: (nat, nat), a: PathEntry, b: PathEntry)
    requires Shaped(t) && Linked(t, visited, roots, a) && Linked(t, visited, roots, b)
    requires a.depth >= 2 && b.depth >= 2
    requires Pos(visited[a.parent].bucket, a.slot) == Pos(visited[b.parent].bucket, b.slot)
    ensures a.bucket == b.bucket
  {
  }

  lemma {:induction false} SourcesOk<V>(t: Table<V>, visited: seq<PathEntry>, roots: (nat, nat), e: PathEntry)
    requires Shaped(t) && VisitedOk(t, visited, roots) && Linked(t, visited, roots, e)
    ensures |Sources(visited, e)| == e.depth - 1
    ensures forall q <- Sources(visited, e) :: Used(t, q) && Full(t, q.bucket)
    decreases e.depth
  {
    if e.depth > 1 {
      SourcesOk(t, visited, roots, visited[e.parent]);
    }
  }

  // A source is not used again one or two steps further up.
  lemma NearSourcesDiffer<V>(t: Table<V>, visited: seq<PathEntry>, roots: (nat, nat), e: PathEntry)
    requires Shaped(t) && VisitedOk(t, visited, roots) && Linked(t, visited, roots, e)
    ensures var src := Sources(visited, e);
      && (|src| >= 2 ==> src[0] != src[1])
      && (|src| >= 3 ==> src[0] != src[2])
  {
    hide AltBucket, Full, FirstBucket, SecondBucket, CanLive, KeyAt;
    SourcesOk(t, visited, roots, e);
    if e.depth >= 3 {
      var p := visited[e.parent];
      var g := visited[p.parent];
      assert Linked(t, visited, roots, p) && Linked(t, visited, roots, g);
      FirstSource(visited, e);
      FirstSource(visited, p);
      if Pos(p.bucket, e.slot) == Pos(g.bucket, p.slot) {
        SameSource(t, visited, roots, e, p);
      }
      if e.depth >= 4 {
        FirstSource(visited, g);
        if Pos(p.bucket, e.slot) == Pos(visited[g.parent].bucket, g.slot) {
          SameSource(t, visited, roots, e, g);
        }
      }
    }
  }

  lemma FirstSource(visited: seq<PathEntry>, e: PathEntry)
    requires e.depth > 1 && e.parent < |visited| && visited[e.parent].depth + 1 == e.depth
    ensures Sources(visited, e) == [Pos(visited[e.parent].bucket, e.slot)] + Sources(visited, visited[e.parent])
  {
  }

  // ... nor three steps further up, when the path ends in a bucket with room.
  lemma FarSourcesDiffer<V>(t: Table<V>, visited: seq<PathEntry>, roots: (nat, nat), e: PathEntry)
    requires Shaped(t) && VisitedOk(t, visited, roots) && Linked(t, visited, roots, e)
    requires !Full(t, e.bucket)
    ensures var src := Sources(visited, e);
      |src| >= 4 ==> src[0] != src[3]
  {
    hide AltBucket, Full, FirstBucket, SecondBucket, CanLive;
    SourcesOk(t, visited, roots, e);
    if e.depth >= 5 {
      var p := visited[e.parent];
      var g := visited[p.parent];
      var h := visited[g.parent];
      assert Linked(t, visited, roots, h) && Full(t, h.bucket);
      SourcesOk(t, visited, roots, h);
      FirstSource(visited, h);
      FirstSource(visited, g);
      FirstSource(visited, p);
      FirstSource(visited, e);
      assert Sources(visited, e)[3] == Pos(visited[h.parent].bucket, h.slot);
      if Pos(p.bucket, e.slot) == Pos(visited[h.parent].bucket, h.slot) {
        SameSource(t, visited, roots, e, h);
      }
    }
  }

  lemma {:induction false} VisitedPathIsDistinct<V>(t: Table<V>, visited: seq<PathEntry>, roots: (nat, nat),
                                                    e: PathEntry)
    requires Shaped(t) && VisitedOk(t, visited, roots) && Linked(t, visited, roots, e)
    requires e.depth < MAX_BFS_PATH_LEN
    ensures NoDup(Sources(visited, e))
    decreases e.depth
  {
    hide AltBucket, Full, FirstBucket, SecondBucket, CanLive;
    SourcesOk(t, visited, roots, e);
    if e.depth > 1 {
      VisitedPathIsDistinct(t, visited, roots, visited[e.parent]);
      NearSourcesDiffer(t, visited, roots, e);
    }
  }

  // The key lemma: a path that ends in a bucket with room never uses a slot twice.  Neighbours on
  // the path are kept apart by the skip rule, and its two ends by the room at the end.
  lemma PathIsDistinct<V>(t: Table<V>, visited: seq<PathEntry>, roots: (nat, nat), e: PathEntry)
    requires Shaped(t) && VisitedOk(t, visited, roots) && Linked(t, visited, roots, e)
    requires !Full(t, e.bucket)
    ensures NoDup(Sources(visited, e))
  {
    hide AltBucket, Full, FirstBucket, SecondBucket, CanLive;
    SourcesOk(t, visited, roots, e);
    if e.depth > 1 {
      VisitedPathIsDistinct(t, visited, roots, visited[e.parent]);
      NearSourcesDiffer(t, visited, roots, e);
      FarSourcesDiffer(t, visited, roots, e);
    }
  }

  // Half-way along the path: slot `slot` of e's bucket is the hole, the slots still to be moved
  // are as they were when the search saw them, and none is used twice.
  ghost predicate OnPath<V>(t: Table<V>, now: Table<V>, visited: seq<PathEntry>, roots: (nat, nat), m: map<Key, V>,
                            e: PathEntry, slot: nat) {
    && Shaped(t) && Shaped(now) && |now| == |t|
    && VisitedOk(t, visited, roots) && Linked(t, visited, roots, e)
    && slot < SLOTS_PER_BUCKET
    && Represents(now, Pos(e.bucket, slot), m)
    && NoDup(Sources(visited, e))
    && (forall q <- Sources(visited, e) ::
          q != Pos(e.bucket, slot) && Used(t, q) && In(now, q) && KeyAt(now, q) == KeyAt(t, q))
  }

  function MoveOne<V>(now: Table<V>, parent: PathEntry, e: PathEntry, slot: nat): Table<V>
    requires Shaped(now) && In(now, Pos(parent.bucket, e.slot)) && In(now, Pos(e.bucket, slot))
  {
    var p := Pos(parent.bucket, e.slot);
    Put(now, Pos(e.bucket, slot), KeyAt(now, p), ValueAt(now, p))
  }

  lemma MoveStep<V>(t: Table<V>, now: Table<V>, visited: seq<PathEntry>, roots: (nat, nat), m: map<Key, V>,
                    e: PathEntry, slot: nat)
    requires OnPath(t, now, visited, roots, m, e, slot) && e.depth > 1
    ensures var parent := visited[e.parent];
      && In(now, Pos(parent.bucket, e.slot)) && In(now, Pos(e.bucket, slot))
      && OnPath(t, MoveOne(now, parent, e, slot), visited, roots, m, parent, e.slot)
  {
    hide Represents, FirstBucket, SecondBucket, Put, KeyAt, ValueAt, CanLive;
    var parent := visited[e.parent];
    var hole, p, rest := Pos(e.bucket, slot), Pos(parent.bucket, e.slot), Sources(visited, parent);
    assert Sources(visited, e) == [p] + rest;
    assert p in Sources(visited, e);
    AltCanLive(KeyAt(t, p), parent.bucket, |t|);
    CopyMovesHole(now, hole, p, m);
    forall q <- rest ensures q in Sources(visited, e) && q != p {
      var i :| 0 <= i < |rest| && rest[i] == q;
      assert Sources(visited, e)[0] != Sources(visited, e)[i + 1];
    }
    forall i, j | 0 <= i < j < |rest| ensures rest[i] != rest[j] {
      assert Sources(visited, e)[i + 1] != Sources(visited, e)[j + 1];
    }
  }

  lemma StartPath<V>(t: Table<V>, visited: seq<PathEntry>, roots: (nat, nat), m: map<Key, V>, e: PathEntry, slot: nat)
    requires Represents(t, NOWHERE, m)
    requires VisitedOk(t, visited, roots) && Linked(t, visited, roots, e)
    requires slot < SLOTS_PER_BUCKET && !Used(t, Pos(e.bucket, slot))
    ensures OnPath(t, t, visited, roots, m, e, slot)
  {
    hide FirstBucket, SecondBucket, CanLive;
    PathIsDistinct(t, visited, roots, e);
    SourcesOk(t, visited, roots, e);
    FreeSlotIsAHole(t, Pos(e.bucket, slot), m);
  }

  // Writing k at the end of the path adds it, or makes it the second entry with that key.
  lemma FinishPath<V>(t: Table<V>, now: Table<V>, visited: seq<PathEntry>, m: map<Key, V>, e: PathEntry, slot: nat,
                      k: Key, v: V)
    requires OnPath(t, now, visited, (FirstBucket(k, |t|), SecondBucket(k, |t|)), m, e, slot)
    requires e.depth == 1 && k < UNUSED_SLOT
    ensures In(now, Pos(e.bucket, slot))
    ensures Represents(Put(now, Pos(e.bucket, slot), k, v), NOWHERE, m[k := v]) <==> k !in m
    ensures k in m ==> HoldsTwice(Put(now, Pos(e.bucket, slot), k, v), k)
  {
    hide FirstBucket, SecondBucket, CanLive, Put, Represents, HoldsTwice;
    var hole := Pos(e.bucket, slot);
    if k in m {
      FillHoleTwice(now, hole, k, v, m);
      TwiceIsNoMap(Put(now, hole, k, v), k, m[k := v]);
    } else {
      RootsCanLive(k, e.bucket, |t|);
      FillHole(now, hole, k, v, m);
    }
  }

  // ----- The size of a search -----

  // How many entries a search can still push below an entry of this depth, itself included, and how
  // many of these have a depth that is recorded in the visited list.
  function Pushes(depth: nat): nat
    decreases MAX_BFS_PATH_LEN - depth
  {
    if depth >= MAX_BFS_PATH_LEN then 1 else 1 + SLOTS_PER_BUCKET * Pushes(depth + 1)
  }

  function Visits(depth: nat): nat
    decreases MAX_BFS_PATH_LEN - depth
  {
    if depth >= MAX_BFS_PATH_LEN then 0 else 1 + SLOTS_PER_BUCKET * Visits(depth + 1)
  }

  ghost function PushBudget(q: seq<PathEntry>): nat {
    if q == [] then 0 else Pushes(q[0].depth) - 1 + PushBudget(q[1..])
  }

  ghost function VisitBudget(q: seq<PathEntry>): nat {
    if q == [] then 0 else Visits(q[0].depth) + VisitBudget(q[1..])
  }

  lemma {:induction false} BudgetOfPush(q: seq<PathEntry>, e: PathEntry)
    ensures PushBudget(q + [e]) == PushBudget(q) + Pushes(e.depth) - 1
    ensures VisitBudget(q + [e]) == VisitBudget(q) + Visits(e.depth)
  {
    if q != [] {
      BudgetOfPush(q[1..], e);
      assert (q + [e])[1..] == q[1..] + [e];
    } else {
      assert (q + [e])[1..] == [];
    }
  }

  // All that is left to do for the entries in the queue.
  ghost function Work(q: seq<PathEntry>): nat {
    PushBudget(q) + |q|
  }

  lemma BudgetOfPop(q: seq<PathEntry>, e: PathEntry)
    ensures PushBudget([e] + q) == PushBudget(q) + Pushes(e.depth) - 1
    ensures VisitBudget([e] + q) == VisitBudget(q) + Visits(e.depth)
    ensures e.depth < MAX_BFS_PATH_LEN ==>
      Pushes(e.depth) == 1 + 4 * Pushes(e.depth + 1) && Visits(e.depth) == 1 + 4 * Visits(e.depth + 1)
  {
    assert ([e] + q)[1..] == q;
  }

  // The two roots account for the sizes of the two arrays exactly.
  lemma ArraySizes()
    ensures 2 * Pushes(1) == MAX_QUEUE_SIZE
    ensures 2 * Visits(1) == VISITED_LIST_SIZE
  {
    assert Pushes(5) == 1 && Pushes(4) == 5 && Pushes(3) == 21 && Pushes(2) == 85 && Pushes(1) == 341;
    assert Visits(5) == 0 && Visits(4) == 1 && Visits(3) == 5 && Visits(2) == 21 && Visits(1) == 85;
  }

  lemma VisitedExtends<V>(t: Table<V>, visited: seq<PathEntry>, roots: (nat, nat), e: PathEntry)
    requires Shaped(t) && VisitedOk(t, visited, roots) && Linked(t, visited, roots, e)
    requires e.depth < MAX_BFS_PATH_LEN && Full(t, e.bucket)
    ensures VisitedOk(t, visited + [e], roots)
  {
    hide AltBucket, Full, FirstBucket, SecondBucket, CanLive;
    forall j | 0 <= j < |visited + [e]| ensures Linked(t, visited + [e], roots, (visited + [e])[j]) {
      LinkedMonotone(t, visited, [e], roots, (visited + [e])[j]);
    }
  }

  // A child of the last visited entry e, in the alternative bucket of the key in one of e's slots.
  lemma ChildIsLinked<V>(t: Table<V>, visited: seq<PathEntry>, roots: (nat, nat), e: PathEntry, slot: nat,
                         m: map<Key, V>)
    requires Represents(t, NOWHERE, m) && slot < SLOTS_PER_BUCKET
    requires Linked(t, visited, roots, e) && e.depth < MAX_BFS_PATH_LEN && Full(t, e.bucket)
    requires In(t, Pos(e.bucket, slot))
    ensures var child := PathEntry(AltBucket(KeyAt(t, Pos(e.bucket, slot)), e.bucket, |t|), e.depth + 1, |visited|,
      slot);
      var visited' := visited + [e];
      && e.parent < |visited'|
      && (child.bucket != visited'[e.parent].bucket ==> Linked(t, visited', roots, child))
  {
    hide FirstBucket, SecondBucket, CanLive;
    var p := Pos(e.bucket, slot);
    UsedIsEntry(t, m, p);
    BucketsInRange(KeyAt(t, p), |t|);
  }

  // The state of a search: q is still to be looked at, vs has been visited, `pushes` entries have
  // been queued and `pops` taken out; more pushes and visits are budgeted for work in progress.
  ghost predicate Searching<V>(t: Table<V>, m: map<Key, V>, q: seq<PathEntry>, vs: seq<PathEntry>,
                               roots: (nat, nat), pops: nat, morePushes: nat, moreVisits: nat) {
    && Represents(t, NOWHERE, m)
    && VisitedOk(t, vs, roots)
    && (forall e <- q :: Linked(t, vs, roots, e))
    && pops + |q| + PushBudget(q) + morePushes <= MAX_QUEUE_SIZE
    && |vs| + VisitBudget(q) + moreVisits <= VISITED_LIST_SIZE
  }

  lemma SearchStarts<V>(t: Table<V>, m: map<Key, V>, roots: (nat, nat), q: seq<PathEntry>)
    requires Represents(t, NOWHERE, m) && roots.0 < |t| && roots.1 < |t|
    requires q == [PathEntry(roots.0, 1, 0, 0), PathEntry(roots.1, 1, 0, 0)]
    ensures Searching(t, m, q, [], roots, 0, 0, 0)
  {
    ArraySizes();
    BudgetOfPush([], q[0]);
    BudgetOfPush([q[0]], q[1]);
    assert [q[0]] == [] + [q[0]] && q == [q[0]] + [q[1]];
  }

  // Taking out an entry whose bucket has no room, and recording it unless it is too deep.
  lemma SearchVisits<V>(t: Table<V>, m: map<Key, V>, e: PathEntry, q: seq<PathEntry>, vs: seq<PathEntry>,
                        roots: (nat, nat), pops: nat)
    requires Searching(t, m, [e] + q, vs, roots, pops, 0, 0) && Full(t, e.bucket)
    ensures Linked(t, vs, roots, e)
    ensures Work(q) + (if e.depth < MAX_BFS_PATH_LEN then 4 * Pushes(e.depth + 1) else 0) < Work([e] + q)
    ensures e.depth >= MAX_BFS_PATH_LEN ==> Searching(t, m, q, vs, roots, pops + 1, 0, 0)
    ensures e.depth < MAX_BFS_PATH_LEN ==>
      Searching(t, m, q, vs + [e], roots, pops + 1, 4 * Pushes(e.depth + 1), 4 * Visits(e.depth + 1))
  {
    hide Represents, AltBucket, Full, FirstBucket, SecondBucket, CanLive;
    RepresentsIsShaped(t, m);
    assert forall x <- q :: x in [e] + q;
    assert e in [e] + q;
    BudgetOfPop(q, e);
    if e.depth < MAX_BFS_PATH_LEN {
      VisitedExtends(t, vs, roots, e);
      forall x <- q ensures Linked(t, vs + [e], roots, x) {
        LinkedMonotone(t, vs, [e], roots, x);
      }
    }
  }

  lemma SearchTakes<V>(t: Table<V>, m: map<Key, V>, e: PathEntry, q: seq<PathEntry>, vs: seq<PathEntry>,
                       roots: (nat, nat), pops: nat)
    requires Searching(t, m, [e] + q, vs, roots, pops, 0, 0)
    ensures Shaped(t) && VisitedOk(t, vs, roots) && Linked(t, vs, roots, e) && e.bucket < |t|
  {
    assert e in [e] + q;
  }

  lemma VisitedHasRoom<V>(t: Table<V>, m: map<Key, V>, q: seq<PathEntry>, vs: seq<PathEntry>, roots: (nat, nat),
                          pops: nat, depth: nat)
    requires Searching(t, m, q, vs, roots, pops, 4 * Pushes(depth + 1), 4 * Visits(depth + 1))
    ensures |vs| <= VISITED_LIST_SIZE
  {
  }

  lemma SearchPushes<V>(t: Table<V>, m: map<Key, V>, q: seq<PathEntry>, child: PathEntry, vs: seq<PathEntry>,
                        roots: (nat, nat), pops: nat, morePushes: nat, moreVisits: nat)
    requires Searching(t, m, q, vs, roots, pops, morePushes + Pushes(child.depth), moreVisits + Visits(child.depth))
    requires Linked(t, vs, roots, child) && pops > 0
    ensures |q| < MAX_QUEUE_SIZE - 1
    ensures Searching(t, m, q + [child], vs, roots, pops, morePushes, moreVisits)
    ensures Work(q + [child]) == Work(q) + Pushes(child.depth)
  {
    hide Represents, AltBucket, Full, FirstBucket, SecondBucket, CanLive;
    BudgetOfPush(q, child);
  }

  lemma SearchSkips<V>(t: Table<V>, m: map<Key, V>, q: seq<PathEntry>, vs: seq<PathEntry>,
                       roots: (nat, nat), pops: nat, lessPushes: nat, morePushes: nat, lessVisits: nat, moreVisits: nat)
    requires Searching(t, m, q, vs, roots, pops, morePushes, moreVisits)
    requires lessPushes <= morePushes && lessVisits <= moreVisits
    ensures Searching(t, m, q, vs, roots, pops, lessPushes, lessVisits)
  {
  }

  // One of the four children of e, the last visited entry, unless it is where e came from.
  lemma SearchChild<V>(t: Table<V>, m: map<Key, V>, q: seq<PathEntry>, vs: seq<PathEntry>, e: PathEntry,
                       child: PathEntry,
                       roots: (nat, nat), pops: nat, more: nat, moreVisits: nat)
    requires Shaped(t) && pops > 0 && child.slot < SLOTS_PER_BUCKET && In(t, Pos(e.bucket, child.slot))
    requires child == PathEntry(AltBucket(KeyAt(t, Pos(e.bucket, child.slot)), e.bucket, |t|), e.depth + 1, |vs|,
      child.slot)
    requires Linked(t, vs, roots, e) && e.depth < MAX_BFS_PATH_LEN && Full(t, e.bucket)
    requires Searching(t, m, q, vs + [e], roots, pops, more + Pushes(child.depth), moreVisits + Visits(child.depth))
    requires e.parent < |vs| + 1 && child.bucket != (vs + [e])[e.parent].bucket
    ensures |q| < MAX_QUEUE_SIZE - 1
    ensures Searching(t, m, q + [child], vs + [e], roots, pops, more, moreVisits)
    ensures Work(q + [child]) == Work(q) + Pushes(child.depth)
  {
    hide AltBucket, Full, Work, Linked, KeyAt, Pushes, Visits, PushBudget, VisitBudget, VisitedOk, Represents,
         FirstBucket, SecondBucket, CanLive;
    ChildIsLinked(t, vs, roots, e, child.slot, m);
    hide Searching, FirstBucket, SecondBucket, CanLive;
    SearchPushes(t, m, q, child, vs + [e], roots, pops, more, moreVisits);
  }

  lemma ParentIsVisited<V>(t: Table<V>, vs: seq<PathEntry>, roots: (nat, nat), e: PathEntry)
    requires Shaped(t) && Linked(t, vs, roots, e)
    ensures e.bucket < |t| && e.parent < |vs| + 1
  {
  }

  ghost predicate NotIn<V>(t: Table<V>, b: nat, k: Key, slots: nat)
    requires Shaped(t) && b < |t| && slots <= SLOTS_PER_BUCKET
  {
    forall s | 0 <= s < slots :: KeyAt(t, Pos(b, s)) != k
  }

  // The target of an insertion: an unused slot of one of the candidates, or none so far.
  ghost predicate TargetOk<V>(t: Table<V>, candidates: seq<nat>, b: nat, slot: nat)
    requires Shaped(t)
  {
    slot <= SLOTS_PER_BUCKET && (slot < SLOTS_PER_BUCKET ==> b in candidates && !Used(t, Pos(b, slot)))
  }

  lemma KeyIsThere<V>(t: Table<V>, m: map<Key, V>, b: nat, k: Key)
    requires Represents(t, NOWHERE, m) && k < UNUSED_SLOT && b < |t| && !NotIn(t, b, k, SLOTS_PER_BUCKET)
    ensures k in m
  {
    hide CanLive;
    var s :| 0 <= s < SLOTS_PER_BUCKET && KeyAt(t, Pos(b, s)) == k;
    UsedIsEntry(t, m, Pos(b, s));
  }

  lemma KeyIsNowhere<V>(t: Table<V>, m: map<Key, V>, k: Key)
    requires Represents(t, NOWHERE, m) && k < UNUSED_SLOT
    requires FirstBucket(k, |t|) < |t| && NotIn(t, FirstBucket(k, |t|), k, SLOTS_PER_BUCKET)
    requires SecondBucket(k, |t|) < |t| && NotIn(t, SecondBucket(k, |t|), k, SLOTS_PER_BUCKET)
    ensures k !in m
  {
    hide FirstBucket, SecondBucket;
    KeyIsInItsBuckets(t, m, k);
  }

  lemma FillFreeSlot<V>(t: Table<V>, p: Pos, k: Key, v: V, m: map<Key, V>)
    requires Represents(t, NOWHERE, m) && In(t, p) && !Used(t, p) && k < UNUSED_SLOT && k !in m
    requires CanLive(k, p.bucket, |t|)
    ensures Represents(Put(t, p, k, v), NOWHERE, m[k := v])
  {
    FreeSlotIsAHole(t, p, m);
    FillHole(t, p, k, v, m);
  }

  // What four children cost when i of them are done and each costs w.
  function Rest(i: nat, w: nat): nat {
    if i == 0 then 4 * w else if i == 1 then 3 * w else if i == 2 then 2 * w else if i == 3 then w else 0
  }

  // The first i children of e, the visited entry number `index`: the alternative buckets of the keys
  // in its slots, starting at a slot that depends on k, without the bucket e came from.
  function Children<V>(t: Table<V>, k: Key, e: PathEntry, index: nat, parentBucket: nat, i: nat): seq<PathEntry>
    requires Shaped(t) && e.bucket < |t|
  {
    if i == 0 then [] else
      var slot := ((k + e.bucket) % SLOTS_PER_BUCKET + (i - 1)) % SLOTS_PER_BUCKET;
      var next := AltBucket(KeyAt(t, Pos(e.bucket, slot)), e.bucket, |t|);
      Children(t, k, e, index, parentBucket, i - 1) +
      (if next != parentBucket then [PathEntry(next, e.depth + 1, index, slot)] else [])
  }

  // Queueing the children keeps the search within its budget.
  lemma {:induction false} ChildrenFit<V>(t: Table<V>, m: map<Key, V>, q: seq<PathEntry>, vs: seq<PathEntry>, k: Key,
                                          e: PathEntry,
                                          roots: (nat, nat), pops: nat, i: nat)
    requires Shaped(t) && i <= 4 && pops > 0
    requires Linked(t, vs, roots, e) && e.depth < MAX_BFS_PATH_LEN && Full(t, e.bucket) && e.bucket < |t|
      && e.parent < |vs| + 1
    requires Searching(t, m, q, vs + [e], roots, pops, 4 * Pushes(e.depth + 1), 4 * Visits(e.depth + 1))
    ensures var q' := q + Children(t, k, e, |vs|, (vs + [e])[e.parent].bucket, i);
      && Searching(t, m, q', vs + [e], roots, pops, Rest(i, Pushes(e.depth + 1)), Rest(i, Visits(e.depth + 1)))
      && Work(q') + Rest(i, Pushes(e.depth + 1)) <= Work(q) + 4 * Pushes(e.depth + 1)
  {
    hide Represents, Linked, AltBucket, Full, Searching, Work, Pushes, Visits, KeyAt, Shaped, FirstBucket,
         SecondBucket, CanLive;
    var w, wv, parentBucket := Pushes(e.depth + 1), Visits(e.depth + 1), (vs + [e])[e.parent].bucket;
    if i == 0 {
      assert q + [] == q;
    } else {
      ChildrenFit(t, m, q, vs, k, e, roots, pops, i - 1);
      var q1 := q + Children(t, k, e, |vs|, parentBucket, i - 1);
      var slot := ((k + e.bucket) % SLOTS_PER_BUCKET + (i - 1)) % SLOTS_PER_BUCKET;
      var child := PathEntry(AltBucket(KeyAt(t, Pos(e.bucket, slot)), e.bucket, |t|), e.depth + 1, |vs|, slot);
      assert Rest(i - 1, w) == Rest(i, w) + w && Rest(i - 1, wv) == Rest(i, wv) + wv;
      if child.bucket != parentBucket {
        SearchChild(t, m, q1, vs, e, child, roots, pops, Rest(i, w), Rest(i, wv));
        assert q + Children(t, k, e, |vs|, parentBucket, i) == q1 + [child];
      } else {
        SearchSkips(t, m, q1, vs + [e], roots, pops, Rest(i, w), Rest(i - 1, w), Rest(i, wv), Rest(i - 1, wv));
        assert q + Children(t, k, e, |vs|, parentBucket, i) == q1;
      }
    }
  }

  // The ring has room for the next child.
  lemma ChildHasRoom<V>(t: Table<V>, m: map<Key, V>, q: seq<PathEntry>, vs: seq<PathEntry>, k: Key, e: PathEntry,
                        roots: (nat, nat), pops: nat, i: nat)
    requires Shaped(t) && i < 4 && pops > 0
    requires Linked(t, vs, roots, e) && e.depth < MAX_BFS_PATH_LEN && Full(t, e.bucket) && e.bucket < |t|
      && e.parent < |vs| + 1
    requires Searching(t, m, q, vs + [e], roots, pops, 4 * Pushes(e.depth + 1), 4 * Visits(e.depth + 1))
    ensures |q + Children(t, k, e, |vs|, (vs + [e])[e.parent].bucket, i)| < MAX_QUEUE_SIZE - 1
  {
    hide Represents, Linked, AltBucket, Full, KeyAt, Shaped, VisitedOk, Children, FirstBucket, SecondBucket, CanLive;
    ChildrenFit(t, m, q, vs, k, e, roots, pops, i);
    assert Rest(i, Pushes(e.depth + 1)) >= 1;
  }

  // ----- A failed search has tried everything -----

  // The bucket that the key in slot s of e's bucket could move to.
  ghost function NextBucket<V>(t: Table<V>, e: PathEntry, s: nat): nat
    requires Shaped(t) && e.bucket < |t| && s < SLOTS_PER_BUCKET
  {
    AltBucket(KeyAt(t, Pos(e.bucket, s)), e.bucket, |t|)
  }

  // No bucket within d moves of b has room.
  ghost predicate FullWithin<V>(t: Table<V>, b: nat, d: nat)
    requires Shaped(t)
    decreases d
  {
    b < |t| && Full(t, b) &&
    (d > 0 ==> forall s: nat | s < SLOTS_PER_BUCKET :: FullWithin(t, AltBucket(KeyAt(t, Pos(b, s)), b, |t|), d - 1))
  }

  // Bucket b at depth d is queued, visited, or known to be full at the last depth.
  ghost predicate Known(q: seq<PathEntry>, vs: seq<PathEntry>, deep: set<nat>, b: nat, d: nat) {
    || (exists c <- q :: c.bucket == b && c.depth == d)
    || (exists c <- vs :: c.bucket == b && c.depth == d)
    || (d == MAX_BFS_PATH_LEN && b in deep)
  }

  // A visited entry: every bucket its keys could move to is known, or is where it came from.
  ghost predicate Covered<V>(t: Table<V>, q: seq<PathEntry>, vs: seq<PathEntry>, deep: set<nat>, e: PathEntry)
    requires Shaped(t)
  {
    && e.bucket < |t| && e.parent < |vs| && Full(t, e.bucket)
    && 1 <= vs[e.parent].depth <= e.depth < MAX_BFS_PATH_LEN
    && forall s: nat | s < SLOTS_PER_BUCKET ::
         NextBucket(t, e, s) == vs[e.parent].bucket || Known(q, vs, deep, NextBucket(t, e, s), e.depth + 1)
  }

  ghost predicate Exhaustive<V>(t: Table<V>, q: seq<PathEntry>, vs: seq<PathEntry>, deep: set<nat>, roots: (nat, nat))
    requires Shaped(t)
  {
    && (forall e <- vs :: Covered(t, q, vs, deep, e))
    && Known(q, vs, deep, roots.0, 1) && Known(q, vs, deep, roots.1, 1)
    && (forall b <- deep :: b < |t| && Full(t, b))
    && (vs != [] ==> vs[0].depth == 1)
  }

  lemma ExhaustiveStarts<V>(t: Table<V>, roots: (nat, nat))
    requires Shaped(t)
    ensures Exhaustive(t, [PathEntry(roots.0, 1, 0, 0), PathEntry(roots.1, 1, 0, 0)], [], {}, roots)
  {
    var q := [PathEntry(roots.0, 1, 0, 0), PathEntry(roots.1, 1, 0, 0)];
    assert q[0] in q && q[1] in q;
  }

  // Taking out an entry and putting it where it stays known, perhaps with new entries in the queue.
  lemma KnownStays(e: PathEntry, q: seq<PathEntry>, more: seq<PathEntry>, vs: seq<PathEntry>, deep: set<nat>, b: nat,
                   d: nat)
    requires Known([e] + q, vs, deep, b, d)
    ensures Known(q + more, vs + [e], deep, b, d)
    ensures e.depth == MAX_BFS_PATH_LEN ==> Known(q, vs, deep + {e.bucket}, b, d)
  {
    if c :| c in [e] + q && c.bucket == b && c.depth == d {
      if c == e { assert (vs + [e])[|vs|] == e; } else { assert c in q && c in q + more; }
    } else if c :| c in vs && c.bucket == b && c.depth == d {
      assert c in vs + [e];
    }
  }

  lemma CoveredStays<V>(t: Table<V>, e: PathEntry, q: seq<PathEntry>, more: seq<PathEntry>, vs: seq<PathEntry>,
                        deep: set<nat>, x: PathEntry)
    requires Shaped(t) && Covered(t, [e] + q, vs, deep, x)
    ensures Covered(t, q + more, vs + [e], deep, x)
    ensures e.depth == MAX_BFS_PATH_LEN ==> Covered(t, q, vs, deep + {e.bucket}, x)
  {
    hide Known, Full, AltBucket;
    assert (vs + [e])[x.parent] == vs[x.parent];
    forall s: nat | s < SLOTS_PER_BUCKET && NextBucket(t, x, s) != vs[x.parent].bucket
      ensures Known(q + more, vs + [e], deep, NextBucket(t, x, s), x.depth + 1)
      ensures e.depth == MAX_BFS_PATH_LEN ==> Known(q, vs, deep + {e.bucket}, NextBucket(t, x, s), x.depth + 1)
    {
      KnownStays(e, q, more, vs, deep, NextBucket(t, x, s), x.depth + 1);
    }
  }

  // An entry of the last depth.
  lemma ExhaustiveDeep<V>(t: Table<V>, e: PathEntry, q: seq<PathEntry>, vs: seq<PathEntry>, deep: set<nat>,
                          roots: (nat, nat))
    requires Shaped(t) && Exhaustive(t, [e] + q, vs, deep, roots)
    requires e.depth == MAX_BFS_PATH_LEN && e.bucket < |t| && Full(t, e.bucket)
    ensures Exhaustive(t, q, vs, deep + {e.bucket}, roots)
  {
    hide Known, Full, Covered;
    KnownStays(e, q, [], vs, deep, roots.0, 1);
    KnownStays(e, q, [], vs, deep, roots.1, 1);
    forall x <- vs ensures Covered(t, q, vs, deep + {e.bucket}, x) { CoveredStays(t, e, q, [], vs, deep, x); }
  }

  // The children include every bucket that a key of e could move to, but for the skipped one.
  lemma {:induction false} ChildrenCover<V>(t: Table<V>, k: Key, e: PathEntry, index: nat, parentBucket: nat, n: nat,
                                            i: nat)
    requires Shaped(t) && e.bucket < |t| && i < n <= SLOTS_PER_BUCKET
    ensures var slot := ((k + e.bucket) % SLOTS_PER_BUCKET + i) % SLOTS_PER_BUCKET;
      var next := NextBucket(t, e, slot);
      next == parentBucket || exists c <- Children(t, k, e, index, parentBucket, n) ::
        c.bucket == next && c.depth == e.depth + 1
    decreases n
  {
    hide AltBucket, KeyAt;
    var children := Children(t, k, e, index, parentBucket, n);
    if i == n - 1 {
      var slot := ((k + e.bucket) % SLOTS_PER_BUCKET + i) % SLOTS_PER_BUCKET;
      if NextBucket(t, e, slot) != parentBucket {
        assert children[|children| - 1] == PathEntry(NextBucket(t, e, slot), e.depth + 1, index, slot);
      }
    } else {
      ChildrenCover(t, k, e, index, parentBucket, n - 1, i);
      var fewer := Children(t, k, e, index, parentBucket, n - 1);
      assert forall c <- fewer :: c in children;
    }
  }

  lemma SlotIsTried(start: nat, s: nat) returns (i: nat)
    requires s < SLOTS_PER_BUCKET
    ensures i < SLOTS_PER_BUCKET && (start % SLOTS_PER_BUCKET + i) % SLOTS_PER_BUCKET == s
  {
    i := (s + SLOTS_PER_BUCKET - start % SLOTS_PER_BUCKET) % SLOTS_PER_BUCKET;
  }

  lemma NewIsCovered<V>(t: Table<V>, e: PathEntry, q: seq<PathEntry>, vs: seq<PathEntry>, deep: set<nat>,
                        roots: (nat, nat), k: Key)
    requires Shaped(t) && Linked(t, vs, roots, e) && e.depth < MAX_BFS_PATH_LEN && Full(t, e.bucket)
    requires (vs != [] ==> vs[0].depth == 1) && forall x <- vs :: x.depth >= 1
    ensures e.bucket < |t| && e.parent < |vs + [e]|
    ensures Covered(t, q + Children(t, k, e, |vs|, (vs + [e])[e.parent].bucket, 4), vs + [e], deep, e)
  {
    hide Full, AltBucket, KeyAt, Children;
    var vs1, pb := vs + [e], (vs + [e])[e.parent].bucket;
    var children := Children(t, k, e, |vs|, pb, 4);
    forall s: nat | s < SLOTS_PER_BUCKET && NextBucket(t, e, s) != pb
      ensures Known(q + children, vs1, deep, NextBucket(t, e, s), e.depth + 1)
    {
      var i := SlotIsTried(k + e.bucket, s);
      ChildrenCover(t, k, e, |vs|, pb, 4, i);
      var c :| c in children && c.bucket == NextBucket(t, e, s) && c.depth == e.depth + 1;
      assert c in q + children;
    }
  }

  lemma ExhaustiveVisit<V>(t: Table<V>, e: PathEntry, q: seq<PathEntry>, vs: seq<PathEntry>, deep: set<nat>,
                           roots: (nat, nat), k: Key)
    requires Shaped(t) && Exhaustive(t, [e] + q, vs, deep, roots)
    requires Linked(t, vs, roots, e) && e.depth < MAX_BFS_PATH_LEN && Full(t, e.bucket)
    ensures e.bucket < |t| && e.parent < |vs + [e]|
    ensures Exhaustive(t, q + Children(t, k, e, |vs|, (vs + [e])[e.parent].bucket, 4), vs + [e], deep, roots)
  {
    hide Known, Full, AltBucket, Children, KeyAt;
    forall x <- vs ensures x.depth >= 1 { assert Covered(t, [e] + q, vs, deep, x); }
    NewIsCovered(t, e, q, vs, deep, roots, k);
    var children := Children(t, k, e, |vs|, (vs + [e])[e.parent].bucket, 4);
    KnownStays(e, q, children, vs, deep, roots.0, 1);
    KnownStays(e, q, children, vs, deep, roots.1, 1);
    forall x <- vs + [e] ensures Covered(t, q + children, vs + [e], deep, x) {
      if x != e { CoveredStays(t, e, q, children, vs, deep, x); }
    }
  }

  // With nothing left in the queue, what is known is full, and so is what can be reached from it.
  lemma {:induction false} KnownIsFull<V>(t: Table<V>, vs: seq<PathEntry>, deep: set<nat>, roots: (nat, nat), b: nat,
                                          depth: nat, d: nat)
    requires Shaped(t) && Exhaustive(t, [], vs, deep, roots) && Known([], vs, deep, b, depth)
      && d + depth <= MAX_BFS_PATH_LEN
    ensures FullWithin(t, b, d)
    decreases d
  {
    hide Full, AltBucket, KeyAt;
    if e :| e in vs && e.bucket == b && e.depth == depth {
      assert Covered(t, [], vs, deep, e);
      var p := vs[e.parent];
      assert Known([], vs, deep, p.bucket, p.depth);
      if d > 0 {
        forall s: nat | s < SLOTS_PER_BUCKET ensures FullWithin(t, AltBucket(KeyAt(t, Pos(b, s)), b, |t|), d - 1) {
          var next := NextBucket(t, e, s);
          if next == p.bucket {
            KnownIsFull(t, vs, deep, roots, next, p.depth, d - 1);
          } else {
            KnownIsFull(t, vs, deep, roots, next, depth + 1, d - 1);
          }
        }
      }
    }
  }

  lemma SearchFailed<V>(t: Table<V>, vs: seq<PathEntry>, deep: set<nat>, roots: (nat, nat))
    requires Shaped(t) && Exhaustive(t, [], vs, deep, roots)
    ensures FullWithin(t, roots.0, MAX_BFS_PATH_LEN - 1) && FullWithin(t, roots.1, MAX_BFS_PATH_LEN - 1)
  {
    KnownIsFull(t, vs, deep, roots, roots.0, 1, MAX_BFS_PATH_LEN - 1);
    KnownIsFull(t, vs, deep, roots, roots.1, 1, MAX_BFS_PATH_LEN - 1);
  }

  // No bucket that a search for k can reach has room.
  ghost predicate NoRoom<V>(t: Table<V>, k: Key)
    requires Shaped(t) && |t| > 0
  {
    FullWithin(t, FirstBucket(k, |t|), MAX_BFS_PATH_LEN - 1)
      && FullWithin(t, SecondBucket(k, |t|), MAX_BFS_PATH_LEN - 1)
  }

  // A search that ends well has found what NoRoom denies.
  lemma {:induction false} ReachedIsFull<V>(t: Table<V>, vs: seq<PathEntry>, roots: (nat, nat), e: PathEntry)
    requires Shaped(t) && VisitedOk(t, vs, roots) && Linked(t, vs, roots, e)
    requires FullWithin(t, roots.0, MAX_BFS_PATH_LEN - 1) && FullWithin(t, roots.1, MAX_BFS_PATH_LEN - 1)
    ensures FullWithin(t, e.bucket, MAX_BFS_PATH_LEN - e.depth)
    decreases e.depth
  {
    hide Full, AltBucket, KeyAt;
    if e.depth > 1 {
      ReachedIsFull(t, vs, roots, vs[e.parent]);
    }
  }

  lemma FoundRoom<V>(t: Table<V>, vs: seq<PathEntry>, e: PathEntry, k: Key)
    requires Shaped(t) && |t| > 0
    requires var roots := (FirstBucket(k, |t|), SecondBucket(k, |t|));
      VisitedOk(t, vs, roots) && Linked(t, vs, roots, e)
    requires !Full(t, e.bucket)
    ensures !NoRoom(t, k)
  {
    hide Full, AltBucket, KeyAt, VisitedOk, FirstBucket, SecondBucket;
    if NoRoom(t, k) {
      ReachedIsFull(t, vs, (FirstBucket(k, |t|), SecondBucket(k, |t|)), e);
    }
  }

  // ----- The map -----

  class PresizedCuckooMap<V(0)> {
    var buckets: Table<V>
    const cpq: CuckooPathQueue
    const visited: array<PathEntry>
    ghost var contents: map<Key, V>

    ghost predicate Valid()
      reads this, cpq
    {
      && cpq.Valid()
      && visited.Length == VISITED_LIST_SIZE
      && visited != cpq.queue
      && Shaped(buckets) && |buckets| > 0
      && Represents(buckets, NOWHERE, contents)
    }

    constructor (numEntries: nat)
      ensures Valid() && contents == map[] && fresh(cpq) && fresh(cpq.queue) && fresh(visited)
      ensures |buckets| == numEntries * 100 / 85 / SLOTS_PER_BUCKET + 32
      ensures forall p | In(buckets, p) :: !Used(buckets, p)
    {
      cpq := new CuckooPathQueue();
      visited := new PathEntry[VISITED_LIST_SIZE];
      var v: V := *;
      var empty := Bucket(seq(SLOTS_PER_BUCKET, _ => UNUSED_SLOT), seq(SLOTS_PER_BUCKET, _ => v));
      buckets := seq(numEntries * 100 / 85 / SLOTS_PER_BUCKET + 32, _ => empty);
      contents := map[];
      new;
      assert PlacedAt(buckets, NOWHERE, contents, map[]);
    }

    // FindInBucket
    method FindInBucket(k: Key, b: nat) returns (slot: nat)
      requires Valid() && b < |buckets|
      ensures slot <= SLOTS_PER_BUCKET
      ensures slot < SLOTS_PER_BUCKET ==> KeyAt(buckets, Pos(b, slot)) == k
      ensures slot == SLOTS_PER_BUCKET ==> forall s | 0 <= s < SLOTS_PER_BUCKET :: KeyAt(buckets, Pos(b, s)) != k
    {
      slot := 0;
      while slot < SLOTS_PER_BUCKET
        invariant slot <= SLOTS_PER_BUCKET
        invariant forall s | 0 <= s < slot :: KeyAt(buckets, Pos(b, s)) != k
      {
        if buckets[b].keys[slot] == k {
          return;
        }
        slot := slot + 1;
      }
    }

    // key_transform
    static function Transform(k: Key): Key {
      if k == UNUSED_SLOT then 0 else k
    }

    // Find compares with k itself, so the word 2^64 - 1 "finds" any unused slot of its buckets.
    method Find(k: Key) returns (found: bool, out: V)
      requires Valid() && k <= UNUSED_SLOT
      ensures k != UNUSED_SLOT ==> (found <==> k in contents)
      ensures k != UNUSED_SLOT && found ==> out == contents[k]
      ensures k == UNUSED_SLOT ==>
        (found <==> !Full(buckets, FirstBucket(0, |buckets|)) || !Full(buckets, SecondBucket(0, |buckets|)))
    {
      hide FirstBucket, SecondBucket, Represents;
      var tk, n := Transform(k), |buckets|;
      BucketsInRange(tk, n);
      var b := FirstBucket(tk, n);
      var slot := FindInBucket(k, b);
      if slot == SLOTS_PER_BUCKET {
        b := SecondBucket(tk, n);
        slot := FindInBucket(k, b);
      }
      found := slot < SLOTS_PER_BUCKET;
      if found {
        out := buckets[b].values[slot];
        if k != UNUSED_SLOT { UsedIsEntry(buckets, contents, Pos(b, slot)); }
        assert k == UNUSED_SLOT ==> !Used(buckets, Pos(b, slot));
      } else {
        out := *;
        if k != UNUSED_SLOT {
          KeyIsInItsBuckets(buckets, contents, k);
        }
      }
    }

    // SpaceAvailable: the first unused slot, or none.
    method SpaceAvailable(b: nat) returns (slot: nat)
      requires Valid() && b < |buckets|
      ensures slot <= SLOTS_PER_BUCKET
      ensures slot < SLOTS_PER_BUCKET ==> !Used(buckets, Pos(b, slot))
      ensures slot == SLOTS_PER_BUCKET <==> Full(buckets, b)
    {
      slot := FindInBucket(UNUSED_SLOT, b);
      assert slot < SLOTS_PER_BUCKET ==> !Used(buckets, Pos(b, slot));
    }

    // Moves the entries along the path to e, which has room in freeSlot, and writes k where the
    // path starts.
    method MoveAlongPath(k: Key, v: V, first: PathEntry, freeSlot: nat, ghost seen: nat)
      requires Valid() && k < UNUSED_SLOT && seen <= visited.Length
      requires var roots := (FirstBucket(k, |buckets|), SecondBucket(k, |buckets|));
        VisitedOk(buckets, visited[..seen], roots) && Linked(buckets, visited[..seen], roots, first)
      requires freeSlot < SLOTS_PER_BUCKET && !Used(buckets, Pos(first.bucket, freeSlot))
      modifies this`buckets, this`contents
      ensures contents == old(contents)[k := v]
      ensures Valid() <==> k !in old(contents)
      ensures k in old(contents) ==> Shaped(buckets) && HoldsTwice(buckets, k)
    {
      hide Represents, AltBucket, Full, FirstBucket, SecondBucket, CanLive, Sources, NoDup, VisitedOk, Put, MoveOne,
           HoldsTwice;
      ghost var t, m, vs, roots := buckets, contents, visited[..seen],
        (FirstBucket(k, |buckets|), SecondBucket(k, |buckets|));
      StartPath(t, vs, roots, m, first, freeSlot);
      var e := first;
      var slot: nat := freeSlot;
      while e.depth > 1
        invariant contents == m && OnPath(t, buckets, vs, roots, m, e, slot)
        decreases e.depth
      {
        MoveStep(t, buckets, vs, roots, m, e, slot);
        var parent := visited[e.parent];
        buckets := MoveOne(buckets, parent, e, slot);
        slot := e.slot;
        e := parent;
      }
      FinishPath(t, buckets, vs, m, e, slot, k, v);
      buckets := Put(buckets, Pos(e.bucket, slot), k, v);
      contents := contents[k := v];
    }

    // Queues the children of e, the last visited entry; vs was visited before it.
    method PushChildren(k: Key, e: PathEntry, parentIndex: nat, ghost vs: seq<PathEntry>, ghost roots: (nat, nat),
                        ghost pops: nat)
      requires Valid() && parentIndex < visited.Length && visited[..parentIndex + 1] == vs + [e] && pops > 0
      requires Linked(buckets, vs, roots, e) && e.depth < MAX_BFS_PATH_LEN && e.bucket < |buckets|
        && Full(buckets, e.bucket)
      requires Searching(buckets, contents, cpq.Contents(), vs + [e], roots, pops, 4 * Pushes(e.depth + 1),
        4 * Visits(e.depth + 1))
      requires e.parent <= parentIndex
      modifies cpq, cpq.queue
      ensures Valid()
      ensures cpq.Contents() == old(cpq.Contents() + Children(buckets, k, e, parentIndex, visited[e.parent].bucket, 4))
    {
      hide Represents, Linked, AltBucket, Full, Searching, Work, Pushes, Visits, Ring, KeyAt, FirstBucket,
           SecondBucket, CanLive;
      ghost var q := cpq.Contents();
      assert (vs + [e])[e.parent] == visited[e.parent];
      var parentBucket := visited[e.parent].bucket;
      var startSlot := (k + e.bucket) % SLOTS_PER_BUCKET;
      var i := 0;
      while i < SLOTS_PER_BUCKET
        invariant i <= SLOTS_PER_BUCKET && Valid()
        invariant cpq.Contents() == q + Children(buckets, k, e, parentIndex, parentBucket, i)
      {
        ChildHasRoom(buckets, contents, q, vs, k, e, roots, pops, i);
        var slot := (startSlot + i) % SLOTS_PER_BUCKET;
        var nextBucket := AltBucket(KeyAt(buckets, Pos(e.bucket, slot)), e.bucket, |buckets|);
        // skip a child that is e's parent
        if nextBucket != parentBucket {
          cpq.PushBack(PathEntry(nextBucket, e.depth + 1, parentIndex, slot));
        }
        i := i + 1;
      }
    }

    // Records e in the visited list and queues its children.
    method Visit(k: Key, e: PathEntry, visitedEnd: nat, ghost roots: (nat, nat), ghost pops: nat, ghost deep: set<nat>)
      requires Valid() && visitedEnd <= visited.Length
      requires e.depth < MAX_BFS_PATH_LEN && Full(buckets, e.bucket) && pops > 0
      requires Linked(buckets, visited[..visitedEnd], roots, e)
      requires Searching(buckets, contents, cpq.Contents(), visited[..visitedEnd] + [e], roots, pops,
                         4 * Pushes(e.depth + 1), 4 * Visits(e.depth + 1))
      requires Exhaustive(buckets, [e] + cpq.Contents(), visited[..visitedEnd], deep, roots)
      modifies cpq, cpq.queue, visited
      ensures Valid() && visitedEnd < visited.Length
      ensures Exhaustive(buckets, cpq.Contents(), visited[..visitedEnd + 1], deep, roots)
      ensures Searching(buckets, contents, cpq.Contents(), visited[..visitedEnd + 1], roots, pops, 0, 0)
      ensures Work(cpq.Contents()) <= old(Work(cpq.Contents())) + 4 * Pushes(e.depth + 1)
    {
      hide Represents, Linked, AltBucket, Full, Searching, Work, Pushes, Visits, Ring, VisitedOk, Children,
           FirstBucket, SecondBucket, CanLive, Exhaustive;
      ghost var vs, q := visited[..visitedEnd], cpq.Contents();
      VisitedHasRoom(buckets, contents, q, vs + [e], roots, pops, e.depth);
      ParentIsVisited(buckets, vs, roots, e);
      ChildrenFit(buckets, contents, q, vs, k, e, roots, pops, 4);
      ExhaustiveVisit(buckets, e, q, vs, deep, roots, k);
      visited[visitedEnd] := e;
      assert visited[..visitedEnd + 1] == vs + [e];
      assert visited[e.parent] == (vs + [e])[e.parent];
      PushChildren(k, e, visitedEnd, vs, roots, pops);
    }

    method StartSearch(b1: nat, b2: nat)
      requires Valid() && b1 < |buckets| && b2 < |buckets|
      modifies cpq, cpq.queue
      ensures Valid() && Searching(buckets, contents, cpq.Contents(), [], (b1, b2), 0, 0, 0)
      ensures Exhaustive(buckets, cpq.Contents(), [], {}, (b1, b2))
    {
      hide Represents, Searching, Ring, FirstBucket, SecondBucket, CanLive, Exhaustive;
      ExhaustiveStarts(buckets, (b1, b2));
      cpq.Reset();
      cpq.PushBack(PathEntry(b1, 1, 0, 0)); // depth starts at 1
      cpq.PushBack(PathEntry(b2, 1, 0, 0));
      assert cpq.Contents() == [PathEntry(b1, 1, 0, 0), PathEntry(b2, 1, 0, 0)];
      SearchStarts(buckets, contents, (b1, b2), cpq.Contents());
    }

    // CuckooInsert: breadth-first search for a bucket with room, then the moves back to the root.
    // No array index is out of range, and the search ends.
    method CuckooInsert(k: Key, v: V, b1: nat, b2: nat) returns (ok: bool)
      requires Valid() && k < UNUSED_SLOT
      requires b1 == FirstBucket(k, |buckets|) && b2 == SecondBucket(k, |buckets|)
      modifies this`buckets, this`contents, cpq, cpq.queue, visited
      ensures ok <==> !old(NoRoom(buckets, k))
      ensures ok ==> contents == old(contents)[k := v]
      ensures !ok ==> contents == old(contents) && buckets == old(buckets)
      ensures Valid() <==> !(ok && k in old(contents))
      ensures ok && k in old(contents) ==> Shaped(buckets) && HoldsTwice(buckets, k)
    {
      hide Represents, Linked, AltBucket, Full, Searching, Work, Pushes, Visits, FirstBucket, SecondBucket, Ring,
           VisitedOk, CanLive, Exhaustive, FullWithin, HoldsTwice;
      BucketsInRange(k, |buckets|);
      ghost var roots := (b1, b2);
      var visitedEnd := 0;
      ghost var pops, deep: set<nat> := 0, {};
      StartSearch(b1, b2);
      assert visited[..0] == [];
      var empty := cpq.Empty();
      while !empty
        invariant Valid() && contents == old(contents) && buckets == old(buckets)
        invariant visitedEnd <= visited.Length
        invariant Searching(buckets, contents, cpq.Contents(), visited[..visitedEnd], roots, pops, 0, 0)
        invariant Exhaustive(buckets, cpq.Contents(), visited[..visitedEnd], deep, roots)
        invariant empty <==> cpq.Contents() == []
        decreases Work(cpq.Contents())
      {
        ghost var before := cpq.Contents();
        var e := cpq.PopFront();
        SearchTakes(buckets, contents, e, cpq.Contents(), visited[..visitedEnd], roots, pops);
        var freeSlot := SpaceAvailable(e.bucket);
        if freeSlot < SLOTS_PER_BUCKET {
          FoundRoom(buckets, visited[..visitedEnd], e, k);
          MoveAlongPath(k, v, e, freeSlot, visitedEnd);
          return true;
        }
        SearchVisits(buckets, contents, e, cpq.Contents(), visited[..visitedEnd], roots, pops);
        pops := pops + 1;
        if e.depth < MAX_BFS_PATH_LEN {
          Visit(k, e, visitedEnd, roots, pops, deep);
          visitedEnd := visitedEnd + 1;
        } else {
          ExhaustiveDeep(buckets, e, cpq.Contents(), visited[..visitedEnd], deep, roots);
          deep := deep + {e.bucket};
        }
        empty := cpq.Empty();
      }
      SearchFailed(buckets, visited[..visitedEnd], deep, roots);
      ok := false;
    }

    // The merged search for a duplicate and for the first unused slot in the two buckets.
    method Scan(k: Key, candidates: seq<nat>) returns (duplicate: bool, targetBucket: nat, targetSlot: nat)
      requires Valid() && |candidates| == 2 && candidates[0] < |buckets| && candidates[1] < |buckets|
      ensures targetSlot <= SLOTS_PER_BUCKET
      ensures duplicate ==>
        !NotIn(buckets, candidates[0], k, SLOTS_PER_BUCKET) || !NotIn(buckets, candidates[1], k, SLOTS_PER_BUCKET)
      ensures !duplicate ==>
        && NotIn(buckets, candidates[0], k, SLOTS_PER_BUCKET)
        && NotIn(buckets, candidates[1], k, SLOTS_PER_BUCKET)
        && TargetOk(buckets, candidates, targetBucket, targetSlot)
        && (targetSlot == SLOTS_PER_BUCKET ==> Full(buckets, candidates[0]) && Full(buckets, candidates[1]))
    {
      hide Represents, FirstBucket, SecondBucket, CanLive;
      duplicate, targetBucket, targetSlot := false, 0, SLOTS_PER_BUCKET;
      var i := 0;
      while i < 2
        invariant i <= 2 && TargetOk(buckets, candidates, targetBucket, targetSlot)
        invariant forall c | 0 <= c < i :: NotIn(buckets, candidates[c], k, SLOTS_PER_BUCKET)
        invariant targetSlot == SLOTS_PER_BUCKET ==> forall c | 0 <= c < i :: Full(buckets, candidates[c])
      {
        duplicate, targetBucket, targetSlot := ScanBucket(k, candidates, i, targetBucket, targetSlot);
        if duplicate {
          return;
        }
        i := i + 1;
      }
    }

    method ScanBucket(k: Key, candidates: seq<nat>, i: nat, targetBucket: nat, targetSlot: nat)
      returns (duplicate: bool, targetBucket': nat, targetSlot': nat)
      requires Valid() && i < |candidates| && candidates[i] < |buckets|
      requires TargetOk(buckets, candidates, targetBucket, targetSlot)
      ensures duplicate ==> !NotIn(buckets, candidates[i], k, SLOTS_PER_BUCKET)
      ensures TargetOk(buckets, candidates, targetBucket', targetSlot')
      ensures targetSlot < SLOTS_PER_BUCKET ==> targetSlot' < SLOTS_PER_BUCKET
      ensures !duplicate ==> NotIn(buckets, candidates[i], k, SLOTS_PER_BUCKET)
      ensures !duplicate && targetSlot' == SLOTS_PER_BUCKET ==> Full(buckets, candidates[i])
    {
      hide Represents, FirstBucket, SecondBucket, CanLive;
      duplicate, targetBucket', targetSlot' := false, targetBucket, targetSlot;
      var b, slot := candidates[i], 0;
      while slot < SLOTS_PER_BUCKET
        invariant slot <= SLOTS_PER_BUCKET && TargetOk(buckets, candidates, targetBucket', targetSlot')
        invariant NotIn(buckets, b, k, slot)
        invariant targetSlot < SLOTS_PER_BUCKET ==> targetSlot' < SLOTS_PER_BUCKET
        invariant targetSlot' == SLOTS_PER_BUCKET ==> forall s | 0 <= s < slot :: Used(buckets, Pos(b, s))
      {
        if buckets[b].keys[slot] == k {
          assert KeyAt(buckets, Pos(b, slot)) == k;
          duplicate := true;
          return;
        } else if targetSlot' == SLOTS_PER_BUCKET && buckets[b].keys[slot] == UNUSED_SLOT {
          targetBucket', targetSlot' := b, slot;
        }
        slot := slot + 1;
      }
    }

    // What the scan for duplicates finds out.
    ghost predicate Absent(k: Key)
      requires Valid()
      reads this, cpq
    {
      if k < UNUSED_SLOT then k !in contents
      else Full(buckets, FirstBucket(0, |buckets|)) && Full(buckets, SecondBucket(0, |buckets|))
    }

    // InsertUnique: false if the key is present, or if the table is too full for it.  The word
    // 2^64 - 1 is compared as it is and stored as 0: it counts as present when a slot of its buckets
    // is unused, and otherwise it is stored even if there is a 0 already.
    method InsertUnique(k: Key, v: V) returns (ok: bool)
      requires Valid() && k <= UNUSED_SLOT
      modifies this`buckets, this`contents, cpq, cpq.queue, visited
      ensures ok <==> old(Absent(k)) && !old(NoRoom(buckets, Transform(k)))
      ensures ok ==> contents == old(contents)[Transform(k) := v]
      ensures !ok ==> contents == old(contents) && buckets == old(buckets)
      ensures Valid() <==> !(k == UNUSED_SLOT && ok && 0 in old(contents))
      ensures !Valid() ==> Shaped(buckets) && HoldsTwice(buckets, 0)
    {
      hide FirstBucket, SecondBucket, Represents, FullWithin, HoldsTwice;
      var tk := Transform(k);
      BucketsInRange(tk, |buckets|);
      var b1, b2 := FirstBucket(tk, |buckets|), SecondBucket(tk, |buckets|);
      var duplicate, targetBucket, targetSlot := Scan(k, [b1, b2]);
      if duplicate {
        if k < UNUSED_SLOT {
          Present(k, b1, b2);
        }
        return false;
      }
      if k < UNUSED_SLOT { KeyIsNowhere(buckets, contents, k); }
      if targetSlot < SLOTS_PER_BUCKET {
        FoundRoom(buckets, [], PathEntry(targetBucket, 1, 0, 0), k);
        FillFreeSlot(buckets, Pos(targetBucket, targetSlot), k, v, contents);
        buckets := Put(buckets, Pos(targetBucket, targetSlot), tk, v);
        contents := contents[k := v];
        return true;
      }
      ok := CuckooInsert(tk, v, b1, b2);
    }

    lemma Present(k: Key, b1: nat, b2: nat)
      requires Valid() && k < UNUSED_SLOT && b1 < |buckets| && b2 < |buckets|
      requires !NotIn(buckets, b1, k, SLOTS_PER_BUCKET) || !NotIn(buckets, b2, k, SLOTS_PER_BUCKET)
      ensures k in contents
    {
      hide Represents;
      if !NotIn(buckets, b1, k, SLOTS_PER_BUCKET) {
        KeyIsThere(buckets, contents, b1, k);
      } else {
        KeyIsThere(buckets, contents, b2, k);
      }
    }
  }
}
