# Models of the mycc utilities

This project models the parts of `mycc` that are hardest to get right, and proves what they are for.

- **Lock-free protocols.** The free list, the work-stealing queue, the ticketed bounded queue, user-level
  RCU, the reader-writer spin lock, the semaphore and the auto-reset event are step machines: one atomic
  load, store, compare-and-swap or fetch operation per step, a program counter and locals per thread, any
  number of threads, every interleaving. Each has an inductive invariant, theorems about every run (what is
  safe, and when a call may come back with nothing), and what a call does that nobody disturbs.
- **Hash tables and the cache.** The presized cuckoo map, the flat hash map and the LRU cache are classes
  whose methods are proved against a plain map (`contents`, `index`) kept as a ghost field.
- **Formats and transformations.** The block format with its varints, the JSON printer and parser, CRC32C
  and the path cleaner are methods with the loops of the source, proved against specification functions;
  round trips, linearity and idempotence are proved about these functions, and what they mean in the terms
  of the formats: the grammar of RFC 8259 in both directions, bytes in their places, the order of keys, the
  residue of CRC32C, and where a path leads.

Integers are unbounded unless a width is written out: 32-bit reference words, 31-bit nesting counts, 64-bit
products, 32-bit block offsets and lengths, and bit-vectors in the CRC code. Hash functions are arbitrary
deterministic functions. Memory is modelled by values: the fields `next`, `prev` and `next_hash` of cache
entries are maps from entry names to entry names, and entry names are never used twice.

Where the code and its comments differ, the model follows the code:

- `DecodeEntry` is said not to go past the limit. It does so exactly when the sum of the two decoded lengths
  reaches 2^32 and wraps around to something that fits (`BlockFormat.StaysInside`, `BlockFormat.LengthsWrap`).
- `clear_no_resize` leaves tombstones in the table but zeroes both counters; the counters are exact again
  exactly when there were no tombstones (`FlatMap.FlatMap.ClearNoResize`).
- `Find` and `InsertUnique` of the cuckoo map compare the untransformed key, so the word 2^64 - 1 "is" any
  unused slot of its buckets, and it can be stored as a second 0 (`CuckooMap.PresizedCuckooMap.Find`,
  `CuckooMap.PresizedCuckooMap.InsertUnique`).
- The bounded queue accepts size 1, with which it loses values; it is right for exactly the sizes from 2 on
  (`MPMCBoundedQueue.SafeFromTwo`).
- `rcu_thread_register` asserts that there is a free reader word, which holds in every run for exactly up to
  512 threads (`UserRcu.AssertHoldsIff`).
- A `\u0000` escape and an unpaired surrogate are dropped from a JSON string (`JsonStrings.NothingElse`).

## Model

| member | source | states |
|---|---|---|
| LockFreeList.ActionOk | util/lock_free_util.h:481-570 | one atomic action of add or try_get moves a node between its roles (client, being flagged, linked, published, deferred, listed, taken) in the only ways that keep the reference word exact |
| LockFreeList.RunInv | util/lock_free_util.h:481-570 | the invariant (roles, reference words, list from the head, what each thread knows) holds in every state of every run |
| LockFreeList.RunSafe | util/lock_free_util.h:493-535 | in every run the assert in try_get holds, and a node about to be handed out is owned by no client, is not being added and is not about to be handed out by another thread |
| LockFreeList.QuiescentList | util/lock_free_util.h:481-570 | when no operation is in progress the list from the head holds every node that no client owns, exactly once and with reference count 1; owned nodes have count 0 |
| LockFreeList.NoDoubleHandOut | util/lock_free_util.h:493-535 | between two hand-outs of one node its owner has called add on it |
| LockFreeList.StaysHeld | util/lock_free_util.h:481-491 | a client keeps its node until it calls add itself |
| LockFreeList.NodesFixed | util/lock_free_util.h:476-570 | the words of all nodes and only these exist throughout a run |
| LockFreeList.NullMeansEmpty | util/lock_free_util.h:493-535 | in every run, a call of try_get comes back without a node only if the list was empty at some moment of that call |
| LockFreeList.AddAlone | util/lock_free_util.h:481-491 | an add that nobody disturbs puts the node at the head of the list, with count 1, and takes it from the client |
| LockFreeList.GetAlone | util/lock_free_util.h:493-535 | a try_get that nobody disturbs hands out the node at the head, or nothing when the list is empty |
| WorkStealingQueue.RunInv | util/lock_free_util.h:930-1003 | every reachable state balances: pushed items are returned, claimed by the owner, or in the live window of the buffer |
| WorkStealingQueue.ReturnedOnce | util/lock_free_util.h:930-1003 | in every run, with any number of thieves, items are returned only if pushed and no more often than pushed |
| WorkStealingQueue.QuiescentConservation | util/lock_free_util.h:930-1003 | when all calls have returned, pushed = returned plus the buffer slots from top to bottom |
| WorkStealingQueue.WindowFrame | util/lock_free_util.h:930-942 | writing the slot of an index less than a lap past the window leaves the live items alone, also after wrap-around |
| WorkStealingQueue.PopFails | util/lock_free_util.h:947-976 | in every run, pop comes back without an item only if the top had reached, at some moment of the call, the bottom it started with |
| WorkStealingQueue.StealFails | util/lock_free_util.h:981-1003 | in every run, steal comes back without an item only while the top has reached the bottom |
| WorkStealingQueue.PushFails | util/lock_free_util.h:930-942 | in every run, push comes back without pushing only while the window is as large as the buffer |
| WorkStealingQueue.PushAlone | util/lock_free_util.h:930-942 | a push that nobody disturbs adds its item at the bottom end, unless the buffer is full |
| WorkStealingQueue.PopAlone | util/lock_free_util.h:947-976 | a pop that nobody disturbs takes the item at the bottom end, the last one included, unless there is none |
| WorkStealingQueue.StealAlone | util/lock_free_util.h:981-1003 | a steal that nobody disturbs takes the item at the top end, unless there is none |
| MPMCBoundedQueue.RunInv | util/lock_free_util.h:664-755 | the invariant over slots, tickets and program counters holds in every state of every run |
| MPMCBoundedQueue.RunBounds | util/lock_free_util.h:696-755 | tail <= head <= tail + size in every run |
| MPMCBoundedQueue.ReturnedIsWritten | util/lock_free_util.h:696-755 | the value returned under tail ticket k is the value written under head ticket k |
| MPMCBoundedQueue.NeverReturnedTwice | util/lock_free_util.h:728-755 | a consumer about to return has the value of its ticket, which no other consumer has and under which nothing has been returned before |
| MPMCBoundedQueue.NothingUnreadIsOverwritten | util/lock_free_util.h:696-726 | when a producer writes a slot, the value of the previous lap has been returned |
| MPMCBoundedQueue.FullIsFull | util/lock_free_util.h:713-716 | mp_produce returns false only while the previous lap's value of its slot has not been returned |
| MPMCBoundedQueue.EmptyIsEmpty | util/lock_free_util.h:745-748 | consume returns false only when its ticket is not claimed by a producer, or its producer has not published yet |
| MPMCBoundedQueue.FailsOnlyWhenFullOrEmpty | util/lock_free_util.h:696-755 | in every run, mp_produce comes back with false only while a value a full lap behind the head has not been returned, and consume only while a ticket up to the tail has no published value |
| MPMCBoundedQueue.ProduceAlone | util/lock_free_util.h:696-726 | an mp_produce that nobody disturbs appends its value, and comes back with false just when the queue is full |
| MPMCBoundedQueue.ConsumeAlone | util/lock_free_util.h:728-755 | a consume that nobody disturbs returns the oldest value, and comes back with false just when the queue is empty |
| MPMCBoundedQueue.QuiescentContents | util/lock_free_util.h:696-755 | when all calls have returned, the values of the tickets from tail to head are in the slots and the earlier ones have been returned |
| MPMCBoundedQueue.OneSlotLosesAValue | util/lock_free_util.h:664-669 | with size 1 there is a run in which two puts succeed one after the other and the first value is gone |
| MPMCBoundedQueue.SafeFromTwo | util/lock_free_util.h:664-669 | for a power-of-two size, no run overwrites a value that has not been returned if and only if the size is at least 2 |
| UserRcu.RunInv | util/lock_free_util.cpp:110-186 | reader words count nesting exactly, ids are distinct and in range, the mutex has one holder, in every run |
| UserRcu.RunSafe | util/lock_free_util.cpp:110-186 | the assert in rcu_thread_register holds, every reader word that is touched exists, the mutex has one holder, and an idle thread's word counts its nesting, in every run of at most 512 threads |
| UserRcu.AssertHoldsIff | util/lock_free_util.cpp:110-117 | the assert in rcu_thread_register holds in every run if and only if there are at most 512 threads |
| UserRcu.ReaderKeepsPhase | util/lock_free_util.cpp:154-176 | a reader that stays in its critical section keeps its phase, through nested locks and unlocks |
| UserRcu.SyncOutlasts | util/lock_free_util.cpp:140-186 | from the call of synchronize_rcu on: after the first pass only readers of the new phase are left, after the second none |
| UserRcu.GracePeriod | util/lock_free_util.cpp:140-186 | a thread that is in a (nested) critical section when synchronize_rcu is called has been outside every critical section before the call returns |
| UserRcu.SyncAlone | util/lock_free_util.cpp:140-186 | when nobody else acts and no reader word is nested, synchronize_rcu comes back, with the words as they were |
| UserRcu.QuietIsReady | util/lock_free_util.cpp:140-186 | in a run this is so whenever every thread is between its calls and outside every critical section |
| UserRcu.LockAlone | util/lock_free_util.cpp:154-170 | rcu_read_lock takes the grace-period word for the outermost section and counts up for a nested one |
| UserRcu.UnlockAlone | util/lock_free_util.cpp:172-176 | rcu_read_unlock counts down |
| RWSpinLock.WordAfter | util/locks_util.h:1275-1411 | every atomic action keeps the word an exact account of readers, upgrader and writer |
| RWSpinLock.RunInv | util/locks_util.h:1275-1411 | the invariant holds in every state of every run |
| RWSpinLock.MutualExclusion | util/locks_util.h:1275-1411 | at most one writer or upgrader, and a writer excludes every other holder |
| RWSpinLock.WordIsExact | util/locks_util.h:1275-1411 | bits = 4 * (readers and reader attempts in flight) + 2 * U + W; W is there exactly for a writer; U without W exactly for an upgrader, so a stray UPGRADED bit never outlives the writer |
| RWSpinLock.IdleIsZero | util/locks_util.h:1366-1371 | when everybody has let go the word is zero and the next try_lock succeeds |
| RWSpinLock.WordTells | util/locks_util.h:1275-1411 | the low bits are zero exactly when there is no writer and no upgrader, the rest exactly when there is no reader and no reader attempt |
| RWSpinLock.TriesAreExact | util/locks_util.h:1366-1411 | in every run the try_ forms succeed exactly when no other thread stands in their way |
| RWSpinLock.Conversions | util/locks_util.h:1292-1364 | the other calls let go of what is held and leave the thread with the lock their names say |
| RWSpinLock.WordFits | util/locks_util.h:1262-1270 | with fewer than 2^29 threads the word stays a non-negative 32-bit integer |
| LightSemaphore.ActionOk | util/locks_util.h:1531-1632 | one action of wait, waitMany, tryWait, tryWaitMany or signal conserves tokens and keeps waits covered by permits |
| LightSemaphore.RunInv | util/locks_util.h:1531-1632 | conservation and coverage hold in every state of every run |
| LightSemaphore.NeverGrantsTooMuch | util/locks_util.h:1531-1632 | waits never return more than initial + signalled tokens; every wait gets at most its limit, and a waiting one at least one token |
| LightSemaphore.UncoveredWaits | util/locks_util.h:1531-1632 | blocked waits minus permits posted or about to be posted equal max(0, -count) |
| LightSemaphore.BlockedHaveTokens | util/locks_util.h:1531-1632 | with no signal in flight and count >= 0 every blocked wait has its permit |
| LightSemaphore.QuiescentCount | util/locks_util.h:1531-1632 | when all calls have returned, count = initial + signalled - granted |
| LightSemaphore.ReturnTakes | util/locks_util.h:1531-1632 | in every run, a non-blocking wait takes min(limit, count) at the moment it returns; a blocking one has at most one token before that |
| LightSemaphore.CallReturns | util/locks_util.h:1531-1632 | a wait called with a limit returns under that limit |
| LightSemaphore.SignalCounts | util/locks_util.h:1623-1632 | every signal adds its tokens in one action |
| LightSemaphore.TryWaitAlone | util/locks_util.h:1600-1612 | an undisturbed tryWaitMany is done after two actions and takes min(limit, count) |
| LightSemaphore.WaitAlone | util/locks_util.h:1614-1621 | so does waitMany while the count is positive; otherwise it counts itself below zero and blocks |
| LightSemaphore.SignalAlone | util/locks_util.h:1623-1632 | an undisturbed signal adds its tokens and posts a permit for every wait it releases |
| AutoResetEvent.RunInv | util/locks_util.h:1660-1689 | the event's account, on top of the semaphore's own machine, holds in every state of every run |
| AutoResetEvent.NeverReleasesTooMany | util/locks_util.h:1660-1689 | the asserts on the status hold, and waits that returned never outnumber the initial status plus the signals that had an effect |
| AutoResetEvent.WaitersHaveTokens | util/locks_util.h:1660-1689 | with no signal in flight and status >= 0 no wake-up is missing: the count of the semaphore is not negative, every blocked wait has its permit, and the waits that have not returned are as many as the tokens in the count and the permits |
| AutoResetEvent.SignalIsNotLost | util/locks_util.h:1660-1679 | in every run, a signal comes back without effect only if the event was set at some moment of the call |
| AutoResetEvent.WaitLowers | util/locks_util.h:1681-1689 | every wait takes the event one down |
| AutoResetEvent.SignalAlone | util/locks_util.h:1660-1679 | an undisturbed signal sets a reset event and leaves a set one alone |
| AutoResetEvent.SignalReleases | util/locks_util.h:1660-1679 | with waits below zero it releases one of them through the semaphore |
| AutoResetEvent.WaitActs | util/locks_util.h:1681-1689 | a wait resets a set event and returns, and goes to the semaphore otherwise |
| MultiplyHigh.LimbsAgree | util/cuckoo_map.h:519-538 | the 32-bit-limb multiplication is the exact high word of the 128-bit product, with no carry lost |
| MultiplyHigh.InRange | util/cuckoo_map.h:842-849 | every bucket index is the high word of x * N, which is less than N |
| CuckooTable.BucketsInRange | util/cuckoo_map.h:721-849 | both buckets of a key are in the table |
| CuckooTable.MixOfHalves | util/cuckoo_map.h:721-725 | the second hash swaps the halves of the word and multiplies, cut to 64 bits |
| CuckooTable.CopyMovesHole | util/cuckoo_map.h:776-783 | copying an entry into the hole moves the hole to where it came from and changes nothing else |
| CuckooTable.FillHole | util/cuckoo_map.h:738-743 | writing a new entry into the hole adds exactly that entry |
| CuckooTable.FillHoleTwice | util/cuckoo_map.h:738-743 | writing a key that is there already leaves two slots with that key |
| CuckooTable.TwiceIsNoMap | util/cuckoo_map.h:572-606 | a table with a key in two slots represents no map |
| CuckooTable.UsedIsEntry | util/cuckoo_map.h:572-606 | every used slot is an entry, in one of its key's buckets, and the only slot with its key |
| CuckooTable.KeyIsInItsBuckets | util/cuckoo_map.h:609-614 | a key is in the map just when one of its two buckets holds it |
| CuckooMap.CuckooPathQueue.PushBack | util/cuckoo_map.h:682-686 | appends to the ring, which has room for one entry less than it has slots |
| CuckooMap.CuckooPathQueue.PopFront | util/cuckoo_map.h:688-693 | takes the oldest entry |
| CuckooMap.CuckooPathQueue.Empty | util/cuckoo_map.h:695-695 | true exactly when the ring holds nothing |
| CuckooMap.PathIsDistinct | util/cuckoo_map.h:793-833 | a cuckoo path that ends in a bucket with room never uses one slot twice: the skip rule keeps neighbours apart, and the room at the end keeps its two ends apart |
| CuckooMap.MoveStep | util/cuckoo_map.h:800-808 | one copy along the path keeps all entries and moves the hole one step towards the root |
| CuckooMap.ArraySizes | util/cuckoo_map.h:639-649 | two roots, four children each and depth 5 make exactly 682 queue entries and 170 visited ones |
| CuckooMap.ChildrenFit | util/cuckoo_map.h:813-833 | queueing the children of an entry stays within the budget of pushes and visits |
| CuckooMap.ChildHasRoom | util/cuckoo_map.h:813-833 | the ring never gets full, so it never looks empty while it holds entries |
| CuckooMap.ExhaustiveVisit | util/cuckoo_map.h:813-833 | visiting a full bucket leaves nothing out: every bucket its keys could move to is queued, visited, or the bucket it was reached from |
| CuckooMap.KnownIsFull | util/cuckoo_map.h:791-840 | when the queue is empty, every bucket that can be reached in the moves left is full, the skipped ones included |
| CuckooMap.ReachedIsFull | util/cuckoo_map.h:791-811 | a bucket the search reaches is within its depth of a root, so finding room there refutes that all are full |
| CuckooMap.PresizedCuckooMap.constructor | util/cuckoo_map.h:549-569 | an empty map with num_entries / 0.85 / 4 + 32 buckets |
| CuckooMap.PresizedCuckooMap.Find | util/cuckoo_map.h:609-614 | agrees with the map for every key but 2^64 - 1, and says what happens for that one |
| CuckooMap.PresizedCuckooMap.FindInBucket | util/cuckoo_map.h:747-759 | the first slot of the bucket with the key, or none has it |
| CuckooMap.PresizedCuckooMap.SpaceAvailable | util/cuckoo_map.h:763-774 | an unused slot, or the bucket is full |
| CuckooMap.PresizedCuckooMap.MoveAlongPath | util/cuckoo_map.h:798-811 | moving the entries along a path and writing the new one adds exactly the new entry; the table is a map afterwards exactly when the key was not in it |
| CuckooMap.PresizedCuckooMap.CuckooInsert | util/cuckoo_map.h:785-840 | true exactly when some bucket within four moves of the key's two buckets has room, and then the key is written; the result is the map with exactly k -> v added unless the key was in it; false: nothing changes; no array index is out of range and the search ends |
| CuckooMap.PresizedCuckooMap.Scan | util/cuckoo_map.h:578-597 | a duplicate, or the first unused slot of the two buckets, or both are full |
| CuckooMap.PresizedCuckooMap.InsertUnique | util/cuckoo_map.h:572-606 | true exactly when the key was absent and some bucket within four moves of its two buckets had room; then exactly k -> v is added; otherwise nothing changes. The key 2^64 - 1 is stored as 0 and is taken for present when a slot of its buckets is unused; the table stops being a map exactly when it is stored and 0 was there |
| Probing.ProbesDiffer | util/map_util.h:528-532 | the probes +1, +2, +3, ... modulo a power of two never hit a cell twice in the first capacity steps |
| Probing.ProbesCover | util/map_util.h:528-532 | so they hit every cell |
| FlatTable.EmptyOnPath | util/map_util.h:287-309 | a table that is not full has an empty cell on every probe sequence |
| FlatTable.EmptyMeansAbsent | util/map_util.h:302-305 | an empty cell on the probe sequence proves that the key is absent |
| FlatTable.OneCellPerKey | util/map_util.h:287-309 | no key is in two cells |
| FlatTable.InsertCell | util/map_util.h:336-356 | a new key in the first tombstone or the empty cell keeps every key reachable |
| FlatTable.EraseCell | util/map_util.h:362-368 | a tombstone takes out one entry and interrupts no probe sequence |
| FlatTable.NextBelow | util/map_util.h:486-498 | copying cell by cell adds each entry exactly once |
| FlatMap.FlatMap.constructor | util/map_util.h:431-463 | an empty table that n entries fill to less than 4/5 |
| FlatMap.FlatMap.Size | util/map_util.h:431-438 | the smallest power-of-two table that n entries fill to less than 4/5 |
| FlatMap.FlatMap.Find | util/map_util.h:287-309 | finds exactly the keys of the map, and terminates |
| FlatMap.FlatMap.Probe | util/map_util.h:317-343 | the search of FindOrInsert: the cell of the key, or the first free cell of its probe sequence when the key is absent |
| FlatMap.FlatMap.FindOrInsert | util/map_util.h:317-360 | finds the key or adds exactly it, in the first free cell of its probe sequence; the counters stay exact and one cell in five stays empty |
| FlatMap.FlatMap.EraseAt | util/map_util.h:362-368 | removes exactly the entry in the cell |
| FlatMap.FlatMap.FreshInsert | util/map_util.h:505-526 | adds an absent key to a table without tombstones |
| FlatMap.FlatMap.CopyEntries | util/map_util.h:486-498 | moves every entry of the old array |
| FlatMap.FlatMap.Resize | util/map_util.h:400-407 | the contents stay, the tombstones go, the table fits |
| FlatMap.Thresholds | util/map_util.h:451-462 | a table grows at four fifths and shrinks below two fifths of that, but never below one bucket |
| FlatMap.FlatMap.MaybeResize | util/map_util.h:380-398 | says exactly when it resizes; the contents stay, the next insertion leaves an empty cell, also after Erase has set grow_ to 0, and a table that erasures have emptied gets smaller |
| FlatMap.FlatMap.ClearNoResize | util/map_util.h:237-252 | empties the map; the counters are exact afterwards exactly when there were no tombstones |
| FlatMap.FlatMap.Insert | util/map_util.h:915-925 | adds the pair exactly when the key was absent |
| FlatMap.FlatMap.Erase | util/map_util.h:783-790 | removes the key, and says whether it was there |
| FlatMap.FlatMap.Get | util/map_util.h:733-743 | the value of the key |
| FlatMap.FlatMap.Count | util/map_util.h:218-218 | not_empty_ - deleted_ is the number of entries |
| IntrusiveList.RemoveKeepsList | util/cache.cpp:264-268 | the two pointer writes take exactly one entry out of a circular list |
| IntrusiveList.AppendKeepsList | util/cache.cpp:270-277 | the four pointer writes add an entry at the newest end |
| HandleTable.ChainRemove | util/cache.cpp:98-108 | writing through the slot pointer takes one entry out of a chain |
| HandleTable.TablePut | util/cache.cpp:79-96 | a new entry replaces the one with its key or goes to the end of its chain; all others stay |
| HandleTable.TableCut | util/cache.cpp:98-108 | removing an entry from its chain leaves all others |
| HandleTable.HandleTable.FindPointer | util/cache.cpp:120-129 | the slot that points to the entry for the key, or the last slot of its chain when there is none |
| HandleTable.HandleTable.Lookup | util/cache.cpp:74-77 | the entry for the key, or none |
| HandleTable.HandleTable.Insert | util/cache.cpp:79-96 | the index maps the key to the new entry, the old one is returned, the count is exact, and there are at least as many buckets as entries |
| HandleTable.HandleTable.Remove | util/cache.cpp:98-108 | the key leaves the index, its entry is returned |
| HandleTable.HandleTable.MoveBucket | util/cache.cpp:143-156 | moving a chain entry by entry loses none and duplicates none |
| HandleTable.HandleTable.Resize | util/cache.cpp:131-162 | a table of at least elems_ buckets, and of no more than that needs, indexes the same entries; the assert on the count holds |
| CacheState.LruToInUse | util/cache.cpp:236-244 | the first client reference moves an entry to the in-use list and keeps the invariant |
| CacheState.InUseToLru | util/cache.cpp:246-262 | the last client reference moves it back, as the newest |
| CacheState.DeleteEntry | util/cache.cpp:250-255 | the last reference of all runs the deleter |
| CacheState.LeaveLists | util/cache.cpp:342-353 | an entry that leaves the cache leaves its list and the charge |
| CacheState.NewCached | util/cache.cpp:296-324 | a new entry is in use, charged and indexed; the one it replaces is out of the table |
| LRUCache.DeletedOnce | util/cache.cpp:246-262 | every entry that ever was is either still there or its deleter has run exactly once |
| LRUCache.LRUCache.Ref | util/cache.cpp:236-244 | one more reference; an idle entry leaves the LRU list |
| LRUCache.LRUCache.Unref | util/cache.cpp:246-262 | one reference less; the deleter runs when it was the last, and an entry nobody uses becomes the newest of the LRU list |
| LRUCache.LRUCache.FinishErase | util/cache.cpp:342-353 | an entry that is out of the table leaves list and charge and loses the cache's reference |
| LRUCache.LRUCache.Lookup | util/cache.cpp:279-288 | the entry for the key with one more reference, or none |
| LRUCache.LRUCache.Release | util/cache.cpp:290-294 | one client reference less, the deleter for the last |
| LRUCache.LRUCache.Erase | util/cache.cpp:355-359 | exactly the entry of the key leaves index, list and charge, or nothing changes; an entry in use survives for its clients |
| LRUCache.LRUCache.EvictOldest | util/cache.cpp:328-337 | the oldest idle entry leaves the cache and is deleted |
| LRUCache.LRUCache.Evict | util/cache.cpp:328-337 | idle entries go oldest first, no more than needed, until the charge fits or none is left |
| LRUCache.LRUCache.Insert | util/cache.cpp:296-340 | exactly the new entry is added in place of the one with its key (unless the capacity is 0), then idle entries are evicted oldest first and just enough; afterwards usage <= capacity or the LRU list is empty; handles of clients stay valid |
| LRUCache.LRUCache.Prune | util/cache.cpp:361-374 | exactly the idle entries are evicted and deleted; entries in use stay |
| Coding.FixedRoundTrip | util/coding_util.cc:22-35 | decoding inverts the fixed 32-bit encoding at any position |
| Coding.UnrolledVarint | util/coding_util.cc:56-92 | the five branches write the varint of the number, in at most 5 bytes |
| Coding.EncodeVarint64 | util/coding_util.cc:94-105 | the loop writes the varint of the number |
| Coding.DecodeVarint | util/coding_util.cc:445-503 | the decoding loop reads what the recursive reader reads, on any bytes |
| Coding.GetVarint32 | util/coding_util.cc:468-481 | the one-byte fast path agrees with the loop, on any bytes |
| Coding.Varint32RoundTrip | util/coding_util.cc:445-481 | decoding inverts encoding for every 32-bit number at any position |
| Coding.Varint64RoundTrip | util/coding_util.cc:483-503 | decoding inverts encoding for every 64-bit number at any position |
| Coding.ReadsGroups | util/coding_util.cc:445-503 | on any bytes, the reader accepts exactly the varints whose last group starts within the width, and returns the sum of their seven-bit groups in their places |
| Coding.LowestFirst | util/coding_util.cc:22-105 | the bytes of two numbers, in little-endian order |
| BlockFormat.FastPath | util/block.cpp:188-217 | the one-byte fast path of DecodeEntry agrees with the three varints, on any bytes |
| BlockFormat.EntryDecodes | util/block.cpp:188-217 | decoding an encoded entry gives back lengths, key (by prefix decompression) and value |
| BlockFormat.StaysInside | util/block.cpp:180-217 | for a decoded header and any limit: DecodeEntry accepts just the entries that end before the limit, exactly unless the sum of the two lengths is at least 2^32 and wraps around to something that fits |
| BlockFormat.LengthsWrap | util/block.cpp:212-215 | an entry whose lengths add up to 2^32 is accepted although its key ends past the limit |
| BlockFormat.AddIsLaid | util/block.cpp:445-484 | Add lays out one more entry and, at the restart interval, one more restart point with an unshared key |
| BlockFormat.FinishedIsBlock | util/block.cpp:433-443 | what Finish returns opens as a block with exactly the added entries and restart points |
| BlockFormat.OpenIs | util/block.cpp:143-170 | contents open as a block exactly when the number at their end is not zero and that many restart points fit before it |
| BlockFormat.LessIs | util/comparator.cpp:27-30 | one key is less than another exactly when it is a proper prefix or has the smaller byte at the first difference |
| BlockFormat.LessIsTotal | util/comparator.cpp:27-30 | of two keys exactly one is less, or they are equal |
| BlockFormat.RestartSpacing | util/block.cpp:445-484 | restart point j is where entry j * interval begins, so every restart block but the last has exactly interval entries |
| BlockFormat.BlockBytes | util/block.cpp:433-484 | a block of two entries, byte by byte |
| Block.BlockBuilder.Sharing | util/block.cpp:455-463 | the length of the longest common prefix |
| Block.BlockBuilder.Add | util/block.cpp:445-484 | the builder's state is that of one more entry |
| Block.BlockBuilder.Finish | util/block.cpp:433-443 | entries, restart points and their number |
| Block.DecodeAt | util/block.cpp:188-217 | DecodeEntry with its fast path, on any bytes |
| Block.Iter.ParseNextKey | util/block.cpp:356-389 | on any contents: succeeds exactly when an entry decodes whose shared length the current key has, and takes its key and value, else reports corruption; in a known block it lands on the next entry |
| Block.Iter.SeekToFirst | util/block.cpp:340-344 | the first entry, or the end of an empty block |
| Block.Iter.Next | util/block.cpp:285-289 | the next entry, or the end |
| Block.Iter.SeekRestart | util/block.cpp:291-323 | the binary search ends at a restart point before which every key is less than the target |
| Block.Iter.Seek | util/block.cpp:291-338 | lands on the first entry whose key is not less than the target in the order of BlockFormat.LessIs, or at the end exactly when there is none; terminates on any contents |
| Block.WriteAndRead | util/block.cpp:340-389 | building a block and reading it with SeekToFirst and Next gives back exactly the added entries, without corruption, for every restart interval >= 1 |
| Block.WriteAndSeek | util/block.cpp:291-338 | Seek in a built block, for every restart interval >= 1 |
| JsonRoundTrip.EscapeTrip | util/cJSON.cpp:355-390 | every escape the printer writes is read back as the character it stands for |
| JsonRoundTrip.StringTrip | util/cJSON.cpp:224-396 | parse_string inverts print_string_ptr and consumes exactly its text |
| JsonStrings.Utf8Decodes | util/cJSON.cpp:286-311 | the bytes written for a number decode to it, by a decoder of UTF-8 of its own, for every number below 0x110000 |
| JsonStrings.DecodedIsUtf8 | util/cJSON.cpp:286-311 | no other bytes decode to it |
| JsonStrings.HexReads | util/cJSON.cpp:178-220 | four hexadecimal digits in any case are read as the number they spell |
| JsonStrings.HexWasThere | util/cJSON.cpp:178-220 | a number other than 0 is read only where four hexadecimal digits spell it |
| JsonStrings.UnitParses | util/cJSON.cpp:268-312 | a \u escape of a code point other than 0 and outside the surrogates adds the UTF-8 of that code point |
| JsonStrings.PairParses | util/cJSON.cpp:268-312 | an escaped surrogate pair adds the UTF-8 of the code point it stands for (section 7 of RFC 8259) |
| JsonStrings.NothingElse | util/cJSON.cpp:268-312 | no other \u escape adds anything |
| JsonStrings.StringMeans | util/cJSON.cpp:224-327 | every string in every spelling (plain characters, two-character escapes, \u escapes and pairs) is read as the characters it stands for, and exactly its text is consumed |
| JsonRoundTrip.NumberTrip | util/cJSON.cpp:112-149 | parse_number reads back every printed integer |
| JsonNumbers.NumberMeans | util/cJSON.cpp:112-149 | every number in every spelling of section 6 of RFC 8259 is read as the mantissa and exponent it denotes, by the values of its digits in their places, and exactly its text is consumed |
| JsonNumbers.NumberAccepts | util/cJSON.cpp:112-149 | on any text, what is taken for a number has that form (but for a leading zero, and missing digits behind "-" or "e") and that value |
| JsonRoundTrip.ItemsTrip | util/cJSON.cpp:530-646 | the items of a printed array are read back |
| JsonRoundTrip.MembersTrip | util/cJSON.cpp:649-823 | the members of a printed object are read back |
| JsonRoundTrip.ValueTrip | util/cJSON.cpp:455-823 | every printed value is read back wherever it stands in a text, formatted or not, at any depth |
| JsonRoundTrip.RoundTrip | util/cJSON.cpp:417-452 | parsing a printed value rebuilds it and consumes exactly its text |
| JsonDocuments.DocReads | util/cJSON.cpp:455-823 | every value that the grammar of RFC 8259 derives, with any blanks and in any spelling, is read as the value it means |
| JsonDocuments.TextMeans | util/cJSON.cpp:417-446 | so is every whole text, and nothing but blanks is left |
| JsonValidity.EscapedArePieces | util/cJSON.cpp:330-396 | the text of a printed string is made of proper pieces without control characters, and they mean the string |
| JsonValidity.ValueIsDocument | util/cJSON.cpp:497-823 | every printed text, formatted or not, is derived by the grammar of RFC 8259 without any liberties, and means the printed value |
| JsonAcceptance.StringAccepts | util/cJSON.cpp:224-327 | on any text, what is taken for a string is a quote, proper pieces, odd or dropped escapes, and a quote or the end of the text, and its characters are those of the pieces |
| JsonAcceptance.ValueAccepts | util/cJSON.cpp:455-823 | on any text, the parser accepts only what that grammar derives, up to the liberties in numbers and strings, and returns the value of the derivation |
| JsonRoundTrip.ArrayLayout | util/cJSON.cpp:571-646 | the formatted and the unformatted text of an array with an empty object |
| JsonRoundTrip.ObjectLayout | util/cJSON.cpp:710-823 | the formatted text of an object: lines, tabs and colon |
| JsonCode.SkipBlanks | util/cJSON.cpp:409-414 | skip |
| JsonCode.ReadNumber | util/cJSON.cpp:112-149 | parse_number on any text: sign, integer part, fraction, exponent; what it yields is JsonNumbers.NumberMeans and JsonNumbers.NumberAccepts |
| JsonCode.ReadString | util/cJSON.cpp:224-327 | parse_string on any text |
| JsonCode.PutUtf8 | util/cJSON.cpp:286-311 | the falling-through switch writes the UTF-8 of the number from the last byte to the first, with the bit operations of the source, and touches nothing else |
| JsonCode.ReadUnicode | util/cJSON.cpp:268-312 | the case 'u', with the halves of a surrogate pair joined by bit operations and the bytes written backwards, on any text |
| JsonCode.ContinuationByte | util/cJSON.cpp:299-307 | setting bit 7 and masking with 0xBF gives 0x80 and the last six bits of the number |
| JsonCode.ReadValue | util/cJSON.cpp:455-494 | parse_value on any text, failures included |
| JsonCode.ReadItems | util/cJSON.cpp:530-568 | the loop of parse_array on any text |
| JsonCode.ReadMembers | util/cJSON.cpp:649-707 | the loop of parse_object on any text |
| JsonCode.Parse | util/cJSON.cpp:417-446 | cJSON_ParseWithOpts: a value after blanks, on request with nothing but blanks after it |
| JsonCode.WriteString | util/cJSON.cpp:330-396 | print_string_ptr |
| JsonCode.WriteArray | util/cJSON.cpp:571-646 | print_array |
| JsonCode.WriteObject | util/cJSON.cpp:710-823 | print_object, formatted and unformatted, empty ones included |
| JsonCode.WriteValue | util/cJSON.cpp:497-527 | print_value |
| JsonCode.PrintAndParse | util/cJSON.cpp:417-452 | printing and parsing gives the value back, with the end of the text as the end of the parse |
| Crc32.ByteIsLinear | util/crc_util.cpp:199-204 | eight steps of division by the polynomial are linear over exclusive or |
| Crc32.TablesOk | util/crc_util.cpp:10-185 | all 1024 table entries are one to four byte steps of their index |
| Crc32.Step1IsByte | util/crc_util.cpp:199-204 | STEP1 is one byte of bitwise CRC32C |
| Crc32.Step4IsByte4 | util/crc_util.cpp:206-213 | the four-table STEP4 is four byte steps |
| Crc32.Crc32Extend | util/crc_util.cpp:193-245 | the four loops equal bit-by-bit CRC32C, with the register complemented before and after, for every buffer, length and alignment |
| Crc32.ExtendOfConcat | util/crc_util.cpp:193-245 | Extend(Extend(c, A), B) = Extend(c, A + B) |
| Crc32.Residue | util/crc_util.cpp:193-248 | data with its checksum behind it, the lowest byte first, always has the checksum 0x48674bc7 |
| Crc32.CheckValue | util/crc_util.cpp:193-248 | the checksum of "123456789" is 0xe3069283 |
| CleanPath.CleanTwice | util/env_util.cpp:396-498 | cleaning is idempotent on every string: the result has no NUL, and cleaning it again gives it back |
| CleanPath.StackIsClean | util/env_util.cpp:396-498 | the cleaned path has no empty and no "." part, and ".." only at the start of a relative path |
| CleanPath.CleanLeads | util/env_util.cpp:396-498 | the cleaned path leads where the path leads, from every directory, going along it part by part, and is absolute just when the path is |
| CleanPath.PartsOfSlash | util/env_util.cpp:396-498 | a slash separates the parts before it from those after it |
| CleanPath.OnePartOrNone | util/env_util.cpp:396-498 | a text without slashes is one part, or none |
| CleanPath.CopyPart | util/env_util.cpp:463-473 | copies a part and its slash in place, without overtaking the unread text |
| CleanPath.Backtrack | util/env_util.cpp:432-439 | takes back exactly the last part |
| CleanPath.UpPart | util/env_util.cpp:428-459 | ".." takes back a part, is dropped at the root, or is kept at the start of a relative path |
| CleanPath.OnePart | util/env_util.cpp:415-473 | every part does to the text what pushing it does to the component stack |
| CleanPath.CleanPath | util/env_util.cpp:396-498 | the result is the path of the component stack, for every string |

## Left out

- Weak memory: every atomic operation is one sequentially consistent step, and fences are not modelled.
- Wrap-around of the 64-bit counters of the queues and of the semaphore's count.
- `MPMCBoundedQueue::sp_produce`, which names a missing field and is not part of the working protocol, and the other queues, hazard pointers and blocking queues of `lock_free_util` and `locks_util`.
- Progress: that a spinning loop ends under contention. Calls are proved to end when nobody disturbs them.
- The number of spins before a semaphore wait blocks: any number is allowed.
- UserRcu.RunSafe: covers at most 512 threads; with more the assert in the source fails in some run (UserRcu.AssertHoldsIff).
- LockFreeList.RunInv: covers fewer than 2^31 - 1 threads, for which a 31-bit count has room.
- RWSpinLock.WordFits: needs fewer than 2^29 threads, because the reader count has 29 bits.
- Cuckoo keys: after the word 2^64 - 1 has been stored as a second 0 the table is no map, and no further calls are modelled; callers are asked not to use that word (util/cuckoo_map.h:708-713).
- Floating point: the load factors 0.85, 0.8 and 0.4 are exact rationals, and JSON numbers are a decimal mantissa and exponent.
- JsonRoundTrip.RoundTrip: covers 32-bit integers and strings without NUL, because fractions are printed through floating-point formats and NUL ends a C string.
- JsonAcceptance.ValueAccepts: covers texts that do not end inside a malformed escape, because the source reads on behind such a text.
- The sizes of the character buffers that the JSON code allocates (strings grow by appending; the UTF-8 bytes of one escape are written in place), and text read past the terminating NUL by malformed escapes, which the model reads as NUL.
- The child/next/prev links between JSON nodes: children are sequences.
- BlockHandle, Footer, ReadBlock and the block trailer, and bytes outside a block that an entry with wrapping lengths would read.
- The destructor of LRUCache, ShardedLRUCache and LRUCacheEasy, and the reuse of freed memory: entry names are fresh.
- The bucket structure of FlatRep: cell i stands for entry i % 8 of bucket i / 8; FlatSet, iterators, `clear` followed by use with tombstones, and copying between maps.
- Memory allocation failure.
- All operating-system and input/output code: the rest of `env_util`, `file_util`, `io_util`, `ipc_util`, `logging_util`, `conf_util`.
- Simple helpers and wrappers that would only add easy members: fixed 16- and 64-bit coding, base64, byte swaps, histograms, string utilities, bitmap helpers.
