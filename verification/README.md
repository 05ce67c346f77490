# A verified model of the libcuckoo hash table

libcuckoo's `cuckoohash_map` is a concurrent hash table with two candidate buckets per key. A full pair of buckets is
relieved by a bounded breadth-first search for an empty slot and by moving entries along the path found; a full table
is doubled lock by lock while other threads already use the new size. This project models that table and the lazily
allocated lock array it stands on, and proves what the code relies on without saying so in one place:

* **No interleaving loses, duplicates or misplaces a key.** `Protocol` is a state machine for any number of threads, one
  step per lock acquisition, hash power check, action under locks, or lock release. In every state of every run each key
  is in at most one slot, in a bucket where a lookup finds it, and the whole run is a run of an atomic map
  (`AtomicMap`) with the same calls and returns. Nothing deadlocks, a call left alone comes to its end with its effect,
  and an insertion throws only if it has found both its buckets full. Threads may also own the table as a whole, to
  clear or list it; the one thing that can go wrong there, an owner unlocking a lock it never took, is shown to be
  reachable and exactly when.
* **One thread sees a plain map.** `CuckooMap` is the mutable object itself. Each public operation is proved against a
  `map<Key, Value>`, through displacement, any number of doublings, and rebuilds, with its error cases.
* **The search is exact where it can be.** Over an unchanging table `SlotSearch` returns a shortest path, whose buckets
  are pairwise distinct, the second pass recovers exactly that path, and the moves then succeed at the first attempt.
  It fails exactly when every slot in its fixed, table-independent order is occupied; with four slots these are all
  slots within three kicks, save one particular slot that the queue is too short for. Under arbitrary interference the
  search still terminates, and following the path it returns is harmless.
* **Insertion ends.** A positive minimum load factor or a maximum hash power bounds how often an insert doubles the
  table, for any hash function; and with neither, a crowd of colliding keys provably leaves the allocator as the only
  limit. Doubling is a function of the table, so whether an insert or upsert is refused, and at which hash power it
  ends, is stated as an equivalence over the table before the call.

A key is its identity together with the value of an arbitrary hash function, so equal keys hash equally and nothing else
is assumed about hashing. Values are opaque. Machine words wrap where the code lets them: the hash multiplication, the
element counters, the size sum, and the arithmetic that finds the size of a new table. Load factors are fractions.

| module | what it holds |
|---|---|
| `Bits`, `Hashing` | bit arithmetic; partial keys, the two candidate buckets, what doubling does to them |
| `Tables`, `TableSteps`, `Migration`, `Doubling` | bucket arrays as values, the map they represent, single writes, splitting buckets, in the middle of a doubling too |
| `SearchQueue`, `PathCodes`, `Bfs`, `SearchOrder`, `SlotSearches`, `CuckooPaths` | the circular queue, path codes, the order and outcome of the search, the recovery of a path |
| `Locks`, `LazyArrays`, `Counters` | lock striping and order, the lock array, the per-lock element counters |
| `Options` | optional values, and why an operation throws |
| `Crowding`, `Sizing`, `Rebuilding`, `Blocking` | how much a table can hold, how large a new one is made, copying slot by slot, the sizes at which that may get stuck |
| `CuckooMaps` | the table as one thread sees it |
| `Walks`, `LockedTables` | iterators over a locked table |
| `Protocol`, `AtomicMap` | the shared table as a state machine, and its specification |
| `ProtocolSafety`, `ProtocolActions`, `ProtocolRefinement`, `ProtocolProgress` | its invariant, refinement, and absence of deadlock |
| `ProtocolThrows`, `ProtocolSolo` | when an insertion may throw; a call that nobody disturbs comes to its end |
| `ProtocolCounters` | the element counters beside the shared table |
| `ProtocolRelease`, `ProtocolOverrun` | what the owner of the whole table unlocks, and a run in which that is too much |

Where the code and its comments disagree the model follows the code:

* the comment that partials depend on the hash power (`libcuckoo/cuckoohash_map.hh:1887-1888`) is out of date; a partial
  is stored once and never changes (`libcuckoo/cuckoohash_map.hh:693-696`);
* `rehash` is documented to return whether the size changed (`libcuckoo/cuckoohash_map.hh:611`); it returns whether the
  table was rebuilt. With at most as many entries as a bucket has slots, and no wrap, the two differ exactly for hash
  power 1 and argument 0; with more entries than half the table holds, a rebuild at a smaller size never shrinks it;
  and with four slots a request for hash power 62 wraps to zero slots and rebuilds the table small. `CuckooMap.Rehash`
  and `Sizing.StartPowerIsExact` state these;
* `reserve` is documented to make room for n elements and to return whether the size changed
  (`libcuckoo/cuckoohash_map.hh:623-630`); when rounding n up, or the slots of the table found for it, does not fit a
  word it makes none, and this is the exact condition whatever the table holds (`CuckooMap.Reserve`,
  `Sizing.RoomInGranted`). Its result says that the table was rebuilt, as for `rehash`, and the table does not shrink
  if half of it cannot hold the entries;
* `upsert` is documented to always succeed (`libcuckoo/cuckoohash_map.hh:568-570`); doubling can be refused.
  `CuckooMap.Upsert` gives the condition that is equivalent to an error, and `CuckooMap.UpsertUntilRefused` brings any
  table there. Its first doubling ignores the minimum load factor;
* a locked table is documented to release the locks it took (`libcuckoo/cuckoohash_map.hh:1975-1986`); it releases as
  many as are allocated by then. `ProtocolRelease.MisusedExactlyIfGrown` says when these differ, `ProtocolOverrun` shows
  that they can, and `ProtocolRelease.AllAllocatedNeverMisuses` that they cannot at granularity 0.

Verify everything with `dafny verify --resource-limit 2000000 --verification-time-limit 0 dfyconfig.toml`.

## Model

| member | source | states |
|---|---|---|
| Hashing.AltUndoes | libcuckoo/cuckoohash_map.hh:1005-1016 | for every hash power, partial and in-range index, the alternative of the alternative is the index itself |
| Hashing.HomeIsHashModulo | libcuckoo/cuckoohash_map.hh:1001-1003 | the home bucket of every key is its hash modulo the number of buckets |
| Hashing.OtherIsXor | libcuckoo/cuckoohash_map.hh:1010-1016 | the other bucket is the home bucket xor the wrapped product of the partial plus one with the Murmur constant, modulo the number of buckets |
| Hashing.PartialFoldsBytes | libcuckoo/cuckoohash_map.hh:697-709 | the partial is the xor of the eight bytes of the hash |
| Hashing.DoublingAddsTopBit | libcuckoo/cuckoohash_map.hh:1731-1735 | both index functions at hash power hp+1, reduced modulo 2^hp, are those at hp |
| Hashing.CandidatesAfterDoubling | libcuckoo/cuckoohash_map.hh:1731-1735 | after a doubling each candidate is the old one or exactly 2^hp above it |
| Hashing.CandidatesCoincide | libcuckoo/cuckoohash_map.hh:1010-1016 | the two candidates are one bucket exactly when 2^hp divides the partial plus one |
| Hashing.CandidatesDifferFrom9 | libcuckoo/cuckoohash_map.hh:1010-1016 | with 2^9 buckets or more every key has two distinct candidates |
| Hashing.CandidatesCoincideBelow9 | libcuckoo/cuckoohash_map.hh:1010-1016 | at every smaller size some hash has coinciding candidates, so 9 is the exact threshold |
| Hashing.KickLandsOnCandidate | libcuckoo/cuckoohash_map.hh:1005-1016 | an entry kicked out of one of its candidates lands on the other one |
| Tables.MoveKeepsContents | libcuckoo/cuckoohash_map.hh:296-308 | moving an entry to an empty slot neither loses nor duplicates a pair |
| Tables.LookupIsMembership | libcuckoo/cuckoohash_map.hh:1514-1541 | in a placed table a key is stored exactly when one of its two buckets has it |
| Tables.CountIsSize | libcuckoo/cuckoohash_map.hh:1707-1713 | the number of occupied slots is the size of the represented map |
| TableSteps.InsertKeepsOk | libcuckoo/cuckoohash_map.hh:1406-1413 | filling an empty slot of a settled candidate bucket keeps the table invariant mid-doubling and adds exactly that pair |
| TableSteps.EraseKeepsOk | libcuckoo/cuckoohash_map.hh:1447-1465 | emptying a slot keeps the invariant and removes exactly that key |
| TableSteps.UpdateKeepsOk | libcuckoo/cuckoohash_map.hh:1470-1487 | overwriting a value keeps the invariant and changes exactly that key's value |
| TableSteps.KickKeepsOk | libcuckoo/cuckoohash_map.hh:1278-1290 | a kick whose source has the expected hash, whatever its key, keeps the invariant, the map and the count |
| TableSteps.LookupMidDoubling | libcuckoo/cuckoohash_map.hh:1889-1895 | with some buckets not yet migrated, a key with settled buckets is stored exactly when one of them has it |
| Migration.MovesIsRight | libcuckoo/cuckoohash_map.hh:1749-1771 | an entry moves exactly if the upper bucket is one of the two candidates of its key afterwards, also when the two coincided before; if not, it is in one of them |
| Migration.SplitMovesEntry | libcuckoo/cuckoohash_map.hh:1753-1764 | the next slot of the new bucket is free, so splitting never runs out of slots; map and count stay |
| Migration.MigrateBucketKeepsMap | libcuckoo/cuckoohash_map.hh:1728-1771 | splitting one bucket settles it, leaves the other pending ones alone, and keeps the map |
| Migration.DoubleStarts | libcuckoo/cuckoohash_map.hh:1879-1880 | doubling the bucket array keeps the map and makes exactly the old buckets pending |
| Doubling.NextOfLock | libcuckoo/cuckoohash_map.hh:1726-1728 | striding by the number of locks meets every bucket of a lock |
| Doubling.AllDealt | libcuckoo/cuckoohash_map.hh:1889-1892 | dealing with the locks of the old table deals with every old bucket |
| Doubling.ComesFromAfterMove | libcuckoo/cuckoohash_map.hh:1731-1735 | a split moves an entry only up by 2^hp and keeps its partial and value |
| Doubling.SplitIsLocal | libcuckoo/cuckoohash_map.hh:1728-1771 | splitting a bucket depends on that bucket and the one 2^hp above alone, so the order in which buckets are split does not matter |
| Doubling.GrownNext | libcuckoo/cuckoohash_map.hh:1726-1773 | splitting one more bucket brings the table one bucket closer to the doubled table `Grown` |
| Doubling.GrowingEnds | libcuckoo/cuckoohash_map.hh:1892-1893 | with every bucket split, the table is exactly `Grown` of the one before |
| Doubling.GrownPutsInPlace | libcuckoo/cuckoohash_map.hh:1731-1771 | in the doubled table every entry of old bucket b is in b + 2^hp exactly when that is one of its candidates there, and otherwise in b |
| Doubling.GrownKeepsMap | libcuckoo/cuckoohash_map.hh:1728-1773 | the doubled table satisfies the table invariant and holds the same map |
| SearchQueue.BQueue.constructor | libcuckoo/cuckoohash_map.hh:1097 | an empty FIFO |
| SearchQueue.BQueue.Enqueue | libcuckoo/cuckoohash_map.hh:1099-1103 | appends to the FIFO sequence; only called when not full |
| SearchQueue.BQueue.Dequeue | libcuckoo/cuckoohash_map.hh:1105-1110 | takes the head of the FIFO sequence; only called when not empty |
| SearchQueue.BQueue.Empty | libcuckoo/cuckoohash_map.hh:1112-1114 | true exactly for the empty sequence |
| SearchQueue.BQueue.Full | libcuckoo/cuckoohash_map.hh:1116-1118 | true exactly at 511 entries |
| PathCodes.DecodeEncode | libcuckoo/cuckoohash_map.hh:1182-1197 | decoding recovers the slots and the start bucket of every encoded path; codes stay below 2 * slots^n |
| PathCodes.EncodeDecode | libcuckoo/cuckoohash_map.hh:1182-1197 | every code is the code of what it decodes to, with start bucket 0 or 1 |
| PathCodes.DigitBound | libcuckoo/cuckoohash_map.hh:1146-1157 | one more slot keeps a code below its bound |
| Bfs.ShortestPathIsSimple | libcuckoo/cuckoohash_map.hh:1121-1164 | the buckets of a shortest path to an empty slot are pairwise distinct and all slots before the last are occupied |
| SlotSearches.ExamineBucket | libcuckoo/cuckoohash_map.hh:1136-1159 | the inner loop: children of occupied slots are queued in cyclic order, the total weight of the queue shrinks, the fixed order of nodes is kept, and what is found empty is a slot of that order |
| SlotSearches.SlotSearch | libcuckoo/cuckoohash_map.hh:1128-1164 | terminates under arbitrary interference with depth below 5, and below 4 with four slots or more; over an unchanging table finds a shortest path, and fails exactly if every slot in its fixed order is occupied, for every number of slots |
| SlotSearches.FullInside | libcuckoo/cuckoohash_map.hh:1135-1163 | when the queue fills inside a bucket, exactly the slots of the fixed order have been seen |
| SearchOrder.LastNode | libcuckoo/cuckoohash_map.hh:1129-1158 | in the fixed breadth-first order of four-slot nodes, code 78 belongs to the last node of depth 3 and to no other of that depth |
| SearchOrder.NodeWithCode | libcuckoo/cuckoohash_map.hh:1133-1157 | every path code of every depth is that of a node of the fixed order |
| SearchOrder.ExaminedIsShallow | libcuckoo/cuckoohash_map.hh:1135-1157 | with four slots or more no node deeper than 3 is examined before the queue is full |
| SearchOrder.FourSlots | libcuckoo/cuckoohash_map.hh:1128-1164 | with four slots, everything examined is occupied exactly if all slots within three kicks are but for slot 1 of the node of path code 78 |
| SearchOrder.FourSlotsNoRoom | libcuckoo/cuckoohash_map.hh:1552-1612 | with four slots, an insert finds no room exactly if all slots within three kicks but that one are occupied |
| SlotSearches.QueueRanEmpty | libcuckoo/cuckoohash_map.hh:1135-1163 | when the queue runs empty, every bucket up to four kicks away is full; with up to three slots it can only end so |
| SlotSearches.FoundIsFree | libcuckoo/cuckoohash_map.hh:1139-1148 | the slot found empty is one of those in the fixed order, so a search that finds something had room |
| CuckooPaths.DecodePath | libcuckoo/cuckoohash_map.hh:1182-1185 | the division loop computes exactly the decoding of the path code |
| CuckooPaths.Retrace | libcuckoo/cuckoohash_map.hh:1190-1224 | under interference: the decoded slots from the decoded bucket on, every record but the last read occupied with its hash, shorter than the code only if the last slot was read empty, and given up exactly at another hash power; over an unchanging table it has full length and is still possible |
| CuckooPaths.PathSearch | libcuckoo/cuckoohash_map.hh:1174-1225 | search and recovery together: always a well-formed path that says what was read, over an unchanging table a live one of shortest length, and none exactly if nothing in the fixed order is free |
| CuckooPaths.FreeHasPath | libcuckoo/cuckoohash_map.hh:1127-1164 | unless every slot in the fixed order is occupied, there is a path of the table along which every kick is possible |
| Locks.LockIndInRange | libcuckoo/cuckoohash_map.hh:982-985 | the lock of a bucket is among the first min(2^16, 2^hp) |
| Locks.UpperHalfLock | libcuckoo/cuckoohash_map.hh:1883-1892 | the bucket 2^hp above has the same lock from hash power 16 on, and before that one the smaller table did not use |
| Locks.Plan2 | libcuckoo/cuckoohash_map.hh:835-848 | two locks in ascending order, each once |
| Locks.Plan3 | libcuckoo/cuckoohash_map.hh:870-886 | three locks in ascending order, each once |
| LazyArrays.LazyArray.constructor | libcuckoo/lazy_array.hh:90 | nothing can be indexed yet |
| LazyArrays.LazyArray.SplitIsInjective | libcuckoo/lazy_array.hh:43-50 | segment and offset identify an element |
| LazyArrays.LazyArray.AddressesContents | libcuckoo/lazy_array.hh:43-50 | segment and offset of an index lead to the element with that index in the segments put in a row |
| LazyArrays.LazyArray.Allocate | libcuckoo/lazy_array.hh:138-151 | the sequence of elements is extended by zeros up to the segment of the target; elements and segments that exist stay as they are |
| LazyArrays.LazyArray.AllocatedSize | libcuckoo/lazy_array.hh:155-162 | the length of the sequence of elements |
| LazyArrays.LazyArray.Clear | libcuckoo/lazy_array.hh:108-115 | the sequence of elements is empty |
| LazyArrays.LazyArray.IndexInRange | libcuckoo/lazy_array.hh:128-131 | every index below an allocated target is in an allocated segment |
| LazyArrays.LazyArray.Get | libcuckoo/lazy_array.hh:124-127 | the element with that index of the sequence that the segments make up, so what Set wrote and Allocate kept |
| LazyArrays.LazyArray.Set | libcuckoo/lazy_array.hh:118-121 | updates the sequence of elements at one index |
| LazyArrays.AllocationCovers | libcuckoo/cuckoohash_map.hh:1877 | for every segment size that divides 2^16, allocation covers min(2^16, 2^hp) locks and stays within the array |
| LazyArrays.GranularityDivides | libcuckoo/cuckoohash_map.hh:317-327 | for every granularity from 0 to 16 the segments make up exactly 2^16 locks |
| LazyArrays.AllocateForTable | libcuckoo/cuckoohash_map.hh:1877 | construction and doubling: every lock of the table can be indexed afterwards, existing locks untouched |
| Counters.IncrementAddsOne | libcuckoo/cuckoohash_map.hh:1779-1784 | the sum of the counters modulo 2^64 grows by one |
| Counters.DecrementTakesOne | libcuckoo/cuckoohash_map.hh:1786-1792 | the sum shrinks by one even when the counter itself wraps |
| CuckooMaps.FindInBucket | libcuckoo/cuckoohash_map.hh:1362-1381 | comparing partials first finds the same slot as comparing keys alone |
| CuckooMaps.TryFindInsertBucket | libcuckoo/cuckoohash_map.hh:1420-1442 | reports a duplicate anywhere in the bucket, else the first empty slot or -1 |
| CuckooMaps.ReserveCalc | libcuckoo/cuckoohash_map.hh:344-350 | computes the least hash power with room for n, exactly if rounding n up fits a word; otherwise what the wrapped sum gives |
| CuckooMaps.CuckooMap.Lock | libcuckoo/cuckoohash_map.hh:187-193 | a lock is taken only above all locks held |
| CuckooMaps.CuckooMap.Unlock | libcuckoo/cuckoohash_map.hh:201-203 | a lock is released only while held |
| CuckooMaps.CuckooMap.CheckHashpower | libcuckoo/cuckoohash_map.hh:813-819 | gives the lock back exactly when the hash power is another one |
| CuckooMaps.CuckooMap.LockTwo | libcuckoo/cuckoohash_map.hh:835-848 | holds exactly the two locks, or nothing if the hash power is not the expected one |
| CuckooMaps.CuckooMap.LockThree | libcuckoo/cuckoohash_map.hh:870-893 | holds exactly the three locks, each taken once; the extra container exists exactly if its lock is a third one |
| CuckooMaps.CuckooMap.UnlockTwo | libcuckoo/cuckoohash_map.hh:776-784 | releases each of the two locks once |
| CuckooMaps.CuckooMap.UnlockExtra | libcuckoo/cuckoohash_map.hh:1291-1295 | from the three locks, the extra container releases its own exactly if it has one; the insert buckets stay locked |
| CuckooMaps.CuckooMap.UnlockThree | libcuckoo/cuckoohash_map.hh:888-893 | from the three locks taken by LockThree, the two containers release exactly these, each once |
| CuckooMaps.CuckooMap.SnapshotAndLockTwo | libcuckoo/cuckoohash_map.hh:901-915 | returns the two candidates of the key with exactly their locks held |
| CuckooMaps.CuckooMap.SnapshotAndLockAll | libcuckoo/cuckoohash_map.hh:975-980 | holds every allocated lock |
| CuckooMaps.CuckooMap.UnlockAll | libcuckoo/cuckoohash_map.hh:957-964 | for one thread: releases every lock once |
| CuckooMaps.CuckooMap.Locate | libcuckoo/cuckoohash_map.hh:1514-1541 | under the two locks a key is found exactly when the map has it, with its value |
| CuckooMaps.CuckooMap.Find | libcuckoo/cuckoohash_map.hh:477-483 | the value of the key in the map, or none; all locks released |
| CuckooMaps.CuckooMap.Contains | libcuckoo/cuckoohash_map.hh:501-507 | whether the map has the key |
| CuckooMaps.CuckooMap.AddToBucket | libcuckoo/cuckoohash_map.hh:1406-1413 | under the lock of the bucket, adds the pair to the map and keeps the counters' sum |
| CuckooMaps.CuckooMap.EraseFromBucket | libcuckoo/cuckoohash_map.hh:1447-1465 | under the lock, removes the key of the slot and keeps the counters' sum |
| CuckooMaps.CuckooMap.SetValue | libcuckoo/cuckoohash_map.hh:1481-1484 | under the lock, changes the value of the key of the slot |
| CuckooMaps.CuckooMap.Erase | libcuckoo/cuckoohash_map.hh:532-538 | removes the key and reports whether it was there |
| CuckooMaps.CuckooMap.Update | libcuckoo/cuckoohash_map.hh:542-549 | sets the value of a key that is there |
| CuckooMaps.CuckooMap.UpdateFn | libcuckoo/cuckoohash_map.hh:555-564 | applies the function to the value of a key that is there |
| CuckooMaps.CuckooMap.UpdateLocked | libcuckoo/cuckoohash_map.hh:1680-1693 | the same under the two locks, which stay held |
| CuckooMaps.CuckooMap.MoveStep | libcuckoo/cuckoohash_map.hh:1256-1296 | one step of a path, however stale: it moves exactly if the entry of that hash and the empty slot are still there, and nothing else changes; map kept, locks as required |
| CuckooMaps.CuckooMap.CuckooPathMove | libcuckoo/cuckoohash_map.hh:1235-1298 | however stale the path: the new buckets are those after kicking from its end until a kick is no longer possible, and success means all were; map and placement are kept; on success its first slot is empty and both insert buckets are locked, on failure nothing is; a live path succeeds |
| CuckooMaps.CuckooMap.RunCuckoo | libcuckoo/cuckoohash_map.hh:1308-1357 | the loop body runs at most once; success frees a slot of an insert bucket, failure changes nothing and happens exactly if nothing in the fixed order of the search is free |
| CuckooMaps.CuckooMap.CuckooInsert | libcuckoo/cuckoohash_map.hh:1552-1612 | duplicate exactly if the key is there; full exactly if it is absent, both its buckets are full and no path frees a slot; a table reported full is unchanged and holds at least a bucket of entries |
| CuckooMaps.CuckooMap.TryFindInsert | libcuckoo/cuckoohash_map.hh:1554-1562 | both buckets are looked through for the key, and for their first free slots |
| CuckooMaps.CuckooMap.InsertAfterMoves | libcuckoo/cuckoohash_map.hh:1577-1612 | makes room, looks for the key again, and adds it to a candidate bucket; full exactly if no path frees a slot |
| CuckooMaps.CuckooMap.Size | libcuckoo/cuckoohash_map.hh:1707-1713 | the wrapped sum of the counters is exactly the size of the map |
| CuckooMaps.CuckooMap.Clear | libcuckoo/cuckoohash_map.hh:391-396 | the map is empty afterwards, the counters' sum zero, every lock released |
| CuckooMaps.CuckooMap.MoveBucket | libcuckoo/cuckoohash_map.hh:1736-1773 | the slot loop computes the split of the bucket, keeping map and counters' sum |
| CuckooMaps.CuckooMap.MoveLock | libcuckoo/cuckoohash_map.hh:1726-1774 | every bucket of one lock is split, whatever else is still pending, and is then what it is in the doubled table |
| CuckooMaps.CuckooMap.MoveBuckets | libcuckoo/cuckoohash_map.hh:1723-1778 | splits all buckets of a range of locks and releases exactly those locks; the split buckets are what they are in the doubled table |
| CuckooMaps.CuckooMap.AllocateLocks | libcuckoo/cuckoohash_map.hh:1877 | more locks with zero counters, enough for the larger table; nothing else changes |
| CuckooMaps.CuckooMap.MigrateAndUnlock | libcuckoo/cuckoohash_map.hh:1892-1899 | the two unlocking phases release every lock once and leave exactly the doubled table |
| CuckooMaps.CuckooMap.FastDouble | libcuckoo/cuckoohash_map.hh:1854-1901 | keeps the map in every case, says exactly which case occurs, and on success the buckets are the function `Grown` of the old ones and every entry is in b + 2^hp exactly when that is one of its candidates there, otherwise in its old bucket b |
| CuckooMaps.CuckooMap.Grow | libcuckoo/cuckoohash_map.hh:1632-1638 | doubles exactly if load factor, maximum and allocator allow, to the function `Grown` of the table, with a strictly smaller bound on further doublings |
| CuckooMaps.CuckooMap.InsertOrGrow | libcuckoo/cuckoohash_map.hh:1624-1640 | one round of the insert loop: refused exactly if the key is absent, there is no room and the table may not double; doubled exactly if it may |
| CuckooMaps.CuckooMap.CuckooInsertLoop | libcuckoo/cuckoohash_map.hh:1619-1643 | terminates; an error exactly if the key is absent and the table refuses it, now or after the doublings it may make, with the contents unchanged; the final hash power is exactly the first with room or without leave to double; bounds by load and maximum |
| CuckooMaps.CuckooMap.CrowdedNowhere | libcuckoo/cuckoohash_map.hh:1624-1643 | no reachable table holds one key more than 2 * slots with one hash, so such an insert cannot succeed |
| CuckooMaps.CuckooMap.Insert | libcuckoo/cuckoohash_map.hh:522-527 | as the loop, so with room it succeeds without growing; and with no limit set a crowd of colliding keys is stopped by the allocator alone |
| CuckooMaps.CuckooMap.Upsert | libcuckoo/cuckoohash_map.hh:571-601 | updates a present key, inserts an absent one, or refuses with the contents unchanged: exactly if there is no room and the table is at its cap or the doubled table refuses an insertion; so always for a colliding crowd, and never with fewer entries than a bucket has slots |
| CuckooMaps.CuckooMap.TryUpsert | libcuckoo/cuckoohash_map.hh:578-591 | one attempt of upsert under the two locks; it finds the table full exactly if the key is absent and there is no room |
| CuckooMaps.CuckooMap.UpsertUntilRefused | libcuckoo/cuckoohash_map.hh:566-571 | every table comes to refuse an absent key: upserts of keys with one hash end in an error after at most 2 * slots successes |
| CuckooMaps.CuckooMap.constructor | libcuckoo/cuckoohash_map.hh:382-384 | an empty table whose locks cover it |
| CuckooMaps.CuckooMap.Create | libcuckoo/cuckoohash_map.hh:366-385 | rejects an invalid load factor or a computed size above the maximum, else an empty table of the computed size, which has room for n exactly if the rounded sum fits a word |
| CuckooMaps.CuckooMap.EndBlocks | libcuckoo/cuckoohash_map.hh:1623-1643 | an insertion into a table holding part of a map leaves behind only hash powers at which that map can get stuck: some table of part of it has no room for another of its keys; the one at which it is refused is such, too |
| CuckooMaps.CuckooMap.InsertionBlocks | libcuckoo/cuckoohash_map.hh:1908-1917 | the same for the next entry of a rebuild |
| CuckooMaps.CuckooMap.CopyEntry | libcuckoo/cuckoohash_map.hh:1912-1915 | one insertion of a rebuild: no duplicate; the new table grows only past hash powers at which some table of part of the entries has no room for another, and it fails only if that holds of the largest one |
| CuckooMaps.CuckooMap.CopyBucket | libcuckoo/cuckoohash_map.hh:1908-1917 | inserts the entries of one bucket; no insert reports a duplicate; growth and failure only as for one entry |
| CuckooMaps.CuckooMap.CopyInto | libcuckoo/cuckoohash_map.hh:1903-1926 | the new table has the same map; it grows, and the copying fails, only as for one entry, so never with at most as many entries as one bucket has slots |
| CuckooMaps.CuckooMap.Swap | libcuckoo/cuckoohash_map.hh:1965-1972 | taking over the buckets but not the counters keeps map and counters' sum |
| CuckooMaps.CuckooMap.ExpandSimple | libcuckoo/cuckoohash_map.hh:1938-1973 | rebuilds with the same map from the computed starting size up, which without a wrap is the hash power asked for; it ends above that, or without memory, only if every hash power on the way blocks some table of the same entries (`GrownFrom`, `GivesUp`), so from 2^9 buckets on never with at most 2 * slots entries; says when it declines; locks that the starting size needs beyond the allocated ones leave the table uncovered |
| CuckooMaps.CuckooMap.Rebuild | libcuckoo/cuckoohash_map.hh:1953-1972 | the rebuilding with every lock in hand: the same map, or nothing changed; larger than the starting size, or failed, only past blocked hash powers |
| CuckooMaps.CuckooMap.Capacity | libcuckoo/cuckoohash_map.hh:349 | no table holds more entries than it has slots |
| CuckooMaps.CuckooMap.Rehash | libcuckoo/cuckoohash_map.hh:615-621 | keeps the map; false exactly when the hash power is already n; true without a shrink when half the table cannot hold the entries, and without a size change at hash power 1 and n = 0, which is the only such case while a bucket could hold all entries and nothing wraps; how far it grows and when it has no memory as for `ExpandSimple` |
| CuckooMaps.CuckooMap.Reserve | libcuckoo/cuckoohash_map.hh:634-641 | keeps the map; after a rebuild there is room for n exactly if neither rounding wraps; false exactly when the size is already the computed one; true without a shrink when half the table cannot hold the entries; names the case in which the locks no longer cover the table; how far it grows and when it has no memory as for `ExpandSimple` |
| Crowding.CollidingBound | libcuckoo/cuckoohash_map.hh:999-1016 | no table of any hash power holds more than 2 * slots keys with one hash |
| Crowding.FullBucketBound | libcuckoo/cuckoohash_map.hh:1420-1442 | a table that fails to take a key has at least as many entries as a bucket has slots |
| Sizing.LeastDecides | libcuckoo/cuckoohash_map.hh:344-350 | the hash powers from the least sufficient one on are exactly the sufficient ones |
| Sizing.LeastForWholeTable | libcuckoo/cuckoohash_map.hh:1953-1961 | with unbounded numbers, asking for the slots of a table gives that table or the smallest one there is |
| Sizing.PowerForIsLeast | libcuckoo/cuckoohash_map.hh:344-350 | with words, the computed hash power is the least sufficient one exactly if n + slots - 1 fits a word; otherwise the smallest table comes out and has no room |
| Sizing.StartPowerIsExact | libcuckoo/cuckoohash_map.hh:1953-1961 | the inner table of a rebuild starts at max(new_hp, 1) exactly if slots * 2^new_hp + slots - 1 fits a word, and never above |
| Sizing.ReserveIsExact | libcuckoo/cuckoohash_map.hh:634-641 | reserving leaves room for n exactly if neither rounding wraps |
| Sizing.GrantedFits | libcuckoo/cuckoohash_map.hh:989-991 | rounding up the slots of a table that fits a word never wraps |
| Sizing.RoomInGranted | libcuckoo/cuckoohash_map.hh:634-641 | in any table that the allocator grants, of at least the starting size, there is room for n exactly if neither rounding wraps |
| Sizing.ShiftsDefined | libcuckoo/cuckoohash_map.hh:344-350 | no shift by more than 63 is computed, for two slots or more and any n, and for any hash power up to 63 |
| Sizing.HashPower62Wraps | libcuckoo/cuckoohash_map.hh:1955-1956 | with four slots, hash power 62 computes no slots at all and starts at hash power 1 |
| Sizing.LargeReservesWrap | libcuckoo/cuckoohash_map.hh:634-641 | with four slots, reserving 2^64 - 1 or 2^63 + 1 entries leads to the smallest table |
| Rebuilding.NextIsNew | libcuckoo/cuckoohash_map.hh:1908-1917 | the next entry to copy is never in the copy yet |
| Blocking.BlockedNeedsEntries | libcuckoo/cuckoohash_map.hh:1551-1612 | a hash power can block a rebuild only with more entries than a bucket has slots, and from 2^9 buckets on only with more than two buckets have |
| Walks.OneStepForward | libcuckoo/cuckoohash_map.hh:2131-2148 | where a step forward leads is determined by the table and the position |
| Walks.BackAfterForward | libcuckoo/cuckoohash_map.hh:2162-2181 | a step back after a step forward returns to every occupied position |
| Walks.ForwardAfterBack | libcuckoo/cuckoohash_map.hh:2131-2181 | a step forward after a step back returns exactly from the end or where there was an entry before |
| Walks.ListsContents | libcuckoo/cuckoohash_map.hh:2241-2265 | a walk that visits every occupied slot in order lists the map |
| LockedTables.LockedTable.constructor | libcuckoo/cuckoohash_map.hh:1997-2002 | owns every lock; the map is unchanged |
| LockedTables.LockedTable.Release | libcuckoo/cuckoohash_map.hh:2034-2039 | for one thread: releases every lock the first time and nothing after that |
| LockedTables.LockedTable.Begin | libcuckoo/cuckoohash_map.hh:2241-2244 | no occupied slot comes before it; nothing once ownership is lost |
| LockedTables.LockedTable.End | libcuckoo/cuckoohash_map.hh:2258-2265 | the end position; nothing once ownership is lost |
| LockedTables.LockedTable.Walk | libcuckoo/cuckoohash_map.hh:2131-2148 | begin to end takes size steps, meets every occupied slot once in ascending order, and lists exactly the map |
| LockedTables.TableIterator.constructor | libcuckoo/cuckoohash_map.hh:2208-2220 | stays at the end or an occupied slot, else moves to the next one |
| LockedTables.TableIterator.Equals | libcuckoo/cuckoohash_map.hh:2075-2081 | two iterators of one owned table are equal exactly when neither is ahead of the other; an iterator without ownership equals nothing |
| LockedTables.TableIterator.Current | libcuckoo/cuckoohash_map.hh:2092-2095 | while the table is owned, the entry at the position, which is a key of the map with its value |
| LockedTables.TableIterator.Assign | libcuckoo/cuckoohash_map.hh:2100-2107 | changes the value of the current key in the map and moves no entry, so every iterator stays valid |
| LockedTables.TableIterator.Increment | libcuckoo/cuckoohash_map.hh:2131-2148 | moves to the nearest occupied slot after the position, or to the end |
| LockedTables.TableIterator.Decrement | libcuckoo/cuckoohash_map.hh:2162-2181 | moves to the nearest occupied slot before the position, or to the end if there is none |
| ProtocolSafety.HeldBucketIsSettled | libcuckoo/cuckoohash_map.hh:1883-1892 | holding the lock of a bucket means that neither it nor its lower half waits to be migrated, below and above 2^16 buckets |
| ProtocolActions.LookOutcome | libcuckoo/cuckoohash_map.hh:1552-1580 | what a thread does under the two locks of its key is its operation's effect on the map, never a throw, or changes nothing; it goes on to search for a path only if the key is absent and every slot of both its buckets is occupied |
| ProtocolActions.AddAfterMovesOutcome | libcuckoo/cuckoohash_map.hh:1594-1605 | checking for the key again after the moves makes the insertion take effect atomically |
| ProtocolActions.ShiftOutcome | libcuckoo/cuckoohash_map.hh:1235-1298 | a kick along any well-formed path, however stale, keeps the map and empties its source, mid-doubling too |
| ProtocolRefinement.AllLockedOthersHoldNothing | libcuckoo/cuckoohash_map.hh:970-980 | with every lock in hand no other thread holds one |
| ProtocolRefinement.NothingLeftPending | libcuckoo/cuckoohash_map.hh:1892-1899 | when the doubling thread has released every lock, every bucket has been migrated |
| ProtocolRefinement.StepRefines | libcuckoo/cuckoohash_map.hh:805-931 | every step of every thread keeps the invariant and is a step of the atomic map that shows the same call or return |
| ProtocolRefinement.RunKeepsInv | libcuckoo/cuckoohash_map.hh:805-931 | the invariant holds in every state of every run |
| ProtocolRefinement.EveryReachableTableIsPlaced | libcuckoo/cuckoohash_map.hh:1881-1895 | in every reachable state each key is in one slot of a candidate bucket; the exception is an unmigrated bucket, whose lock only the doubling thread holds |
| ProtocolRefinement.EveryRunIsAtomic | libcuckoo/cuckoohash_map.hh:477-602 | every run of any number of threads is a run of the atomic map with the same calls and returns by the same threads: the operation that takes effect is the one invoked, and what it returns was fixed when it did |
| ProtocolRefinement.TurnsOfRun | libcuckoo/cuckoohash_map.hh:805-931 | every run is made by some sequence of turns, so the labelled statement is about all runs |
| AtomicMap.AnswerFixedOnce | libcuckoo/cuckoohash_map.hh:477-602 | in every run of the atomic map each return answers a call of the same operation by the same thread, and exactly one step between the two takes effect, on the map as it then was; a throw changes nothing and the key was missing meanwhile |
| ProtocolThrows.FoundFullStep | libcuckoo/cuckoohash_map.hh:1577-1609 | a thread has found its buckets full only if it had before or they are full, and without the key, now |
| ProtocolThrows.ThrewOnlyIfFull | libcuckoo/cuckoohash_map.hh:1618-1643 | in every run, an insertion that throws had a moment in the same call at which its key was not in the map and every slot of both its buckets was occupied |
| ProtocolSolo.UndisturbedCall | libcuckoo/cuckoohash_map.hh:477-602 | in every reachable state in which no other thread holds a lock, a call run alone comes to its end with its effect and without throwing, an insertion if there is room for the key now or after some number of doublings |
| ProtocolSolo.GrowAlone | libcuckoo/cuckoohash_map.hh:1854-1901 | run alone, an insertion that gives up on a full table starts over on exactly the doubled table `Grown`, all locks given back |
| ProtocolSolo.KickAll | libcuckoo/cuckoohash_map.hh:1235-1298 | run alone, all kicks along a live path go through and leave its first slot to the insertion |
| ProtocolRefinement.LookupUnderLocksIsExact | libcuckoo/cuckoohash_map.hh:895-915 | under both locks at the checked hash power, a key is in its buckets exactly when it is in the map, even mid-doubling |
| ProtocolProgress.WaitsAboveHeld | libcuckoo/cuckoohash_map.hh:824-893 | a lock waited for lies above every lock held |
| ProtocolProgress.NoDeadlock | libcuckoo/cuckoohash_map.hh:824-980 | in every reachable state with a thread inside an operation, some such thread can step |
| ProtocolRefinement.OwnerFindsNothingPending | libcuckoo/cuckoohash_map.hh:970-980 | whoever holds every allocated lock finds no migration unfinished and guards every bucket |
| ProtocolRefinement.OwnerStepIsGood | libcuckoo/cuckoohash_map.hh:391-396 | clearing or listing the table under all locks takes effect in one step between call and return |
| ProtocolRefinement.OutOfMemoryStep | libcuckoo/cuckoohash_map.hh:1877-1880 | an insert without memory for the larger table gives every lock back, throws and has changed nothing |
| ProtocolCounters.StepTallies | libcuckoo/cuckoohash_map.hh:1406-1413 | whatever step any thread takes, the counters still add up to the number of occupied slots; kicks write none |
| ProtocolCounters.CountersAddUp | libcuckoo/cuckoohash_map.hh:1707-1713 | under any interleaving the sum of the counters modulo 2^64 is the size of the map |
| ProtocolRelease.MisuseStep | libcuckoo/cuckoohash_map.hh:957-964 | the only step that unlocks a lock not held is that of an owner which has given back all it took while more are allocated |
| ProtocolRelease.OwnerTookAll | libcuckoo/cuckoohash_map.hh:975-980 | every owner took, at one point of the run, all the locks that were allocated then |
| ProtocolRelease.MisusedExactlyIfGrown | libcuckoo/cuckoohash_map.hh:957-964 | an owner releases what it took, exactly if no more locks have been allocated since it took them; otherwise it goes on to unlock one it does not hold |
| ProtocolRelease.MisusedOnlyAtEnd | libcuckoo/cuckoohash_map.hh:957-964 | no run reaches such an unlock in any other way, or goes on after it |
| ProtocolRelease.AllAllocatedNeverMisuses | libcuckoo/cuckoohash_map.hh:957-964 | with all 2^16 locks allocated, as at granularity 0, no run ever unlocks a lock that is not held |
| ProtocolOverrun.OverrunIsReachable | libcuckoo/cuckoohash_map.hh:1867-1878 | a run in which an insert allocates two more locks between an owner's taking and giving back of two, and the owner unlocks the third |

## Left out

- C++ object lifetime: allocators, aligned storage, move semantics, the path for types whose moves may throw, and exceptions from user hash, equality or constructors. Keys and values are values; `cuckoopath_move` hashing a key before it tests occupancy is modelled with the occupancy test first.
- Memory orderings and the internals of the reader/writer spin lock: locks are correct and steps sequentially consistent.
- Parallel execution of a migration: the ranges of locks are dealt with by `MoveBuckets` in any order, one after another, and in the state machine one bucket at a time in any order.
- `rehash`, `reserve` and writing through a locked table in the state machine: they are modelled for one thread only. `clear` is there, and `lock_table` with a walk over the entries, each as one action under all locks.
- CuckooMaps.CuckooMap.UnlockAll: one thread only, so that no lock is allocated between taking and releasing all; what happens otherwise is in `ProtocolRelease`.
- LockedTables.LockedTable.Release: one thread only, for the same reason.
- What a run does after a lock has been unlocked by a thread that does not hold it: that is undefined, and runs end there.
- Which paths a search finds in the state machine: a search there may look at any bucket and yield any well-formed path, or give up; what the real search returns is in `SlotSearches` and `CuckooPaths`.
- Reading the counters while other threads write them: `size` is documented as inexact then; between actions their sum is right (`ProtocolCounters`).
- Why a shared insert throws: the state machine lets an insertion that has found its buckets full throw at any time (`ProtocolThrows`), and one for which the search fails choose between that and doubling; the load factor, the maximum hash power and memory, which decide it, are in `CuckooMap`.
- Progress of a thread against interference: retries may repeat forever. Absence of deadlock and the end of undisturbed calls are shown.
- Shifts by 64 bits or more, which are undefined: `Create` and `Reserve` ask for a bucket count of at most 2^63, which always holds with two slots or more, and `ExpandSimple` and `Rehash` for a hash power of at most 63 unless they decline before the shift. The debug assertion in `reserve_calc` (`libcuckoo/cuckoohash_map.hh:348`), which fails when the sum wraps, is not part of the model.
- Path codes are unbounded numbers, below 2 * slots^5; the slots of the largest table the allocator grants fit a word.
- Allocation failure other than of the bucket array: `maxAlloc` is the largest hash power for which memory is available.
- CuckooMaps.CuckooMap.ExpandSimple: growth and failure of a rebuild have a necessary condition, not an exact one: the hash powers passed are ones at which some table of the same entries gets stuck, while the exact sequence of insertions decides whether this one does.
- The retry branches of `upsert` and of `cuckoo_insert` after another thread's interference are taken only in the state machine; with one thread they cannot be.
- The value left in the partial of an empty slot, which nothing reads.
- The six bucket searches that differ only in what they do with the slot found: they are one method, `FindInBucket`. The inner loop of the slot search, one step of a path move, one round of the insert loop, and the buckets of one lock are methods of their own.
- Moved-from entries: when a rebuild runs out of memory half way the original has already moved keys and values out of their old slots; here they are copied, and the table stays as it was.
- The setters of the minimum load factor and the maximum hash power, `empty`, `bucket_count`, `load_factor`, the `reference` wrapper and `operator[]`, post-increment and post-decrement, and moving a locked table: each only wraps something modelled.
- `city_hasher.hh`, the configuration header, the exception classes, tests, benchmarks and examples.
