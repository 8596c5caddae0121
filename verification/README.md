# priority-lfu: a verified model

This project models the core of priority-lfu, an in-memory cache with weight-stratified clock
eviction, and proves what the cache promises. `dafny verify dfyconfig.toml` checks all of it.

## What is modelled

**The shard** (`Shard.dfy`, `Buckets.dfy`). A shard keeps an entry map, three policy buckets and a
byte count in step. A bucket is a list of keys without duplicates, with `swap_remove` deletion and a
clock hand; an entry has a clock bit and a frequency from 0 to 255. They are classes whose methods
change these fields in place, statement by statement as the program does. Each method is proved
against a function on values: `ShardModel.dfy` says what the shard's operations compute, and each
class keeps a ghost `state` that its fields are proved to hold. The theorems say what these functions
amount to: `Sweeps.dfy` for one sweep and its victim, `Evictions.dfy` and `Priorities.dfy` for a run of
evictions, `ShardLaws.dfy` for the operations and the invariant between them, `ShardRuns.dfy` for
arbitrary runs (capacity, 64-bit arithmetic, cost), and `Effects.dfy` for what each operation does to
each structure, slot by slot. `IdleEntries.dfy` is what the clock does not promise.

**The cache** (`Cache.dfy`, `CacheModel.dfy`, `CacheTheorems.dfy`, `Observations.dfy`, `Sharding.dfy`).
The cache is a class over shard objects with its own counters and metrics, all wrapping at 64 bits; the
calls of lifecycle hooks are kept as a ghost log. Every operation is proved against a function on values, for
which the theorems hold over every sequential run: the contents refine a map that never forgets, the
counters are the totals of the shards, every departed entry has had one hook called and the right one,
an insert evicts exactly if its shard is full, and the metrics count what they are named after.

**Concurrency** (`Accounting.dfy`). Any number of threads insert into, remove from, look up in and clear
any number of shards, each behind a lock for one writer or many readers. An insert publishes its deltas
after it has let go of the lock, one atomic update at a time; a removal and a clear publish while they
hold it; lookups share it and race, each load and store a step of its own. In every interleaving: what
the counters are, when they show what the shards hold, and by how much they are off when they do not.

**Racing lookups** (`Readers.dfy`, `ReadPhases.dfy`). What the separate relaxed loads and stores of any
number of lookups under one read lock can leave of an entry: exact bounds, each value of which is met.
A read phase can lose increments, but what it leaves is what some of its lookups would leave one after
the other.

**Interleavings** (`Interleavings.dfy`, `ConcurrentContents.dfy`, `OneAtATime.dfy`). So every shard goes
through a sequential run of its own operations with some lookups lost, whatever the interleaving, and
what holds of every run of one shard carries over: the cost of sweeps, the bound on the whole cache. With
keys routed to their home shards, no key is ever in two shards, and no lookup is stale. Threads that take
turns with whole operations do what the sequential cache does.

**Type-erased keys** (`Erased.dfy`). Equality behind cached hashes and shared pointers, and lookups by
borrowed keys.

**Deep sizes** (`DeepSize.dfy`). The traversal of a graph of boxes, vectors and shared, possibly cyclic
counted pointers with a set of visited ones; it is what gives an entry the size that eviction relies on.

Machine integers are `U8` and `U64` (`usize` is taken as 64 bits), and wrapping is written out. Types of
keys and values, hash functions, the hooks and the sizes of Rust's own types are parameters or
uninterpreted.

## Where the code and its documentation differ

The model follows the code.

- "At least 4KB per shard" (`crates/priority-lfu/src/cache.rs:48-49`, `121-124`) does not hold, because
  the count of shards is rounded up to a power of two. `Sharding.DocumentedShardBytes` says exactly when
  it does, `Sharding.DocumentedShardBytesFail` that a default cache of 12288 bytes has 4 shards of 3072
  bytes, and `Sharding.ShardBytes` that 2048 bytes are certain. The 64 shards of large caches begin at
  132 KB, not at 256 KB (`crates/priority-lfu/src/cache.rs:140`, `Sharding.DefaultShards`).
- `README.md:240-244` leaves out the forced eviction after a fruitless sweep
  (`crates/priority-lfu/src/shard.rs:463-477`).
- `README.md:229` and `README.md:285` speak of four buckets; there are three.
- "Lower priority items always evicted before higher priority" (`README.md:263`) holds within one insert
  and one shard (`ShardLaws.InsertIsStratified`), and it exempts the incoming entry: a new volatile entry
  evicts critical ones if there is nothing else left to evict (`Priorities.VolatileEvictsCritical`).
  `Priorities.InsertReachesCritical` and its neighbours say exactly when an insert reaches a priority.
- The clock is not first-in-first-out, and does not reach every idle entry in the end. Of the entries of a
  full shard, fresh inserts of equal size evict the one under the hand and the last one of its bucket, and
  no other, however many there are (`IdleEntries.ExactlyWhatGoes`). `IdleEntries.IdleForAsLongAsOneLikes`
  is such a run from an empty shard, of any length: the second key inserted stays while younger ones go.
- `size()` and `len()` show what the shards hold exactly if the updates not yet published cancel
  (`Accounting.CountersShowTotalsExactly`). `Accounting.CountersShowTooMuch` says when and by how much they
  exceed it, `Accounting.OnlyInsertsMislead` whose updates those are; `Accounting.SizeCanWrapInFlight` is a
  run after which `size()` reads nearly 2^64.

## Model

| member | source | states |
|---|---|---|
| Buckets.PolicyBucket.Insert | crates/priority-lfu/src/shard.rs:111-117 | the key is appended unless it is there; the hand is kept in range |
| Buckets.PolicyBucket.Remove | crates/priority-lfu/src/shard.rs:133-151 | the last key takes the removed key's slot, the hand follows its key or wraps; true exactly if the key was there |
| Buckets.PolicyBucket.Clear | crates/priority-lfu/src/shard.rs:153-156 | the bucket is empty and the hand at 0 |
| Buckets.SwapRemove | crates/priority-lfu/src/shard.rs:121-123 | the last key moves into the vacated slot and every other index is unchanged |
| Buckets.InsertedKeeps | crates/priority-lfu/src/shard.rs:111-117 | an insert adds exactly the key, keeps keys distinct and the hand in range, and leaves the hand on the key it was on |
| Buckets.InsertionAppends | crates/priority-lfu/src/shard.rs:111-117 | a new key goes to the end of the list and changes neither the other slots nor the hand; a key that is there changes nothing |
| Buckets.RemovedKeeps | crates/priority-lfu/src/shard.rs:119-151 | a removal takes out exactly the key, keeps keys distinct and the hand in range, and leaves the hand on the key it was on unless that key went |
| Buckets.RemovalSwaps | crates/priority-lfu/src/shard.rs:119-151 | slot by slot, for any key and any hand: the last key is in the vacated slot, every other slot is as it was, and the hand is as each of the four cases says |
| Buckets.HandStaysOnKey | crates/priority-lfu/src/shard.rs:111-151 | through any sequence of inserts and removals the hand denotes the same key until that key itself is removed |
| Buckets.HandAfterItsKeyGoes | crates/priority-lfu/src/shard.rs:126-132 | when the key under the hand goes, the hand is on the key that was last, or wraps to the first |
| ShardModel.FirstColdIsFirst | crates/priority-lfu/src/shard.rs:423-461 | the sweep stops at the first entry ahead of the hand with clear bit and zero frequency |
| Sweeps.FirstColdIsEvicted | crates/priority-lfu/src/shard.rs:411-461 | the victim is in the first slot from the hand on, around the end of the list, with a clear bit and frequency 0; each entry passed has its bit cleared if that was set and its frequency down by one if not; every other entry, the other buckets and the other slots are untouched, and the hand is on the vacated slot |
| Sweeps.HotBucketLosesEntryAtHand | crates/priority-lfu/src/shard.rs:463-478 | if every entry of the bucket has its bit set or some frequency, each loses the one or one of the other, and the entry the hand started on is evicted |
| Sweeps.ColdSlotOrHotBucket | crates/priority-lfu/src/shard.rs:411-478 | one of these two cases it always is |
| Sweeps.HotEntryIsLostOnlyFromHotBucket | crates/priority-lfu/src/shard.rs:466-467 | a victim had its bit set or some frequency if and only if its whole bucket had |
| Sweeps.EvictFromAgrees | crates/priority-lfu/src/shard.rs:411-478 | one eviction takes one key of the bucket out of map, bucket and byte count together and keeps them in agreement |
| Sweeps.SweepCost | crates/priority-lfu/src/shard.rs:423-461 | all entries a sweep examines but one are paid for by clock bits and frequencies it takes away |
| Shards.Entry.constructor | crates/priority-lfu/src/erased.rs:244-253 | a new entry has frequency 0 and a clear clock bit, in its fields |
| Shards.Shard.constructor | crates/priority-lfu/src/shard.rs:178-189 | an empty shard with three empty buckets that satisfies the invariant |
| Shards.Shard.Examine | crates/priority-lfu/src/shard.rs:430-460 | one turn of the sweep, on the fields: finds bit and frequency clear, or clears the bit and keeps the frequency, or counts the frequency down |
| Shards.Shard.Sweep | crates/priority-lfu/src/shard.rs:418-461 | the sweep's loop stops at the first cold entry, with exactly the entries passed over aged |
| Shards.Shard.EvictAt | crates/priority-lfu/src/shard.rs:442-452 | the hand is put on the slot, and its entry leaves map, bucket and byte count |
| Shards.Shard.EvictFromBucket | crates/priority-lfu/src/shard.rs:411-478 | fails exactly on an empty bucket, the lookups in between never fail, and otherwise returns the victim and leaves the state described by the laws of the sweep |
| Shards.Shard.EvictUntilSpace | crates/priority-lfu/src/shard.rs:235-258 | both loops terminate and perform the run of evictions of the specification; the returned count and bytes are exactly those of the evicted list |
| Shards.Shard.Detach | crates/priority-lfu/src/shard.rs:202-209 | an updated key leaves its old bucket and the byte count, but not the map |
| Shards.Shard.Attach | crates/priority-lfu/src/shard.rs:214-225 | the entry enters map, the bucket of its own policy and the byte count; the entry it replaces is returned |
| Shards.Shard.Insert | crates/priority-lfu/src/shard.rs:194-228 | keeps the invariant, and new state, replaced entry, evicted list, statistics and entries examined are those of the specification |
| Shards.Shard.Bump | crates/priority-lfu/src/shard.rs:283-290 | the entry's bit is set and its frequency counted up, saturating at 255, in its fields |
| Shards.Shard.Get | crates/priority-lfu/src/shard.rs:276-293 | a hit sets the clock bit and counts the frequency up, saturating at 255; nothing else changes |
| Shards.Shard.Contains | crates/priority-lfu/src/shard.rs:297-302 | tells whether the key is resident and leaves no trace |
| Shards.Shard.Remove | crates/priority-lfu/src/shard.rs:349-358 | takes the key out of map, bucket and byte count and returns its entry; nothing if absent |
| Shards.Shard.Clear | crates/priority-lfu/src/shard.rs:376-382 | all three structures are empty |
| Shards.Shard.Drain | crates/priority-lfu/src/shard.rs:389-405 | empties the shard; returns every resident key once, each with its entry as it was, and the exact bytes and count |
| Evictions.EvictUntilAgrees | crates/priority-lfu/src/shard.rs:235-258 | the structures still agree, and there is room or nothing is left to evict |
| Evictions.EvictUntilConserves | crates/priority-lfu/src/shard.rs:235-258 | what was in the shard is still there or in the evicted list, once, with its bytes; a detached key is never evicted |
| Evictions.EvictUntilIsStratified | crates/priority-lfu/src/shard.rs:239-255 | a critical entry goes after every standard and volatile one, a standard entry after every volatile one |
| Evictions.EvictUntilIsMinimal | crates/priority-lfu/src/shard.rs:240-250 | before each eviction the new entry did not yet fit |
| Evictions.EvictUntilGoesInTurn | crates/priority-lfu/src/shard.rs:235-258 | a run of evictions is a chain of single sweeps, each while the new bytes do not fit and each of the lowest bucket that holds anything, volatile before standard before critical; it ends when they fit or all is gone |
| ShardLaws.DetachedAgrees | crates/priority-lfu/src/shard.rs:205-209 | mid-insert, the structures agree but for the updated key, which no bucket holds |
| ShardLaws.EvictUntilSkips | crates/priority-lfu/src/shard.rs:211-212 | a key in no bucket is neither evicted nor aged, so an update cannot evict itself |
| ShardLaws.InsertAgrees | crates/priority-lfu/src/shard.rs:194-228 | after an insert, even under another policy, every key is once in the bucket of its own policy and the bytes are the sum of the sizes; the previous entry is what is returned |
| ShardLaws.InsertConserves | crates/priority-lfu/src/shard.rs:194-228 | contents become (contents minus evicted)[key := new]; evicted keys were resident, are distinct and are never the inserted key; bytes balance |
| ShardLaws.InsertCapacity | crates/priority-lfu/src/shard.rs:235-258 | after an insert the bytes are within capacity if and only if the new entry fits on its own; one that does not is left alone |
| ShardLaws.InsertIsStratified | crates/priority-lfu/src/traits.rs:12-27 | of any insert: an evicted critical entry comes after every standard and volatile one of the shard, an evicted standard one after every volatile one, the inserted key excepted |
| ShardLaws.InsertIsMinimal | crates/priority-lfu/src/shard.rs:240-250 | no eviction happens once the new entry fits |
| ShardLaws.RemoveAgrees | crates/priority-lfu/src/shard.rs:349-358 | a removal keeps the structures in agreement; removing an absent key changes nothing |
| ShardLaws.TouchAgrees | crates/priority-lfu/src/shard.rs:283-290 | a lookup keeps the structures in agreement |
| Effects.DetachEffect | crates/priority-lfu/src/shard.rs:202-209 | an update takes its key out of the bucket of the resident policy and out of the bytes, swapping the last key into its slot; the other two buckets and all entries are untouched |
| Effects.RemoveEffect | crates/priority-lfu/src/shard.rs:349-358 | a removal does that and takes the entry out of the map |
| Effects.AttachEffect | crates/priority-lfu/src/shard.rs:214-225 | the new entry is in the map, at the end of the bucket of its own policy, and in the bytes; the other two buckets are untouched |
| Effects.InsertEffect | crates/priority-lfu/src/shard.rs:194-228 | an insert is the detaching, a chain of single sweeps, and the putting in, one after the other |
| Priorities.InsertReachesCritical | crates/priority-lfu/src/shard.rs:235-258 | an insert evicts a critical entry if and only if there is another one and the new entry does not fit beside all of them |
| Priorities.InsertReachesStandard | crates/priority-lfu/src/shard.rs:235-258 | the same for entries that are critical or standard |
| Priorities.InsertReachesAnything | crates/priority-lfu/src/shard.rs:235-258 | the same for all other entries of the shard |
| Priorities.VolatileEvictsCritical | README.md:263 | a volatile entry evicts a critical one that is all the shard holds |
| IdleEntries.InsertStaysStuck | crates/priority-lfu/src/shard.rs:130-132 | a fresh insert into a full bucket evicts the entry at the hand, moves the last one under it and leaves the hand and the other slots as they are |
| IdleEntries.IdleEntriesSurvive | crates/priority-lfu/src/shard.rs:441-448 | in a run of fresh inserts of any length the hand never advances and idle entries elsewhere survive unchanged |
| IdleEntries.ExactlyWhatGoes | crates/priority-lfu/src/shard.rs:126-148 | of the entries at the start of such a run, the one in slot i is evicted within n inserts if and only if i is the hand and n >= 1, or i is the last slot and n >= 2 |
| IdleEntries.IdleForAsLongAsOneLikes | crates/priority-lfu/src/shard.rs:441-448 | for every n a run of n + 3 fresh inserts from an empty shard, with four keys, in which the second one stays idle and resident to the end |
| IdleEntries.GoneIsEvicted | crates/priority-lfu/src/shard.rs:235-258 | what a fresh insert takes out of the shard is what it evicts |
| ShardRuns.RunShard | crates/priority-lfu/src/shard.rs:191-405 | after every sequential run the structures agree, and the bytes are within capacity or there is a single entry |
| ShardRuns.TallyOneMore | crates/priority-lfu/src/shard.rs:235-293 | what the cost bounds count, operation by operation: entries examined and evicted by inserts, and lookups whose key was resident |
| ShardRuns.AmortisedSweepCost | crates/priority-lfu/src/shard.rs:235-293 | from an empty shard, all sweeps together examine at most two entries per hit and one per eviction |
| ShardRuns.WorstInsertCost | crates/priority-lfu/src/cache.rs:230-233 | one insert into a shard of n entries examines at most 257 n of them |
| ShardRuns.InsertArithmeticFits | crates/priority-lfu/src/shard.rs:208-250 | with capacity and entry sizes below 2^63, no byte count of any run underflows or leaves 64 bits |
| Sharding.ShardCountIsLeastPowerOfTwo | crates/priority-lfu/src/cache.rs:125-131 | the shard count is the least power of two not below what is asked for and affordable, less than twice that, 1 if none is asked for; rounding does not overflow |
| Sharding.ShardBytes | crates/priority-lfu/src/cache.rs:190-194 | a cache of at least 4096 bytes gives each shard at least 2048 |
| Sharding.DefaultShards | crates/priority-lfu/src/cache.rs:143-152 | a cache with the default settings has its 64 shards if and only if its capacity is at least 135168 bytes |
| Sharding.DocumentedShardBytes | crates/priority-lfu/src/cache.rs:121-131 | the documented 4096 bytes per shard hold if and only if a power of two lies between the count asked for, if affordable, and the count affordable |
| Sharding.DocumentedShardBytesFail | crates/priority-lfu/src/cache.rs:46-52 | 12288 bytes give 4 shards of 3072 |
| Sharding.ShardIndex | crates/priority-lfu/src/cache.rs:651-654 | the masked hash is a shard's index, for every hash |
| Sharding.ShardIndexIsRemainder | crates/priority-lfu/src/cache.rs:651-654 | masking with the count less one is the remainder by the count |
| CacheModel.HomeOf | crates/priority-lfu/src/cache.rs:651-654 | every key has a home among the shards |
| Caches.Cache.constructor | crates/priority-lfu/src/cache.rs:185-216 | separate empty shards, the capacity of each exactly maximum / count, counters at zero, invariant holds |
| Caches.Cache.WithShards | crates/priority-lfu/src/cache.rs:157-160 | the cache has the computed power-of-two count of shards, each with exactly its part of the maximum, and keys go to shards by hash modulo count |
| Caches.Cache.Insert | crates/priority-lfu/src/cache.rs:234-287 | keeps the invariant, changes one shard, returns the value that was resident, and counters, metrics and hooks are those of the specification |
| Caches.Cache.PublishInsert | crates/priority-lfu/src/cache.rs:252-284 | the wrapping updates, one after the other, add up to the difference the insert has made; the evict hook is called for each evicted key |
| Caches.Cache.GetClone | crates/priority-lfu/src/cache.rs:341-364 | returns the resident value, bumps its entry, and counts a hit or a miss |
| Caches.Cache.Contains | crates/priority-lfu/src/cache.rs:517-523 | tells whether the key is resident, without a trace |
| Caches.Cache.Remove | crates/priority-lfu/src/cache.rs:487-509 | returns and takes out the resident value, counters and metrics follow, the remove hook is called once; nothing if absent |
| Caches.Cache.EmptyShards | crates/priority-lfu/src/cache.rs:589-598 | the loop empties one shard after the other; what it collects and subtracts is what the shards held |
| Caches.Cache.Clear | crates/priority-lfu/src/cache.rs:585-615 | empties every shard, takes what was drained off the counters, resets the metrics and calls the clear hook once per resident key |
| Caches.Cache.Size | crates/priority-lfu/src/cache.rs:550-552 | between operations it is the total of the shards' bytes, modulo 2^64 |
| Caches.Cache.Len | crates/priority-lfu/src/cache.rs:555-557 | between operations it is the number of resident entries, modulo 2^64 |
| Caches.AllAccountedFor | crates/priority-lfu/src/cache.rs:585-615 | a clear collects every key that was resident exactly once, across all shards, and its updates are the exact totals |
| CacheTheorems.NewCacheInv | crates/priority-lfu/src/cache.rs:185-216 | a new cache satisfies the invariant, for every maximum and every count of shards |
| CacheTheorems.StepKeepsCacheInv | crates/priority-lfu/src/cache.rs:234-615 | every operation keeps: shards in order, each key in its home shard only, counters equal to the totals |
| CacheTheorems.InsertContents | crates/priority-lfu/src/cache.rs:234-287 | contents become (contents minus evicted)[key := value]; the previous resident is what is returned |
| CacheTheorems.OtherOpsContents | crates/priority-lfu/src/cache.rs:341-615 | a removal takes out its key only, a lookup nothing, a clear everything |
| CacheTheorems.RunRefines | crates/priority-lfu/src/cache.rs:234-615 | over every run the shards together stay a submap of an unbounded map under the same operations |
| CacheTheorems.LookupsAreNeverStale | crates/priority-lfu/src/cache.rs:341-364 | after any run a lookup finds nothing or the value last inserted and not since removed or cleared |
| CacheTheorems.CacheStaysWithinMaximum | crates/priority-lfu/tests/property_tests.rs:42-52 | if no entry exceeds maximum / shard count, then after every run the bytes held, and reported, are at most the maximum |
| CacheTheorems.StepCallsHooks | crates/priority-lfu/src/cache.rs:252-284 | per operation and key: what becomes resident anew is still there or one hook was called; a replacement calls none |
| CacheTheorems.HooksAreCalledOnce | crates/priority-lfu/src/cache.rs:219-284 | over any run, the fresh inserts of a key are its evict, remove and clear calls, plus one if it is resident |
| CacheTheorems.MetricsAlwaysBalance | crates/priority-lfu/src/cache.rs:496-611 | since the last clear, inserts = entries + evictions + removals |
| Observations.InsertEvictsExactlyIfFull | crates/priority-lfu/src/cache.rs:185-248 | after any run an insert evicts something if and only if its shard holds another entry and the bytes held there, less those of the replaced entry, plus the new ones exceed maximum / count |
| Observations.EachCallsItsOwnHook | crates/priority-lfu/src/cache.rs:219-615 | per operation and key: the evict hook is called exactly for what an insert pushed out, the remove hook for the removed key if it was resident, the clear hook for what was resident, once each |
| Observations.MetricsCount | crates/priority-lfu/src/cache.rs:262-612 | over any run since the last clear: hits are the lookups that found their key and misses the others, updates the inserts that found theirs and inserts the others, removals those that found theirs |
| Accounting.ReplaceUpdateIsExact | crates/priority-lfu/src/cache.rs:254-260 | the signed difference, published by its sign, moves the counter by new minus old size modulo 2^64, whatever the sizes |
| Accounting.InsertIsExact | crates/priority-lfu/src/cache.rs:252-278 | the updates an insert has still to publish are what it has changed in its shard |
| Accounting.RemoveIsExact | crates/priority-lfu/src/cache.rs:494-496 | the same for a removal |
| Accounting.DrainIsExact | crates/priority-lfu/src/cache.rs:591-595 | the same for one shard of a clear |
| Accounting.StepKeepsBooks | crates/priority-lfu/src/cache.rs:247-597 | every step of every thread keeps each counter, with what is not yet published, congruent to the shards' total |
| Accounting.StepKeepsLocks | crates/priority-lfu/src/cache.rs:341-503 | a shard's lock is held by exactly the thread in its critical section, or by exactly the lookups inside |
| Accounting.RunKeepsInv | crates/priority-lfu/src/cache.rs:247-597 | any interleaving keeps every shard's invariant, the locks and the balance |
| Accounting.CountersAlwaysBalance | crates/priority-lfu/src/cache.rs:247-597 | in every interleaving of any number of inserts, removals, lookups and clears: counter plus unpublished updates = total, modulo 2^64 |
| Accounting.UnlockedMeansOnlyInsertsPending | crates/priority-lfu/src/cache.rs:493-503 | with no lock held, only inserts have something to publish |
| Accounting.CountersShowTotalsExactly | crates/priority-lfu/src/cache.rs:550-557 | in every interleaving `size()` and `len()` are the shards' totals modulo 2^64 if and only if the unpublished updates add up to nothing modulo 2^64 |
| Accounting.CountersShowTooMuch | crates/priority-lfu/src/cache.rs:250-278 | in every interleaving, when a counter reads more than the total and what it reads: exactly when the unpublished updates, modulo 2^64, exceed the total |
| Accounting.OnlyInsertsMislead | crates/priority-lfu/src/cache.rs:247-278 | a counter that is off while no writer holds a lock is off for an insert that has not published everything |
| Accounting.CountersExactWhenQuiet | crates/priority-lfu/src/cache.rs:550-557 | with no call in flight, `size()` and `len()` are exactly the shards' totals |
| Accounting.SizeCanWrapInFlight | crates/priority-lfu/src/cache.rs:250-269 | a removal that publishes before the insert it undoes leaves the counter at 2^64 minus the size |
| Interleavings.StepOnShard | crates/priority-lfu/src/cache.rs:241-364 | each event writes to a shard that nobody reads, or is one load or store of a lookup inside, or leaves the shard alone |
| Interleavings.ShardRunsItsOwnOps | crates/priority-lfu/src/cache.rs:241-364 | in every interleaving, when no lookup is inside, a shard is what a sequential run makes of it: its writes in the order of the lock, and of each read phase some lookups, per key at least one and at most as many as found it; while lookups are inside, it differs from that by what racing allows |
| Interleavings.CountedUnderConcurrency | crates/priority-lfu/src/cache.rs:241-364 | the same, event by event, in every interleaving |
| Interleavings.AmortisedUnderConcurrency | crates/priority-lfu/src/shard.rs:235-293 | in every interleaving all sweeps of a shard together examine at most two entries per lookup that found its key and one per eviction |
| Interleavings.AlwaysWithinMaximum | crates/priority-lfu/src/cache.rs:185-194 | if no entry exceeds a shard, the shards never hold more than the capacity at any moment of any interleaving, and with no call in flight `size()` is at most that |
| ReadPhases.PhaseIsThinned | crates/priority-lfu/src/shard.rs:283-290 | what racing lookups leave of a shard is what some of them leave one after the other, of every key found at least one and none too many |
| ConcurrentContents.RunRefines | crates/priority-lfu/src/cache.rs:241-597 | with keys routed to their homes, every interleaving keeps each shard a part of an unbounded map under the same operations in the order of the locks |
| ConcurrentContents.NeverStale | crates/priority-lfu/src/cache.rs:341-364 | at any moment of any interleaving a key is in its home shard only, with the value last inserted and not removed or cleared since, in the order of the locks |
| OneAtATime.PublishAll | crates/priority-lfu/src/cache.rs:252-278 | publishing all updates of an operation moves each counter by their sum, modulo 2^64 |
| OneAtATime.StepAlone | crates/priority-lfu/src/cache.rs:234-615 | an operation with all its steps and nothing else in flight has the effect of the sequential one on shards and counters |
| OneAtATime.RunAlone | crates/priority-lfu/src/cache.rs:234-615 | threads that take turns with whole operations, in any order, go through a run of the sequential cache |
| Readers.RunKeepsInv | crates/priority-lfu/src/shard.rs:283-290 | any interleaving of the separate loads and stores of lookups that come and go keeps every frequency within the number of lookups that have found the key |
| Readers.RacingLookups | crates/priority-lfu/src/shard.rs:283-290 | once no lookup is inside: an entry that n >= 1 have found has its bit set and a frequency between min(255, f + 1) and min(255, f + n), every other is untouched |
| Readers.FrequencyNeverDrops | crates/priority-lfu/src/shard.rs:322-343 | no lookup makes the frequency wrap or fall below its start |
| Readers.BoundsAreMet | crates/priority-lfu/src/shard.rs:285-286 | for every m >= 1 and every value within these bounds there are m racing lookups that leave it, even with sequentially consistent loads and stores |
| Readers.UpdatesCanBeLost | crates/priority-lfu/src/shard.rs:285-286 | two racing lookups can count as one |
| Readers.Alone | crates/priority-lfu/src/shard.rs:283-290 | a lookup that nobody races has the effect of the sequential one |
| Erased.EqualIsTypedEquality | crates/priority-lfu/src/erased.rs:87-103 | erased equality is equality of type and typed key, in spite of hash collisions and the pointer shortcut; equal keys hash alike |
| Erased.EqualIsEquivalence | crates/priority-lfu/src/erased.rs:105-105 | erased equality is reflexive, symmetric and transitive |
| Erased.SameSlot | crates/priority-lfu/src/erased.rs:141-211 | an owned key, a reference to it and a hash-consistent borrowed form match the same stored keys |
| Erased.BorrowedLookupsAgree | crates/priority-lfu/src/shard.rs:276-343 | the three lookups find the same entry, with the same clock effects, in any table |
| Erased.HashContractIsNeeded | crates/priority-lfu/src/erased.rs:181-204 | a borrowed key that compares like the owned one finds its slot if and only if it hashes alike |
| DeepSize.DeepSizeOfChildren | crates/priority-lfu/src/deepsize.rs:362-401 | the recursion over a possibly cyclic graph terminates, and size and visited set are those of the walk |
| DeepSize.DeepSizeOfItems | crates/priority-lfu/src/deepsize.rs:212-216 | the sum over the items, threading one context through all of them |
| DeepSize.MeasureDeepSize | crates/priority-lfu/src/deepsize.rs:77-79 | own size, plus what is owned without counted pointers, plus once each what is behind the counted pointers reachable from the value |
| DeepSize.Context.Add | crates/priority-lfu/src/deepsize.rs:162-173 | exactly the pointer is added, to the set of its kind |
| DeepSize.Context.Contains | crates/priority-lfu/src/deepsize.rs:166-178 | tells whether the pointer was visited |
| DeepSize.WalkVisitsReachable | crates/priority-lfu/src/deepsize.rs:372-401 | the walk visits exactly the counted pointers reachable from the value, and counts the target of each once |
| DeepSize.VectorOfBoxes | crates/priority-lfu/src/deepsize.rs:200-216 | a vector of n boxes of m bytes has the size of its capacity, used or not, plus n m |
| DeepSize.SharedIsCountedOnce | crates/priority-lfu/src/deepsize.rs:372-385 | a target that two counted pointers share is counted once |
| DeepSize.SameOwnershipSameSize | crates/priority-lfu/src/deepsize.rs:132-134 | the total and the visited set depend on what the value, and what each counted pointer leads to, owns and points to, not on the order in which it is come upon, in the value or behind any pointer |
| DeepSize.ItemsInAnyOrder | crates/priority-lfu/src/deepsize.rs:212-216 | with the items rearranged at any depth of the value and of every cell of the heap, total and visited set are the same |
| DeepSize.ShuffledIsRearranged | crates/priority-lfu/src/deepsize.rs:212-216 | every permutation of items is such a rearrangement |
| DeepSize.ChildrenInAnyOrder | crates/priority-lfu/src/deepsize.rs:212-216 | any order of the children alone gives the same total and the same visited set |

## Left out

- Shards.Shard.Insert: demands that the bytes left after detaching the key and the new size add up below 2^64, where the program would wrap or panic; `ShardRuns.InsertArithmeticFits` shows that this holds in every run with capacity and sizes below 2^63.
- Shards.Shard.EvictUntilSpace: the same demand, for the bytes held and the size asked for.
- Shards.Shard.Attach: the same demand, for the bytes held and the size of the new entry.
- Caches.Cache.Insert: the same demand, for the shard of the key.
- Accounting.CountersExactWhenQuiet: speaks of totals below 2^64, which is all a 64-bit counter can show.
- Accounting.CountersAlwaysBalance: takes the critical section of a writer as one step, which the exclusive lock allows; what is published is one step per atomic update, and a lookup one step per load and store. The hit and miss counts are not part of it.
- Readers.RacingLookups: lets a load return any value of the phase and a store be ordered anywhere after the first value, which is more than Rust's memory model allows; the bounds hold all the same, and `Readers.BoundsAreMet` meets them without it.
- Shards.Shard.Drain: does not say in which order entries are returned; the hash table does not either.
- CacheTheorems.HooksAreCalledOnce: counts calls per key; the order of calls, which is that of the evicted list, is not part of it.
- DeepSize.MeasureDeepSize: sums are unbounded; an overflow of `usize` is not modelled.
- The wrapping of the metrics, and of the two counters, is modelled; the theorems on runs speak of the plain numbers they are the remainders of.
- Which of several equal representations of a key is stored, and so is passed to a hook: keys are equal or not.
- `Guard`, its raw pointer and the `unsafe` marker implementations: lifetimes, with no algorithm to prove; `get` and `get_by` differ from `get_clone` only in what they return.
- `get_clone_by` and `contains_by` on the cache: they differ from the owned forms in the key only, which `Erased.BorrowedLookupsAgree` covers.
- The inside of hash tables, index maps, locks and the hasher: a map, a list with swap-removal, a lock owner per shard, an uninterpreted function.
- Downcasting of values, and the type mismatch that cannot happen: values are of one abstract type.
- The derive macro and the size implementations for plain and external types: sums over fields, or constants.
- Hash map, B-tree, deque and linked list sizes: the same traversal with other per-node constants.
- `CacheBuilder`, `TypedLifecycle`, `is_empty`, the metrics snapshot and its ratios, `Debug` and `Display`: thin.
- What a hook does, and that it runs after the lock is released: only its calls are recorded.
- Metrics under concurrency: the program itself calls them observational.
