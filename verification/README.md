# Verified model of the containers, timers and pending calls

This project models the stateful core of the C++ server library in Dafny and proves what that core promises.
`dafny verify dfyconfig.toml` checks everything.

Code that updates fields and arrays in place is modelled by classes with the same fields, loops and branches; each
method is proved against a specification on plain values, and the theorems about whole runs are lemmas about that
specification. The pieces, from the bottom up:

- **Variable-length ring buffer.** `HeaderCodec` (item headers as bytes), `RingSpec` (layouts, push, pop, eviction,
  runs), `RingImage` (how a layout lies in the bytes), `UnfixedRingBuf` (the class on the byte array).
- **Lock-free queue.** `LockFreeQueue` (one event per access to shared memory; producers may load the two indices of
  the full test in either order, a compare-and-swap may fail spuriously, a write of the data takes two events),
  `LockFreeProofs`, `LockFreeTheorems` (safety), `LockFreePaths` (how each push and pop goes on and ends),
  `LockFreeLimits` and `LockFreeReaders` (runs outside the guarantees).
- **Hash set and LRU set.** `Links` (chains and rings threaded through arrays), `HashChains`, `SlotSets`, `MemSet`,
  `LruSpec`, `LruSet`, `LruRuns`.
- **Memory pools.** `PoolLayout` (alignment and addresses), `PoolSpec`, `MemPool`, `ProtectedPool`, `HashPool`.
- **Timers.** `Timers`, `TimerRuns`, `TimerTheorems` (which timers fire), `TimerEffects` (what callbacks ask for is
  done), `TimerLimits`, `TimeoutQueue`. A callback is a list of commands on the queue that is firing it, chosen by any
  function of the log and the queue; one that calls TimeOut itself asks for firings one by one.
- **Pending calls.** `ContextCalls`, `ContextRuns`, `ContextController`, in asynchronous mode.
- **Timed events through a scheduler.** `TimeoutEvents`, `TimeoutDecorator`.
- **Bucket sizing.** `Primes`.

`Modular` holds facts about remainders.

## Where the code and its promises part

The proofs turned up limits; each is stated with the input that shows it or the exact condition under which the
promise holds.

- The full test of the lock-free queue reads two cells one after the other, so a push can be told "full" by an empty
  queue (`SpuriousFull`, `SpuriousFullHeadFirst`). `FullAnswer` is the exact answer for both load orders;
  `FullIsTrueTailFirst` and `FullIsTrueHeadFirst` say when it is the truth.
- Version numbers have 32 bits. A producer that sleeps through 2^32 pushes between loading the tail and its
  compare-and-swap can overfill the queue (`StaleSwapOverfills`); the theorems ask that no producer sleeps that long.
- README.md:51 of the library calls the queue multi-consumer and README.md:207 takes a non-zero result of `Pop` for
  success. The code has one reader (queue_lock_free.h:24) and returns 0 for success. The model follows the code, and
  `TwoConsumersDuplicate` shows what a second reader does. `Pop` on an empty queue returns the "full" error code.
- README.md:26 speaks of a time wheel and README.md:32 of open addressing; the code has an ordered set and chained
  buckets, and so has the model. README.md:198 shows `disuse` returning elements; it returns how many were dropped.
- Catching up fails exactly when a due periodic timer would be carried past 2^64 (`CatchesUpIffFits`,
  `WrapsAtTheEnd`).
- A context keeps only the low 32 bits of its timer number. `AnswerCancelsOwnTimerIff` gives the exact condition
  under which an answer cancels its own timer, `AnswerCancelsAnother` says whose timer it cancels otherwise.
- Awake takes a network answer whose code is RPC_TIME_OUT for a time-out and leaves the timer behind, which can time
  out a later call of the same number too early (`TimeOutCodeFromNetwork`). Without such answers there are no early
  time-outs (`Punctuality`); the account of the calls is right with them too (`Conservation`).
- align_bytes gives 0 exactly when its 64-bit sum wraps (`AlignFailsIffOverflow`, `AlignOverflows`).
- is_prime squares its candidates in 64 bits and the squares can wrap round; `IsPrime` shows that this does no harm.

## Model

| member | source | states |
|---|---|---|
| HeaderCodec.DecodeEncode | containers/unfixed_ring_buf.h:115-119 | The length written into an item header reads back unchanged, for every length that fits the length type. |
| HeaderCodec.EncodeDecode | containers/unfixed_ring_buf.h:115-119 | The length bytes of a header are determined by the length they decode to. |
| HeaderCodec.EncodedByte | containers/unfixed_ring_buf.h:115-119 | Byte i of the length in a header is its digit i to the base 256, lowest first. |
| RingSpec.AcceptsIffRoom | containers/unfixed_ring_buf.h:161-187 | A push that may not overwrite is accepted if and only if the buffer has a contiguous free run of bytes long enough for header and payload, wherever it lies. |
| RingSpec.OverPushIsMinimal | containers/unfixed_ring_buf.h:152-202 | An overwriting push drops exactly the k oldest items, where k is the least number of pops after which a plain push is accepted, and leaves what that plain push leaves. |
| RingSpec.OverPushIsPopThenPush | containers/unfixed_ring_buf.h:172-201 | The overwriting push equals popping its victims one by one and then pushing plainly. |
| RingSpec.FewerDoNotMakeRoom | containers/unfixed_ring_buf.h:175-192 | After any smaller number of pops the plain push is still refused. |
| RingSpec.PaddingFirst | containers/unfixed_ring_buf.h:172-177 | Writing the padding before the evictions, as the code does, leads to the same layout and the same victims as evicting first. |
| RingSpec.ApplyConserves | containers/unfixed_ring_buf.h:23-94 | Push, pop and clear neither invent, lose nor reorder an item: what left followed by what is stored is what was stored followed by what was accepted. |
| RingSpec.PushAnswer | containers/unfixed_ring_buf.h:45-55 | A push is refused exactly when the item is larger than the buffer or may not overwrite and finds no free run of bytes, and then changes nothing; otherwise it goes behind the others, of which as few as possible, the oldest, have left. |
| RingSpec.PopAndClearAnswer | containers/unfixed_ring_buf.h:57-94 | Pop gives the oldest item and keeps the rest, or nothing on an empty buffer; clear gives up everything. |
| RingSpec.RunIsFifo | containers/unfixed_ring_buf.h:37-94 | Over every run of push, pop and clear the items that left, then the items still stored, are the accepted items in order. |
| RingSpec.UsedAndOffsets | containers/unfixed_ring_buf.h:31-35 | used is end - start modulo the size, never exceeds the size, and tells full from empty where the offsets coincide; a header always fits at start and at end of a non-empty buffer; empty means both offsets are 0. |
| RingImage.PopImage | containers/unfixed_ring_buf.h:71-87 | The bytes that stood for a layout stand, after the first item is dropped and the gap stepped over, for the layout without that item. |
| RingImage.ItemStored | containers/unfixed_ring_buf.h:115-150 | Every item of the layout is stored at its offset with flag 0, its length and its bytes. |
| RingImage.RepresentsUnique | containers/unfixed_ring_buf.h:115-150 | Bytes and counters determine the stored items: two readings of the same memory agree. |
| UnfixedRingBufs.UnfixedRingBuf.constructor | containers/inner/ring_buf_data.h:72-92 | A fresh buffer of positive size is empty (init with check == false). |
| UnfixedRingBufs.UnfixedRingBuf.Clear | containers/unfixed_ring_buf.h:23-29 | Clear leaves the empty layout. |
| UnfixedRingBufs.UnfixedRingBuf.StoreHeader | containers/unfixed_ring_buf.h:206-208 | Writes the flag byte and the length bytes, so that they read back, and no byte outside the header. |
| UnfixedRingBufs.GatherAppend | containers/unfixed_ring_buf.h:209-214 | The payload of two lists of io vectors one behind the other is the two payloads one behind the other. |
| UnfixedRingBufs.GatherOne | containers/unfixed_ring_buf.h:209-214 | The payload of one io vector is its bytes. |
| UnfixedRingBufs.GatherByte | containers/unfixed_ring_buf.h:209-214 | Byte j of io vector i lies in the payload at the sum of the lengths of the earlier vectors plus j. |
| UnfixedRingBufs.UnfixedRingBuf.CopyPayload | containers/unfixed_ring_buf.h:209-214 | Stores the concatenation of the io vectors and no byte outside it. |
| UnfixedRingBufs.UnfixedRingBuf.WriteItem | containers/unfixed_ring_buf.h:204-222 | Storing below the top of the buffer, with the skip bytes behind it, is one push of the layout. |
| UnfixedRingBufs.UnfixedRingBuf.WriteItemNoWrap | containers/unfixed_ring_buf.h:224-238 | Storing between the lower and the upper items is one push of the layout. |
| UnfixedRingBufs.UnfixedRingBuf.PushPadding | containers/unfixed_ring_buf.h:240-248 | The padding item turns the rest of the buffer into the gap before the wrap; the assertion of the code holds. |
| UnfixedRingBufs.UnfixedRingBuf.PopPadding | containers/unfixed_ring_buf.h:250-259 | Steps over a padding item at start, if there is one, and over nothing else. |
| UnfixedRingBufs.UnfixedRingBuf.Pop | containers/unfixed_ring_buf.h:57-94 | Pop drops the oldest item and hands its bytes to the callback; on an empty buffer it does nothing; every assertion in it holds. |
| UnfixedRingBufs.UnfixedRingBuf.PushImpl | containers/unfixed_ring_buf.h:152-202 | The recursive push ends, refuses exactly when it may not overwrite and there is no room, leaves the buffer untouched when it refuses, and otherwise is the minimal-eviction push whose victims the callback sees in order; `assert(full())` holds. |
| UnfixedRingBufs.UnfixedRingBuf.Push | containers/unfixed_ring_buf.h:45-55 | Push of io vectors succeeds exactly when the item fits the buffer and may overwrite or finds a free run of bytes; it then stores their concatenation behind the other items, of which only the oldest left; otherwise nothing changes. |
| UnfixedRingBufs.UnfixedRingBuf.FindStart | containers/unfixed_ring_buf.h:121-150 | The walk ends at the header of item index, for every stored index, and at the size otherwise; its early return is never taken. |
| UnfixedRingBufs.UnfixedRingBuf.Front | containers/unfixed_ring_buf.h:96-103 | front(len, i) gives the bytes of the i-th stored item for every i below get_num(), and null for every other i. |
| LockFreeProofs.StepInv | containers/queue_lock_free.h:29-84 | Every access to shared memory by any producer or the consumer keeps the invariant: head <= tail <= head + Q - 1, slot ownership, flags and history. |
| LockFreeProofs.SwapMeansUnmoved | containers/queue_lock_free.h:46-48 | A compare-and-swap succeeds only if the tail has not moved since it was loaded, as long as fewer than 2^32 claims came between. |
| LockFreeTheorems.RunInv | containers/queue_lock_free.h:29-84 | The invariant holds in every state of every interleaving. |
| LockFreeTheorems.PopsFollowClaims | containers/queue_lock_free.h:29-72 | In every interleaving of any number of producers and one consumer, the values Pop returned are exactly the first values in compare-and-swap order: none lost, duplicated or torn; at most Q - 1 claimed values wait. |
| LockFreeTheorems.ProducerOrder | containers/queue_lock_free.h:50-72 | The values of one producer come out in the order in which it pushed them. |
| LockFreeTheorems.NothingLost | containers/queue_lock_free.h:50-53 | The completed pushes of a producer are its claims, and are all popped once the queue is drained. |
| LockFreeTheorems.SlotOwnership | containers/queue_lock_free.h:50-51 | A claimed slot has a false flag and one owner until it is flagged; no two producers write the same slot. |
| LockFreeTheorems.UnreadyIsOwned | containers/queue_lock_free.h:50-51 | A claimed position whose value is not ready is owned by the producer that claimed it. |
| LockFreeTheorems.NoRace | containers/queue_lock_free.h:64-65 | No producer writes the slot the consumer is reading or clearing. |
| LockFreeTheorems.EmptyAnswer | containers/queue_lock_free.h:57-58 | Pop says empty if and only if nothing was waiting when it loaded the tail. |
| LockFreeTheorems.AgainAnswer | containers/queue_lock_free.h:60-62 | Pop says again if and only if the producer of the oldest value is still in the middle of its push. |
| LockFreeTheorems.FullAnswer | containers/queue_lock_free.h:80-84 | For either order of the two loads and however far the others have gone in between: a push is told full exactly when the position after the tested tail lies a multiple of the queue size from the tested head. |
| LockFreeTheorems.FullIsTrueTailFirst | containers/queue_lock_free.h:80-84 | A push that loads the tail first and is told full is told the truth unless the consumer has passed the tail it loaded. |
| LockFreeTheorems.FullIsTrueHeadFirst | containers/queue_lock_free.h:80-84 | A push that loads the head first is told full exactly when the queue is full, unless the consumer has moved since that load. |
| LockFreePaths.SwapAnswer | containers/queue_lock_free.h:46-48 | A compare-and-swap claims the next position for the value of the push exactly when the tail is the one loaded and it does not fail spuriously; a failed one changes neither tail nor claims. |
| LockFreePaths.PushGivesUpIff | containers/queue_lock_free.h:34-41 | A push ends without a claim if and only if its full test answers full or it comes back after 100 failed compare-and-swaps, which are counted over the run and not read from its counter. |
| LockFreePaths.NextTry | containers/queue_lock_free.h:34-48 | After any failed compare-and-swap, spurious or not, but the 100th, and whatever the others do meanwhile, the push loads the tail as it is then and still has the value it was given. |
| LockFreePaths.FirstTry | containers/queue_lock_free.h:29-39 | A push starts by loading the tail as it is then, with the value it was given. |
| LockFreePaths.PushTests | containers/queue_lock_free.h:39-41 | After loading the tail a push that goes on makes both loads of the full test, in either order. |
| LockFreePaths.PushSwaps | containers/queue_lock_free.h:40-48 | A push that is not told full goes for the compare-and-swap with the tail loaded at the start of the try. |
| LockFreePaths.PushCompletes | containers/queue_lock_free.h:46-53 | A compare-and-swap that succeeds claims a position for the value the push was given; the push then writes that value into its slot, sets the flag, and so completes. |
| LockFreePaths.CallsCanStart | containers/queue_lock_free.h:29-57 | At the start nobody is in a call; whoever is in none can start a push of any value, or a pop. |
| LockFreePaths.ProducersLeaveConsumer | containers/queue_lock_free.h:29-53 | Pushes move neither the head nor the pop in progress, and pop nothing. |
| LockFreePaths.PopPath | containers/queue_lock_free.h:55-72 | Pop makes both loads of the empty test; unless told empty it loads head and flag; unless told again it reads the data, clears the flag and moves the head, and so returns the oldest claimed value that was not yet popped. |
| LockFreeLimits.SpuriousFull | containers/queue_lock_free.h:80-84 | A run in which a push is told full while the queue is empty, its two loads straddling a push and a pop. |
| LockFreeLimits.SpuriousFullHeadFirst | containers/queue_lock_free.h:80-84 | The same for a push that loads the head first. |
| LockFreeLimits.StaleSwapOverfills | containers/queue_lock_free.h:44-48 | A run in which a producer delayed for 2^32 pushes succeeds with its stale compare-and-swap on a full queue, which then looks empty. |
| LockFreeReaders.TwoConsumersDuplicate | containers/queue_lock_free.h:55-72 | A run with a second consumer in which one pushed value is returned by Pop twice: the queue is for one reader. |
| Links.ChainUnique | containers/inner/base_mem_set.h:186-187 | A bucket walk is determined by its head and ends. |
| Links.ChainNoDup | containers/inner/base_mem_set.h:186-187 | A bucket walk comes to no slot twice: chains are acyclic. |
| Links.RingUnlink | containers/inner/base_mem_lru_set.h:94-98 | Redirecting the neighbours of any element of the recency list takes out that element only, also when a neighbour is the sentinel 0. |
| Links.RingPushFront | containers/inner/base_mem_lru_set.h:69-73 | Linking behind the sentinel puts the slot first and keeps the list doubly linked, also when the list was empty and the sentinel is its own neighbour. |
| HashChains.OneBucket | containers/inner/base_mem_set.h:191-211 | A slot is in at most one bucket chain, once. |
| HashChains.TableInsert | containers/inner/base_mem_set.h:206-207 | Putting a slot at the head of its bucket keeps all buckets chains of slots whose keys belong there. |
| HashChains.TableErase | containers/inner/base_mem_set.h:153 | Bypassing a slot through the predecessor pointer keeps all buckets well formed and removes that key only. |
| SlotSets.SlotsPartition | containers/inner/base_mem_set.h:191-211 | Each slot 1..max is in exactly one of: one bucket chain, the free list, the never-used suffix; chains and free list repeat nothing. |
| SlotSets.SetInsert | containers/inner/base_mem_set.h:191-211 | Taking a free or a never-used slot keeps chains, free list and counters in agreement. |
| SlotSets.SetErase | containers/inner/base_mem_set.h:152-157 | Giving a slot back keeps chains, free list and counters in agreement. |
| MemSets.MemSet.StoredLive | containers/inner/base_mem_set.h:82-85 | used counts the stored keys, raw_used bounds the slots, every stored key is in its slot. |
| MemSets.MemSet.ModelMeans | containers/inner/base_mem_set.h:82-85 | The set stands for the map from each stored key to the value in its slot, and used is its size. |
| MemSets.MemSet.constructor | containers/inner/mem_set_data.h:40-46 | A new set stores nothing. |
| MemSets.MemSet.Clear | containers/inner/base_mem_set.h:72-80 | Clear stores nothing, in any reachable state. |
| MemSets.MemSet.FindIndexImpl | containers/inner/base_mem_set.h:181-189 | The chain walk finds the slot of the key if it is stored, else 0. |
| MemSets.MemSet.FindIndex | containers/inner/base_mem_set.h:119-123 | find_index gives the slot of the key if it is stored, else 0. |
| MemSets.MemSet.InsertImpl | containers/inner/base_mem_set.h:191-211 | A new key gets a slot no other key has; the other values stay. |
| MemSets.MemSet.Insert2 | containers/inner/base_mem_set.h:87-107 | Inserts unless the key is stored or the set is full; answers with the slot of the key, 0 when full; a refused insertion changes nothing. |
| MemSets.MemSet.Erase | containers/inner/base_mem_set.h:136-162 | Removes exactly the key, and answers with the slot it had, 0 if it was not stored. |
| MemSets.MemSet.FindFirstUsedBucket | containers/inner/base_mem_set.h:173-179 | begin() is the first slot in bucket order, 0 if there is none. |
| MemSets.MemSet.Advance | containers/inner/base_mem_set.h:49-68 | operator++ goes to the next slot in bucket order, 0 behind the last one. |
| MemSets.MemSet.VisitAll | containers/inner/base_mem_set.h:49-67 | The walk from begin() to end() terminates and visits the slot of every stored key exactly once. |
| MemSets.FlatIsSlots | containers/inner/base_mem_set.h:49-68 | The bucket-order enumeration is the set of stored slots, each once. |
| LruSets.LruSet.constructor | containers/inner/mem_lru_set_data.h:14-28 | A new LRU set stores nothing. |
| LruSets.LruSet.Clear | containers/inner/mem_lru_set_data.h:24-28 | Clear empties the hash set and the recency list together. |
| LruSets.LruSet.Erase | containers/inner/base_mem_lru_set.h:88-100 | Removes the key from the recency order and from the map, nothing else. |
| LruSets.LruSet.Active | containers/inner/base_mem_lru_set.h:102-121 | Moves a stored key to the front and keeps the rest in order; an absent key changes nothing. |
| LruSets.LruSet.Disuse | containers/inner/base_mem_lru_set.h:123-132 | Drops keys from the old end until num are gone, none is left or the callback refuses, and answers how many. |
| LruSets.LruSet.DropOldest | containers/inner/base_mem_lru_set.h:127-129 | One step of disuse: nothing on an empty set or when the callback refuses the value at the old end; otherwise that key goes. |
| LruSpec.DroppedMeans | containers/inner/base_mem_lru_set.h:123-132 | A request to drop num keys has dropped num, or all there were, or was stopped by the callback refusing the next one; it let every dropped one go. |
| LruSets.LruSet.Insert | containers/inner/base_mem_lru_set.h:56-76 | The insertion takes place if and only if the key is not stored and there is room, or the insertion is forced and the callback, if there is one, lets the key at the old end go; the new key is then first and, if the set was full, the oldest is gone; otherwise nothing changes. |
| LruSpec.InsertedMeans | containers/inner/base_mem_lru_set.h:56-76 | The same for the values: the new key has the new value, and the keys that stay keep theirs. |
| LruSets.LruSet.VisitAll | containers/inner/base_mem_lru_set.h:134-137 | The walk from begin() to end() comes to the stored keys from the most to the least recently used. |
| LruSpec.RemovedMeans | containers/inner/base_mem_lru_set.h:88-100 | Removing a key leaves what was before and behind it, in order. |
| LruSpec.UseMovesToFront | containers/inner/base_mem_lru_set.h:102-121 | After active the key is first, the others keep their relative order, and the same keys are stored. |
| LruSpec.AgreeSize | containers/inner/base_mem_lru_set.h:50-54 | The recency list and the hash set hold the same number of slots. |
| LruSpec.OrderMember | containers/inner/base_mem_lru_set.h:56-132 | A slot is in the recency list if and only if it is the slot of a stored key. |
| LruRuns.StepByLastUse | containers/inner/base_mem_lru_set.h:56-132 | Every operation keeps the recency list ordered by time of last use. |
| LruRuns.RunAll | containers/inner/base_mem_lru_set.h:56-132 | Over every run the recency list stays ordered by time of last use. |
| LruRuns.EvictsLeastRecentlyUsed | containers/inner/base_mem_lru_set.h:58-64 | Whatever happened before, an insertion, forced or not and with any callback, drops a key only from a full set, and then the one used longest ago. |
| PoolLayout.MaskClearsLowBits | containers/fixed_mem_pool.h:250 | Masking with the complement of 2^k - 1 subtracts the remainder modulo 2^k. |
| PoolLayout.AlignIsLeastMultiple | containers/fixed_mem_pool.h:250 | align_bytes gives the least multiple of the alignment not below its input, as long as the 64-bit sum does not wrap. |
| PoolLayout.AlignFailsIffOverflow | containers/fixed_mem_pool.h:250 | align_bytes falls below its input if and only if the 64-bit sum wraps, and is then 0. |
| PoolLayout.AlignOverflows | containers/fixed_mem_pool.h:250 | A concrete overflow: the largest 64-bit size, aligned to 8, becomes 0. |
| PoolLayout.PtrIntInverse | containers/fixed_mem_pool.h:168-178 | ptr_2_int(p) == i if and only if p is the start of block i: it inverts int_2_ptr and maps every other address to 0. |
| PoolLayout.BlocksApart | containers/fixed_mem_pool.h:236-248 | Blocks do not overlap. |
| PoolLayout.LayoutFits | containers/fixed_mem_pool.h:57-61 | Header, link nodes and blocks lie one behind the other inside calc_need_size bytes, blocks aligned. |
| PoolLayout.LayoutExact | containers/fixed_mem_pool.h:57-61 | calc_need_size is exact: blocks start at the least aligned place behind the links, each takes the least aligned size and starts where the one before ends, and the computed size ends with the last block. |
| PoolSpec.PoolAlloc | containers/fixed_mem_pool.h:94-128 | Allocation keeps live list, reclaim list and never-used suffix a partition of the blocks. |
| PoolSpec.PoolFree | containers/fixed_mem_pool.h:130-150 | Freeing keeps live list, reclaim list and never-used suffix a partition of the blocks. |
| PoolSpec.ReclaimNotLive | containers/fixed_mem_pool.h:138-146 | The out-of-range prev mark tells a given-back block from a live one. |
| MemPools.FixedMemPool.constructor | containers/fixed_mem_pool.h:204-220 | A new pool has no live and no given-back block, and leaves the bytes of the blocks alone. |
| MemPools.FixedMemPool.Clear | containers/fixed_mem_pool.h:152 | Clear makes every block never used again and leaves the bytes of the blocks alone. |
| MemPools.FixedMemPool.Alloc | containers/fixed_mem_pool.h:94-128 | Null exactly when full; otherwise a block that was not live, the most recently given back one if there is any, which goes to the front of the live list; on demand its t_size bytes are zeroed, and no other byte changes. |
| MemPools.FixedMemPool.Free | containers/fixed_mem_pool.h:130-150 | True if and only if the address is the start of a live block, which is then live no longer; anything else, a repeated free too, is refused and changes nothing; no byte of a block changes. |
| MemPools.FixedMemPool.LiveCount | containers/fixed_mem_pool.h:153-156 | used counts the live blocks; each block ever used is live or given back, not both. |
| ProtectedPools.Drain | containers/protected_mem_pool.h:48-50 | The allocation loop ends with the pool full and lists the blocks it took. |
| ProtectedPools.Refill | containers/protected_mem_pool.h:59-60 | Freeing those blocks in that order restores the live list exactly, in order. |
| ProtectedPools.FenceAll | containers/protected_mem_pool.h:52-57 | The iteration over the pool comes to every live block once, in order. |
| ProtectedPools.InitChecked | containers/protected_mem_pool.h:44-63 | Attaching to a pool in use fences every block of the pool once and leaves the live list and the bytes of the blocks as they were; the assertion on the size holds. |
| HashPools.HashMemPool.Bounds | containers/hash_mem_pool.h:64-67 | The nodes of the stored keys are the live blocks of the pool, and their number is its size. |
| HashPools.HashMemPool.constructor | containers/hash_mem_pool.h:72-97 | A new hash pool stores nothing. |
| HashPools.HashMemPool.FindRef | containers/hash_mem_pool.h:171-181 | The block of the key if it is stored, else 0. |
| HashPools.HashMemPool.Insert | containers/hash_mem_pool.h:106-120 | On a full pool it fails even for a stored key; otherwise a stored key is found and a new one gets a zeroed value. |
| HashPools.HashMemPool.InsertValue | containers/hash_mem_pool.h:122-128 | Writes the value only for a key that was not stored. |
| HashPools.HashMemPool.GetOrInsert | containers/hash_mem_pool.h:133-138 | Finds a stored key also on a full pool; otherwise inserts it if there is room. |
| HashPools.HashMemPool.Erase | containers/hash_mem_pool.h:140-157 | Removes exactly the key and gives its block back; false if it was not stored. |
| Timers.InsertSorted | common/timeout_queue.h:41-46 | Entering a timer keeps the set ordered by expiry and number. |
| Timers.AddOk | common/timeout_queue.cpp:8-24 | Add enters the timer in the set and in the index, or in neither, and keeps the two in bijection. |
| Timers.CancelOk | common/timeout_queue.cpp:26-35 | Cancel succeeds if and only if a timer has that number, and removes exactly that timer from set and index. |
| Timers.TakenOk | common/timeout_queue.cpp:46-59 | The first timer leaves; a periodic one comes back with its next expiry on 64 bits; set and index stay in bijection. |
| TimerRuns.FireKeepsAgreement | common/timeout_queue.cpp:40-63 | Whatever a callback adds, cancels, clears or processes itself, the firing timer included, set and index stay in bijection. |
| TimerRuns.TurnsKeepAgreement | common/timeout_queue.cpp:37-65 | For any callbacks at all: after any number of turns set and index are in bijection, and once the loop has ended every timer left expires after now. |
| TimerRuns.TurnsAreFirings | common/timeout_queue.cpp:39-62 | Unless callbacks process timers themselves, the number of turns is the number of timers fired. |
| TimerRuns.EndsWhenPaid | common/timeout_queue.cpp:37-65 | If callbacks add no timer already due and no due timer passes 2^64, the loop ends within as many turns as firings are owed. |
| TimerRuns.FinalClosedForm | common/timeout_queue.cpp:52-58 | A periodic timer due at e fires (now - e) / interval + 1 times up to now and is then due at the least e + k * interval above now. |
| TimerRuns.TimeOut | common/timeout_queue.cpp:37-65 | If callbacks add no timer already due and no due timer passes 2^64, the loop ends, everything left expires after now, and at most what was owed has fired; callbacks may call TimeOut themselves. |
| TimerTheorems.TwoCallsAreOne | common/timeout_queue.cpp:37-65 | TimeOut(a) then TimeOut(b) with a <= b fires the same timers in the same order and leaves the same queue as TimeOut(b), for any callbacks with which TimeOut(b) ends. |
| TimerTheorems.FiresInOrder | common/timeout_queue.cpp:40-46 | With callbacks that add only later timers one call fires in strictly increasing order of expiry, then number, and only timers that were due. |
| TimerTheorems.FiresWhenDue | common/timeout_queue.cpp:37-65 | With callbacks that add only later timers and do not cancel this one, it fires exactly once for each time it was due, a one-shot once, and a periodic one is then queued for its first due time after now. |
| TimerTheorems.TickAt | common/timeout_queue.cpp:52-58 | Firing number k of those a timer owes is that timer k intervals later; a one-shot timer owes at most one. |
| TimerTheorems.NotDueNotFired | common/timeout_queue.cpp:40-46 | With callbacks that add only later timers a timer that is not due or was cancelled does not fire. |
| TimerEffects.CallbackIsObeyed | common/timeout_queue.cpp:46-61 | In a turn the first timer is taken before its callback runs, and then every command of the callback is carried out, in order and nothing else: an added timer is queued beside the others, a cancelled one is gone and no other, clearing empties the queue, processing fires the first timer if it is due. |
| TimerEffects.AddedIsQueued | common/timeout_queue.cpp:61 | A timer that the callback of any turn adds to expire after now, and that no later command cancels or clears, is queued after that turn, after every later one and at the end, with its task, expiry and interval. |
| TimerEffects.CancelledDoesNotFire | common/timeout_queue.cpp:46-61 | A timer that the callback of an earlier firing cancels or clears does not fire any more in that call, due or not. |
| TimerEffects.CountIsTurns | common/timeout_queue.cpp:39-62 | The count returned is the number of turns after which some timer was still due, for any callbacks. |
| TimerLimits.CatchesUpIffFits | common/timeout_queue.cpp:52-58 | With silent callbacks the loop is done after firing every timer once per due time if and only if no due periodic timer would pass 2^64. |
| TimerLimits.WrapsAtTheEnd | common/timeout_queue.cpp:52-58 | A concrete misfit: a timer due at 2^64 - 2 with interval 5 wraps round to 3 when fired at 2^64 - 1 and is due again. |
| TimerLimits.SilentTimeOut | common/timeout_queue.cpp:37-65 | With silent callbacks exactly the firings owed take place. |
| TimeoutQueues.TimeoutQueue.GenerateID | common/timeout_queue.cpp:78-84 | The number after the last one, 1 after 2^64 - 1. |
| TimeoutQueues.TimeoutQueue.Enter | common/timeout_queue.cpp:12-21 | The timer is entered in both structures or, if either refuses it, in neither. |
| TimeoutQueues.TimeoutQueue.Add | common/timeout_queue.cpp:8-24 | Returns the new number and queues a timer of that number with this task, expiry and interval beside the others, or returns 0 and changes neither structure when that number is in use. |
| TimeoutQueues.TimeoutQueue.Cancel | common/timeout_queue.cpp:26-35 | True exactly for a queued number; that timer leaves both structures. |
| TimeoutQueues.TimeoutQueue.Exist | common/timeout_queue.cpp:67-70 | True if and only if a timer of that number is queued. |
| TimeoutQueues.TimeoutQueue.Clear | common/timeout_queue.cpp:72-76 | Forgets all timers but not the last number. |
| TimeoutQueues.TimeoutQueue.TakeFirst | common/timeout_queue.cpp:46-59 | Hands out the first timer; it leaves both structures, or goes back into both with its next expiry if it is periodic. |
| TimeoutQueues.TimeoutQueue.TimeOut | common/timeout_queue.cpp:37-65 | For any callbacks with which the loop ends, nested TimeOut calls included: it takes exactly the modelled turns, nothing left is due, and it returns their number modulo 2^32. |
| ContextCalls.PendKeeps | core/context_controller.cpp:60-150 | Pending succeeds exactly when there is a context and the number is not in use, then caches the call under its number with its own new timer; otherwise it returns RPC_SYS_ERR and leaves cache and timers as they were; the invariants are kept on every path. |
| ContextCalls.AnswerKeeps | core/context_controller.cpp:31-58 | An answer with any code ends the call of its number; as long as timer numbers fit 32 bits it removes the timer of that call and no other, unless the code is RPC_TIME_OUT, and every other cached call keeps its own timer. |
| ContextCalls.FiringKeeps | core/context_controller.cpp:73-77 | A timer that fires wakes the cached call of its number, if there is one; as long as timer numbers fit 32 bits no other call loses its timer, and without answers carrying RPC_TIME_OUT the call woken is the own one of the timer, whose time has come. |
| ContextCalls.RunKeeps | core/context_controller.cpp:26-150 | Over every run, whatever codes the answers carry, the account of the calls is right and, with fewer than 2^32 timers, each cached call has its own timer; if moreover no answer carries RPC_TIME_OUT, there are no other timers and no early time-outs. |
| ContextCalls.Conservation | core/context_controller.cpp:26-150 | Over every run, whatever codes the answers carry: successes = ended + cached; every accepted call is cached or has ended, not both, and ended once. |
| ContextCalls.OwnLiveTimers | core/context_controller.cpp:26-150 | Over every run with fewer than 2^32 timers, whatever codes the answers carry, every cached call has its own live timer. |
| ContextCalls.Punctuality | core/context_controller.cpp:44-51 | With fewer than 2^32 timers, if no answer carries RPC_TIME_OUT, no call is timed out before its expiry and the only timers are those of the cached calls. |
| ContextRuns.ProcTimeOut | core/context_controller.cpp:26-29 | If no callback makes a call that is already late, ProcTimeOut ends, within as many turns as calls are late, and leaves no cached call with an expiry up to now; callbacks may answer with any code and process timers themselves. |
| ContextRuns.NoneLateAfter | core/context_controller.cpp:26-29 | For any callbacks at all with which ProcTimeOut ends, and fewer than 2^32 timers, no cached call has an expiry up to now afterwards. |
| ContextRuns.LoopIsRun | core/context_controller.cpp:26-29 | The loop is a run of firings and of what the callbacks do, so what holds over every run holds across ProcTimeOut. |
| ContextRuns.OneTurn | core/context_controller.cpp:26-29 | A turn is the firing of the first timer followed by what its callback does, event after event. |
| ContextRuns.CallbackIsObeyed | core/context_controller.cpp:26-150 | In a turn the first timer fires and wakes its call, and then all that the callback does takes place, in order and nothing else: each call it makes is cached with its own timer or refused, each answer ends its call and cancels its timer, each processing wakes the next call that is late. |
| ContextRuns.CountIsTurns | core/context_controller.cpp:26-29 | The count returned is the number of turns after which some timer was still due, for any callbacks. |
| ContextRuns.TurnsAreTimeOuts | core/context_controller.cpp:26-29 | If no answer carries RPC_TIME_OUT and callbacks process no timers themselves, the count returned is the number of calls timed out. |
| ContextRuns.EndsWhenPaid | core/context_controller.cpp:26-29 | ProcTimeOut ends within as many turns as calls are late if no callback makes a call that is already late. |
| ContextRuns.AnswerCancelsOwnTimerIff | core/context_controller.cpp:44-47 | Awake removes the own timer of the call if and only if the code is not the time-out code and the timer number is below 2^32. |
| ContextRuns.AnswerCancelsAnother | core/context_controller.cpp:86 | The timer Awake removes is the one whose number is the own number modulo 2^32, whichever call it belongs to. |
| ContextRuns.TimeOutCodeFromNetwork | core/context_controller.cpp:44-51 | A run in which an answer carrying RPC_TIME_OUT leaves its timer behind, which later times out another call of the same number 92 ms early. |
| ContextControllers.ContextController.Pending | core/context_controller.cpp:60-93 | On success the context is cached under the number of the call, its timer is queued and the context keeps that timer number cut to 32 bits; without a context, with a number in use or without a free timer number it returns RPC_SYS_ERR and the cache stays. |
| ContextControllers.ContextController.Awake | core/context_controller.cpp:31-58 | The method ends the call, hands back its context with the code set and the timer number cleared, and changes no other context. |
| ContextControllers.ContextController.ProcTimeOut | core/context_controller.cpp:26-29 | For any callbacks with which the loop ends, nested ProcTimeOut calls included: it takes exactly the modelled turns, returns their number modulo 2^32, leaves no due timer and, with fewer than 2^32 timers, no cached call with an expiry up to now. |
| TimeoutEvents.RunsAtMostOnce | core/timeout_decorator.cpp:81-102 | In every run, whatever messages are delivered, however often and in whatever order, each event runs its task at most once. |
| TimeoutEvents.RunKeeps | core/timeout_decorator.cpp:36-133 | With a scheduler that delivers only what it was given, each event that ran was made by a timer and ran that timer's task. |
| TimeoutEvents.CancelledNeverRuns | core/timeout_decorator.cpp:57-62 | After DelEvent succeeds no event of that timer runs, not even one already queued in the scheduler. |
| TimeoutEvents.FiredWaits | core/timeout_decorator.cpp:39-53 | With a scheduler the event of a timer that fires carries a new number and the group, number and interval of the timer; it waits with the task of the timer, the other waiting events stay, and nothing runs. |
| TimeoutEvents.FiredRunsAtOnce | core/timeout_decorator.cpp:39-53 | Without a scheduler the task of the timer that fires runs at once, once, periodic or not, and nothing is left waiting. |
| TimeoutEvents.DeliveredRunsIff | core/timeout_decorator.cpp:69-133 | A waiting event delivered after any actions that deliver nothing to it runs the task it was made with, once, if and only if it is one-shot or its timer is queued at that moment; either way it waits no longer and the rest is untouched. |
| TimeoutEvents.QueuedOneShotStillRuns | core/timeout_decorator.cpp:57-62 | A one-shot event that the scheduler holds cannot be cancelled: delivering it runs its task, whatever was added, deleted, fired or delivered for other events in between, forged messages included. |
| TimeoutEvents.StrayMessage | core/timeout_decorator.cpp:71-86 | A malformed message, and one about no waiting event, change nothing and answer false. |
| TimeoutEvents.ProcTimeOut | core/timeout_decorator.cpp:64-67 | If nothing in between adds a timer already due, and no due timer passes 2^64, it ends with nothing due; the scheduler may deliver anything and tasks may process timers themselves. |
| TimeoutEvents.LoopIsRun | core/timeout_decorator.cpp:64-67 | The loop is a run of firings and of what happens in between, so what holds over every run holds across ProcTimeOut. |
| TimeoutEvents.OneTurn | core/timeout_decorator.cpp:64-67 | A turn is the firing of the first timer followed by the reactions to it, one after the other. |
| TimeoutEvents.ReactionIsObeyed | core/timeout_decorator.cpp:36-133 | In a turn the first timer makes its event, and then all that the scheduler and the tasks do takes place, in order and nothing else: each event added has its timer, each one deleted loses it, each delivery runs the task of a waiting event exactly when it may. |
| TimeoutEvents.CountIsTurns | core/timeout_decorator.cpp:64-67 | The count returned is the number of turns after which some timer was still due, whatever happens in between. |
| TimeoutEvents.TurnsAreEvents | core/timeout_decorator.cpp:64-67 | Unless reactions process timers themselves, the count returned is the number of events made. |
| TimeoutDecorators.TimeoutDecorator.AddEvent | core/timeout_decorator.cpp:36-55 | Queues one timer with this expiry and interval, carrying group and task, beside the others, or returns 0 and leaves them. |
| TimeoutDecorators.TimeoutDecorator.DelEvent | core/timeout_decorator.cpp:57-62 | Cancels exactly that timer. |
| TimeoutDecorators.TimeoutDecorator.Fired | core/timeout_decorator.cpp:39-53 | A firing makes an event with a new number; without a scheduler it is dealt with at once. |
| TimeoutDecorators.TimeoutDecorator.DealEvent | core/timeout_decorator.cpp:69-133 | True if and only if the message is about a waiting event that is one-shot or whose timer is queued; exactly then the task of that event runs; the event waits no longer, and a malformed message or an unknown event changes nothing. |
| TimeoutDecorators.TimeoutDecorator.ProcTimeOut | core/timeout_decorator.cpp:64-67 | For any scheduler and tasks with which the loop ends, nested ProcTimeOut calls included: it takes exactly the modelled turns, nothing left is due, and it returns their number modulo 2^32. |
| Primes.IsPrime | containers/inner/traits_utils.h:43-54 | True if and only if n is prime, for every 64-bit n, with the squares of the candidates computed modulo 2^64. |
| Primes.StopsInTimeUpToLastSeven | containers/inner/traits_utils.h:48 | For every n from 5 up to 2^64 - 8 the loop stops at a candidate not above n, also where the squares wrap round. |
| Primes.LastSeven | containers/inner/traits_utils.h:47-53 | None of the last seven 64-bit numbers is prime, so the answer for them is false. |
| Primes.SixApart | containers/inner/traits_utils.h:48-52 | One turn of the loop rules out the next six divisors. |
| Primes.SquareRootSuffices | containers/inner/traits_utils.h:48 | A number without a divisor up to its square root is prime. |
| Primes.NearbyPrime | containers/inner/traits_utils.h:57-62 | The greatest prime not above n for 2 <= n <= 800001; n itself otherwise. |

## Left out

- C++ memory orders weaker than sequential consistency: the queue is modelled with one total order of accesses.
- LockFreeProofs.StepInv: for compare-and-swaps that come before 2^32 claims have passed; see StaleSwapOverfills.
- LockFreeTheorems.PopsFollowClaims: for runs of such steps.
- LockFreeTheorems.RunInv: holds for runs in which no producer lets 2^32 claims pass between its load of the tail and its compare-and-swap; see StaleSwapOverfills for why.
- LockFreePaths.PushGivesUpIff: for runs of such steps.
- LockFreePaths.NextTry: for runs of such steps.
- LockFreePaths.PushCompletes: for runs of such steps.
- TimerRuns.TimeOut: for callbacks that add no timer already due and process none that is not due, and due timers that fit 64 bits; without the first the loop need not end, without the last see CatchesUpIffFits. TurnsKeepAgreement and TwoCallsAreOne hold without any of it.
- TimerRuns.EndsWhenPaid: under the same conditions as TimerRuns.TimeOut.
- TimerLimits.SilentTimeOut: for due timers that fit 64 bits; CatchesUpIffFits covers the others.
- TimeoutQueues.TimeoutQueue.TimeOut: for callbacks with which the loop ends.
- TimeoutEvents.ProcTimeOut: for reactions that add no timer already due and due timers that fit 64 bits; the method of the class asks only that the loop ends.
- ContextRuns.ProcTimeOut: for callbacks that make no call already late, without which the loop need not end, and fewer than 2^32 timers in the run, without which see AnswerCancelsAnother.
- ContextCalls.Conservation: for runs in which the 64-bit timer numbers do not wrap round.
- ContextCalls.OwnLiveTimers: for fewer than 2^32 timers in the run; see AnswerCancelsAnother for what happens beyond.
- ContextCalls.Punctuality: for fewer than 2^32 timers and answers without RPC_TIME_OUT; see TimeOutCodeFromNetwork.
- ContextControllers.ContextController.ProcTimeOut: for callbacks with which the loop ends; the same holds for TimeoutDecorator.
- ContextControllers.ContextController.Pending: the context must not already wait under another call; what sharing one context between two calls does is not modelled.
- ContextController in coroutine mode, the callbacks and life time of ServerContext, and to_be_continue: they depend on an unseen plugin.
- TimeoutDecorators.TimeoutDecorator.DealEvent: the coroutine spawn and its failure, the finish watch and OnResponse; a message is either malformed or the fields of an EventInfo, not 32 raw bytes.
- Clock and IDGenerator: the time and the numbers other users take are parameters.
- UnfixedRingBufs.UnfixedRingBuf.Push: the sum of the io vector lengths does not wrap round size_t; null data pointers are not modelled; the length in a header is low byte first.
- UnfixedRingBuf, MemSet, FixedMemPool and HashMemPool attaching (check == true) to arbitrary bytes: only memory that the same code left behind is modelled.
- Zero-capacity containers: sizes are positive.
- MemSet: equality of keys is equality in the model, so a hash must agree with it; construction and destruction of non-trivial values is not modelled.
- Callbacks of UnfixedRingBuf and LruSet that change the container they are called from.
- TimerTheorems.FiresInOrder: for callbacks that add no timer already due and process none that is not due, and due timers that fit 64 bits; a callback that adds a timer already due can make it fire out of order.
- TimerTheorems.FiresWhenDue: under the same conditions.
- TimerTheorems.NotDueNotFired: under the same conditions; a callback could otherwise add a due timer that gets the number again.
- TimerEffects.AddedIsQueued: for turns up to which the 64-bit timer numbers did not wrap round; after that Add may refuse a number still in use.
- TimerEffects.CancelledDoesNotFire: for callbacks that add no timer already due and process none that is not due, since a callback could otherwise add a due timer that gets the number again, and for commands before the cancelling one that process no timers.
- ContextRuns.TurnsAreTimeOuts: under the conditions of ContextCalls.Punctuality; CountIsTurns holds without them.
- TimeoutEvents.RunsAtMostOnce: for runs in which the 64-bit event numbers do not wrap round; the other results about events too.
- HashMemPool: `init` is taken with the size that calc_mem_size gives; its size test does not refuse a smaller region. Values are zeroed on allocation as whole values, and the node fields stand beside the pool's blocks instead of inside their bytes.
- FixedMemPool: attaching to a region whose stored header does not fit.
- PoolLayout.AlignIsLeastMultiple: for sums that do not wrap round 64 bits; AlignFailsIffOverflow says what happens when they do.
- PoolLayout.LayoutFits: sizes are those of a region that fits the address space, so the products in calc_need_size do not wrap.
- mmap, mprotect and its failures, logging, statistics.
- FixedRingBuf, FixedVector, BaseMemList, WaitGroup, SystemMgr and the codecs: they would add easier members of the same kinds.
