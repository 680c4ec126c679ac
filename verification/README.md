# yanet2: verified models of the dataplane's core structures

This project models the data structures and protocols that the yanet2 dataplane rests on, in Dafny, and proves
what they promise:

* the longest-prefix-match tries of `common/lpm.h` and `common/lpm_wide.h` (range insert, lookup, batched lookup,
  compaction, walk and iterator),
* the radix tree, range index and prefix collector that compile prefix sets into such a trie,
* the firewall-state hash map and its layered table (`lib/fwstate`),
* the block allocator, the remap and value tables behind packet classification, and counter generations,
* the small concurrent protocols: the two-phase epoch flip of `common/rcu.h`, the reader-writer lock, the
  single-producer single-consumer ring, and backend leases in the gateway registry.

Code that updates state in place is modelled by classes and methods with loops; the methods are proved against
specifications over plain values, and the laws are lemmas about those values. Concurrent protocols are step
relations with one atomic operation per step, any number of threads and any interleaving; their laws are stated
over every run.

## How it is organised

| files | what they model |
|---|---|
| `Keys`, `KeyArith`, `Arith` | keys as digit strings and as numbers; increment, decrement, prefix ends |
| `Trie`, `Cursor`, `RangeTrie`, `LpmRuns` | the page pool, the range cursor, insert and lookup, whole runs, byte and wide tries |
| `Compaction` | when a trie is canonical, and the sweep that makes it so |
| `RunList`, `LpmWalk`, `LpmBatch` | maximal runs, the walk, the pull iterator, batched lookup |
| `RadixTree`, `RangeIndexing`, `Sweep`, `Collector`, `PrefixCompiler` | from prefixes to labelled ranges to a trie |
| `FwOps`, `FwMapRep`, `FwMaps` | merging of states; one firewall-state map |
| `FwLayers`, `FwTables` | the layered table and the plain map it refines |
| `BlockRep`, `Allocator` | size classes, blocks and the allocator |
| `RemapRep`, `Partition` | partition refinement by touching |
| `CounterRegistry`, `CounterPages`, `CounterStore` | slot layout and page sharing across generations |
| `Rcu`, `RwLock`, `DataPipe`, `Leases` | concurrent protocols |

## Findings

* `ValueRoundTrip`: a 32-bit value stored in a trie slot reads back unchanged exactly when it is below 2^31, because
  the flag bit shifts it in 32-bit arithmetic (`common/lpm.h:24-27`). `Compile` therefore refuses more than 2^31 labels.
* `AgreesIffCovered`: the layered table shows what a plain map with deadlines would show exactly as long as no insert
  leaves an older copy of its key that outlives the new deadline. `OlderCopyReturns` gives a concrete case where a
  shorter time-to-live makes the older copy come back. Inserts that never end before the deadline a lookup shows are
  enough over whole runs (`LaterDeadlinesRefine`, `VisibleTotalsBurst`).
* `OneRoundIsNotEnough`: a concrete run in which a reader that sampled the epoch during an earlier update still holds
  a replaced value after the first of the two epoch rounds; `ReclaimIsSafe` shows that two rounds always suffice.
* `SafeIffMayRegister`: leases are safe in every run whose registrations use a backend that was never registered before
  or that an entry or an unreleased lease still refers to, as the gateway does by dialing a new one each time. A
  backend registered again after its last reference was dropped is closed while the registry resolves to it
  (`RevivalCloses`, `RevivalHappens`), or, when the registration renews an entry at the same address, closed twice
  (`RenewalClosesTwice`, `SecondCloseHappens`).
* `IntactIffReports`: the consumer of a ring is shown what was pushed exactly if it leaves the slots it does not report as
  handled the way it found them; otherwise its next call shows the changed item (`UnreportedBreaks`,
  `UnreportedHappens`). Position order, bounds, separate windows and what is handed back do not depend on that
  (`RingSafety`, `WindowsApart`).
* `SpawnCleanIff` and `WriteCleanIff`: new counters start at zero exactly as long as no storage on the same blocks has
  counted in slots the old registry had not given out. Generations that follow one another never do
  (`LineStaysClean`, `NewCountersStartAtZero`). Two registries linked from one old registry are given the same slots
  (`SiblingsShareSlot`), and what one counts there the other may start with (`SiblingStartsSoiled`, `SiblingHappens`).

## Model

| member | source | states |
|---|---|---|
| Keys.Cmp | common/key.h:39-49 | byte-wise comparison decides the order of the numbers the keys spell |
| Keys.PrefixOrder | common/key.h:39-49 | keys are ordered by their prefixes first |
| KeyArith.KeyInc | common/key.h:8-14 | the next number, all-ones wrapping to zero |
| KeyArith.KeyDec | common/key.h:17-23 | the previous number, zero wrapping to all-ones |
| KeyArith.ApplyPrefix | common/key.h:26-36 | the prefix bits followed by ones; all ones for the empty prefix |
| KeyArith.LastUnderBlock | common/key.h:26-36 | for every prefix of 0 to 8n bits that key ends the block that contains the start, of size and alignment 2^(bits after the prefix) |
| Trie.ValueRoundTrip | common/lpm.h:24-27 | a stored value reads back iff it is below 2^31; an empty slot reads as the invalid value; no stored value does |
| Trie.ValueGetInjective | common/lpm.h:24-27 | different slot words read back differently |
| Trie.WriteLeaf | common/lpm.h:246-248 | storing into a slot changes the lookups of exactly the keys that start with the slot's digits |
| Trie.SplitFind | common/lpm.h:60-123 | turning a value slot into a page filled with its word changes no lookup |
| Cursor.StartsBefore | common/lpm.h:164-178 | whether a slot's block of keys starts before the range |
| Cursor.EndsAfter | common/lpm.h:181-195 | whether a slot's block of keys ends after the range |
| Cursor.StepByte | common/lpm.h:261-275 | the 8-bit increment with its wrap-around stops exactly at the last digit of the page or of the range |
| Cursor.StepWord | common/lpm_wide.h:303-322 | the widened 16-bit increment stops at the same digits |
| Cursor.Climb | common/lpm.h:261-275 | after a block the cursor stands on the next block of the range, or the range is exhausted |
| RangeTrie.Lpm.NewPage | common/lpm.h:60-123 | a split keeps the trie well formed and every lookup, or fails for want of memory and changes nothing |
| RangeTrie.Lpm.Insert | common/lpm.h:209-279 | success maps exactly the keys of the range to the value and terminates; it fails only when page memory is used up, and then has painted only range keys before some prefix |
| RangeTrie.Lpm.Lookup | common/lpm.h:282-297 | returns the value of the key's slot |
| RangeTrie.Init | common/lpm.h:126-133 | a new trie answers invalid for every key; there is none iff no chunk can be had |
| RangeTrie.AfterStore | common/lpm.h:246-248 | overwriting a whole block at the cursor paints up to the block |
| RangeTrie.AfterDescend | common/lpm.h:237-258 | going down starts at the range's own digit only along the first descent and skips no key |
| LpmRuns.InsertAll | common/lpm.h:209-279 | after any run of inserts each lookup is the value of the last range that covers the key, or invalid; fails only when page memory is used up |
| LpmRuns.WordsKeepValue | common/lpm_wide.h:167-172 | two bytes to a word keeps the number a key spells |
| LpmRuns.KeyFromBe | common/lpm_wide.h:167-172 | computes those words |
| LpmRuns.WideAgrees | common/lpm_wide.h:238-352 | for every even key size the wide trie's last writer is the byte trie's |
| LpmRuns.InsertBoth | common/lpm_wide.h:238-352 | the same inserts into both tries give the same lookups |
| LpmBatch.LookupBatch | common/lpm.h:313-379 | hop-major lookup of any number of keys in groups of 32 equals one lookup per key |
| LpmBatch.LaneStep | common/lpm.h:335-365 | one hop of one lane keeps every lane on its own key's walk |
| RangeTrie.Lpm.Compact | common/lpm.h:769-817 | changes no lookup and leaves no reachable page, below the root, whose slots all hold one value |
| RangeTrie.Lpm.Fold | common/lpm.h:793-808 | folding a finished uniform page keeps lookups and cleans the page |
| Compaction.FoldStep | common/lpm.h:793-808 | one fold keeps lookups, the finished pages stay clean, and the stacked pages stay those of the key |
| Compaction.FoldKeeps | common/lpm.h:793-808 | folding a uniform page into its parent's slot changes no lookup |
| Compaction.CanonicalIsUnique | common/lpm.h:769-817 | two canonical tries with equal lookups are structurally equal |
| LpmWalk.Walk | common/lpm.h:545-641 | the full walk lists all maximal runs of equal, valid lookups in ascending order |
| LpmWalk.Advance | common/lpm.h:609-623 | the cursor moves to the key after the block it leaves, and stops exactly after the last key |
| LpmWalk.Descend | common/lpm.h:593-607 | going down stays at the same key, with the upper bound tracked |
| LpmWalk.VisitMerged | common/lpm.h:571-592 | a value slot extends the pending run or closes it and starts its own |
| LpmWalk.WalkMeaning | common/lpm.h:545-641 | a key is covered by a listed range iff its lookup is valid, and then with that value |
| LpmWalk.WalkSpellsTrie | common/lpm.h:545-641 | the last writer over the listed ranges is the trie's lookup |
| LpmWalk.RoundTrip | common/lpm.h:545-641 | inserting the walked ranges into an empty trie reproduces every lookup, unless page memory is used up |
| LpmWalk.LpmIter.constructor | common/lpm.h:416-434 | an iterator over all keys, nothing handed out yet |
| LpmWalk.LpmIter.Next | common/lpm.h:441-534 | hands out one more range; when it returns none, what it has handed out is the whole run list |
| LpmWalk.IteratorIsWalk | common/lpm.h:441-641 | walk and exhausted iterator give the same list |
| RunList.RunListUnique | common/lpm.h:545-641 | the ascending list of maximal runs of a function is unique |
| RunList.AddBlock | common/lpm.h:571-592 | merging constant blocks in order keeps the list of maximal runs so far |
| RadixTree.Radix.Insert | common/radix.h:126-145 | the key maps to the value and no other key changes; it fails only when page memory is used up and then changes no stored value |
| RadixTree.Radix.Lookup | common/radix.h:148-162 | returns the stored value or the invalid word |
| RadixTree.Radix.NewPage | common/radix.h:41-90 | a fresh page behind an empty link changes no stored value |
| RadixTree.Radix.WalkRec | common/radix.h:173-207 | lists exactly the keys stored under a prefix, strictly ascending |
| RadixTree.Radix.Walk | common/radix.h:215-231 | lists exactly the stored keys with their values, strictly ascending |
| RangeIndexing.RangeIndex.Insert | common/range_index.h:39-101 | a range start maps to its latest value position; it fails only when value or page memory is used up and then leaves the index as it was |
| RangeIndexing.RangeIndex.InsertRange | common/range_index.h:149-172 | the range from one start to the key before the next gets the start's value |
| RangeIndexing.RangeIndex.CompileList | common/range_index.h:149-200 | after all starts every key holds the value of the greatest start at or below it, or what it held if that value is the invalid one |
| RangeIndexing.RangeIndex.BuildLpm | common/range_index.h:175-200 | every lookup of the built trie is the value of the greatest start at or below the key; keys below all starts or in a range without a valid value keep theirs |
| Sweep.Laminar | common/range_collector.h:235-260 | two prefix blocks that meet are nested, the longer prefix inside |
| Sweep.EmitKeeps | common/range_collector.h:168-188 | emitting under the top item's label keeps labels exact |
| Sweep.PushKeeps | common/range_collector.h:148-165 | opening a block, or reusing an item that ends where it does, keeps the stack and labels exact |
| Sweep.PopKeeps | common/range_collector.h:191-217 | closing a finished item keeps them exact |
| Sweep.StackBound | common/range_collector.h:274-287 | the stack never holds more than one item per prefix length plus the bottom |
| Sweep.SweptExact | common/range_collector.h:263-311 | when all keys are emitted, equal labels mean equal sets of covering prefixes and labels are 0 to count-1 |
| Collector.Ctx.Push | common/range_collector.h:148-165 | the context after a push holds the sweep state after the push |
| Collector.Ctx.Emit | common/range_collector.h:168-188 | the emitted range enters the index with the item's label, fresh if it had none |
| Collector.Ctx.EmitUntil | common/range_collector.h:191-217 | everything before a key is emitted and the open item reaches the key |
| Collector.Ctx.AddNetwork | common/range_collector.h:220-232 | a prefix later in walk order is opened; at most 8n+1 items are open |
| Collector.Ctx.Finish | common/range_collector.h:295-302 | all keys are emitted |
| PrefixCompiler.RangeCollector.AddMask | common/range_collector.h:51-73 | a new start key gets an empty mask of its own |
| PrefixCompiler.RangeCollector.Mark | common/range_collector.h:76-84 | marks exactly one prefix length |
| PrefixCompiler.RangeCollector.Add | common/range_collector.h:87-120 | adds exactly this prefix; it fails only for want of memory and then adds nothing |
| PrefixCompiler.RangeCollector.Iterate | common/range_collector.h:235-260 | visits the marked prefixes of a start key, shortest first |
| PrefixCompiler.RangeCollector.Collect | common/range_collector.h:263-311 | two keys get the same label iff the same added prefixes contain them; labels are exactly 0 to count-1; ranges partition the keys in ascending order |
| PrefixCompiler.NetsAreMarks | common/range_collector.h:235-260 | the visited blocks stand for exactly the added prefixes |
| PrefixCompiler.FloorAgrees | common/range_index.h:175-200 | the radix walk and the insertion order name the same range for a key |
| PrefixCompiler.Compile | common/range_index.h:149-200 | in the trie built from the collected prefixes two lookups are equal iff the same prefixes contain the keys; it fails only for want of memory or on more than 2^31 labels |
| FwOps.UpdateIsPromote | lib/fwstate/ops.h:44-109 | in-layer update and cross-layer promotion are one merge; updating an empty entry stores the value |
| FwOps.MergeSplit | lib/fwstate/ops.h:85-109 | merging a run of states in parts, one part in each layer, gives the merge of the run |
| FwMaps.FwMap.constructor | lib/fwstate/fwmap.h:741-960 | a new map holds nothing |
| FwMaps.FwMap.Probe | lib/fwstate/fwmap.h:1079-1136 | the search finds the key's slot, or proves it absent and names the first slot a new key may take |
| FwMaps.FwMap.UpdateCounters | lib/fwstate/fwmap.h:596-611 | per-worker totals and deadlines keep bounding all slots |
| FwMaps.FwMap.NewSlot | lib/fwstate/fwmap.h:551-591 | a new key gets a store index no other slot has; fails iff all indices are taken |
| FwMaps.FwMap.ExtendChain | lib/fwstate/fwmap.h:1139-1169 | a fresh extra bucket joins the end of one chain |
| FwMaps.FwMap.Entry | lib/fwstate/fwmap.h:1042-1202 | the key has exactly one slot, with the new deadline; a live entry of another key is never taken; `empty` iff the key was not live; fails iff the key has no slot, no slot of its chain has expired and neither a free slot nor a free index can be had, and then changes no lookup |
| FwMaps.FwMap.Put | lib/fwstate/fwmap.h:1205-1229 | the key holds the value merged with its live one; every other key looks the same from now on; fails iff the map is full for the key and then changes nothing |
| FwMaps.FwMap.Get | lib/fwstate/fwmap.h:965-1039 | hits iff the key has a live cell and returns that cell |
| FwMaps.FwMap.MaxDeadline | lib/fwstate/fwmap.h:447-455 | the maximum over workers; nothing is live from then on |
| FwMapRep.IxInjective | lib/fwstate/fwmap.h:1088-1135 | slots of chains are different store slots; no bucket is in two chains |
| FwMapRep.ClaimKeeps | lib/fwstate/fwmap.h:1100-1194 | taking over a slot keeps the store's invariant: one slot per key, no gap before an occupied slot, indices injective |
| FwMapRep.AppendKeeps | lib/fwstate/fwmap.h:1181-1194 | so does using the first unused slot |
| FwMapRep.ExtendKeeps | lib/fwstate/fwmap.h:1139-1169 | so does chaining a bucket |
| FwMapRep.ClaimFind | lib/fwstate/fwmap.h:1100-1194 | a takeover changes the new and the old key only |
| FwMapRep.AppendFind | lib/fwstate/fwmap.h:1181-1194 | a new slot changes the new key only |
| FwLayers.StepVisible | lib/fwstate/fwtable.h:250-315 | an operation changes what is visible only for the inserted key, and there to the merge with the visible value, whatever layer had it; new layers and unlinking change nothing |
| FwLayers.StepAgrees | lib/fwstate/fwtable.h:37-315 | each operation keeps layers and plain map in agreement when the insert covers older copies |
| FwLayers.AgreesIffCovered | lib/fwstate/fwtable.h:250-315 | and only then |
| FwLayers.LaterDeadlineCovers | lib/fwstate/fwtable.h:250-315 | a deadline not before the visible one is enough |
| FwLayers.OlderCopyReturns | lib/fwstate/fwtable.h:250-315 | otherwise an older copy becomes visible again |
| FwLayers.LayersRefinePlainMap | lib/fwstate/fwtable.h:37-315 | over every run whose inserts cover older copies the layered table shows what one map with deadlines shows |
| FwLayers.LaterDeadlinesRefine | lib/fwstate/fwtable.h:37-315 | so it does over every run in which no insert ends before the deadline a lookup shows for its key; nothing is asked of older layers |
| FwLayers.VisibleTotalsBurst | lib/fwstate/ops.h:44-109 | in every such run what a lookup of the table shows totals all inserts since the key was last not live: packet counters modulo 2^64, flags, creation time |
| FwLayers.DeadTail | lib/fwstate/fwtable.h:81-104 | a dead oldest layer shows nothing |
| FwTables.FwTable.InsertLayer | lib/fwstate/fwtable.h:37-51 | an empty layer in front, the rest unchanged; failure changes nothing |
| FwTables.LookupFrom | lib/fwstate/fwtable.h:118-188 | the first live cell from a layer on, and whether it came from a deeper layer |
| FwTables.FwTable.Lookup | lib/fwstate/fwtable.h:197-240 | the visible cell with its deadline; from the active layer iff that one is live there |
| FwTables.NewValue | lib/fwstate/fwtable.h:277-314 | the stored value is the merge with what was visible |
| FwTables.FwTable.Insert | lib/fwstate/fwtable.h:250-315 | the insert step of the layered table; false iff there is no layer or the active one is full for the key, and then nothing visible changes |
| FwTables.FwTable.UnlinkStale | lib/fwstate/fwtable.h:81-104 | the oldest layer moves to the stale list iff it is not the only one and its deadlines have passed |
| BlockRep.PoolIndexIsClass | common/memory_block.h:98-114 | the bit trick gives the smallest size class that holds the request |
| BlockRep.LargeEnough | common/memory_block.h:98-114 | a class holds a request iff it is not below the request's class |
| BlockRep.SplitKeeps | common/memory_block.h:137-164 | halving a block keeps all blocks disjoint, aligned to min(size, 2^21) and listed once |
| BlockRep.SplitCovers | common/memory_block.h:137-164 | and covers the same bytes |
| BlockRep.HalfAligned | common/memory_block.h:137-164 | both halves of an aligned block are aligned |
| BlockRep.FreePlusLive | common/memory_block.h:283-292 | free bytes plus handed-out bytes are all bytes |
| Allocator.BlockAllocator.constructor | common/memory_block.h:65-80 | no blocks, no bytes |
| Allocator.BlockAllocator.PoolGet | common/memory_block.h:117-134 | the head of a free list is handed out; the mask bit stays iff the list has more |
| Allocator.BlockAllocator.PoolBorrow | common/memory_block.h:137-164 | a block of the next class becomes two free halves |
| Allocator.BlockAllocator.Balloc | common/memory_block.h:167-202 | succeeds iff some free block is large enough; the block is aligned, within donated memory, apart from everything handed out, and the only change |
| Allocator.BlockAllocator.Release | common/memory_block.h:205-222 | the block joins its class's free list |
| Allocator.BlockAllocator.Bfree | common/memory_block.h:225-238 | undoes the allocation: only this block stops being handed out |
| Allocator.BlockAllocator.ArenaBlock | common/memory_block.h:251-271 | the next block is a class size, fits, and is aligned to min(size, 2^21) |
| Allocator.BlockAllocator.PutArena | common/memory_block.h:241-280 | the 8-aligned interior of the arena is tiled exactly by free blocks; nothing handed out changes |
| Allocator.BlockAllocator.FreeSize | common/memory_block.h:283-292 | the bytes in free lists; with the bytes handed out they are all bytes |
| RemapRep.TouchKeeps | common/remap.h:215-245 | touching any cell keeps: equal cells iff touched in the same generations, and counts are numbers of cells |
| RemapRep.TouchAgain | common/remap.h:215-245 | touching a cell again in a generation changes nothing |
| RemapRep.TargetHolders | common/remap.h:215-245 | the cells that hold the returned key are those touched along with this one |
| RemapRep.NewGenKeeps | common/remap.h:131-133 | a new generation keeps the invariant |
| Partition.Init | common/remap.h:61-97 | one key that counts all cells; no table iff there is no memory for the first chunk |
| Partition.RemapTable.NewKey | common/remap.h:148-212 | a fresh key at the end, or failure when a chunk is needed and none is left |
| Partition.RemapTable.Touch | common/remap.h:215-245 | moves one reference to the key's value of this generation; fails iff a new key needs a chunk and none is left, and then changes nothing |
| Partition.RemapTable.Compact | common/remap.h:255-266 | referenced keys are renumbered by rank, the others become invalid |
| Partition.ValueTable.TouchCell | common/remap.h:215-245 | a cell touched through the table adds the generation to its history and keeps tables fitting |
| Partition.ValueTable.EqualIffSameGenerations | common/remap.h:215-245 | cells are equal iff touched in exactly the same generations; each key's count is the number of cells holding it |
| Partition.ValueTable.Compact | common/value.h:156-167 | every cell becomes its key's compacted value |
| Partition.CompactionIsDense | common/remap.h:255-275 | compaction keeps which cells are equal and leaves exactly the numbers from 0 up |
| Partition.StartFits | common/remap.h:61-97 | a fresh remap table fits an all-zero value table |
| Rcu.PackRoundTrip | common/rcu.h:222-231 | the packed state reads back as active in its epoch only; idle is active in none |
| Rcu.InvStep | common/rcu.h:222-454 | every step of any reader or the writer keeps the grace-period invariant |
| Rcu.ReclaimIsSafe | common/rcu.h:377-454 | in every run, once an update has returned no worker ever again holds a value it replaced, however stale the epoch it sampled |
| Rcu.RestMeansCurrent | common/rcu.h:451-454 | between updates every reader holds the value last published |
| Rcu.WaitIsBounded | common/rcu.h:317-342 | while the writer waits no worker joins those it waits for |
| Rcu.ScanEnds | common/rcu.h:317-342 | with none of them left a scan goes through |
| Rcu.RestartHasBlocker | common/rcu.h:317-342 | a scan starts over only on a worker active in the epoch waited for |
| Rcu.OneRoundIsNotEnough | common/rcu.h:377-387 | after one round a reader may still hold a replaced value |
| RwLock.InvStep | common/rwlock.h:59-160 | every step keeps: counter = 4 per reader in or backing out + 2 for the writer + wait bit; a writer is alone; a wait bit has a writer that seeks the lock |
| RwLock.NoWrap | common/rwlock.h:59-160 | with fewer than 2^29 threads the 32-bit counter never wraps |
| RwLock.Exclusion | common/rwlock.h:110-147 | in every run a writer excludes all readers and writers |
| RwLock.ReadAttempt | common/rwlock.h:59-88 | a read attempt succeeds at once iff no writer holds the lock and no wait bit is set; without writers it always does |
| RwLock.AllOutIsZero | common/rwlock.h:97-160 | when everyone is out the counter is zero |
| DataPipe.ClipExact | common/data_pipe.h:141-170 | the branchless arithmetic on wrapping words gives the slots up to the end of the ring |
| DataPipe.LoadedWindows | common/data_pipe.h:141-229 | every window is in bounds, at its own position and within what its side may use |
| DataPipe.SafeStep | common/data_pipe.h:141-229 | every load, slot access and store of either side keeps positions, windows and what is handed back right, whatever the consumer does |
| DataPipe.InvStep | common/data_pipe.h:141-229 | and what the consumer is shown, if it leaves slots it does not report as it found them |
| DataPipe.IntactIffReports | common/data_pipe.h:141-229 | exactly if |
| DataPipe.UnreportedShown | common/data_pipe.h:141-229 | what it leaves in a slot it does not report it is shown and handles within its next call |
| DataPipe.UnreportedBreaks | common/data_pipe.h:141-229 | so if that is not the item pushed, the items shown are then no prefix of the items pushed |
| DataPipe.UnreportedHappens | common/data_pipe.h:141-229 | a run of seven steps, on a ring of any size, after which the consumer is shown what was never pushed |
| DataPipe.RingSafety | common/data_pipe.h:141-229 | in every interleaving, whatever the consumer does, f <= r <= w <= f + 2^size and items returned are a prefix of items left |
| DataPipe.ShownInOrder | common/data_pipe.h:141-229 | in every interleaving in which the consumer leaves alone what it does not report, items shown are a prefix of items pushed |
| DataPipe.WindowsApart | common/data_pipe.h:141-229 | in every interleaving both windows are in bounds and producer and consumer never have the same slot in hand |
| DataPipe.NothingWithheld | common/data_pipe.h:141-229 | a call finds no slot only when the ring is full, or empty for its purpose |
| Leases.RetainKeeps | controlplane/gateway/registry.go:271-278 | recording an entry adds one to the count of a backend that is not bound to be closed |
| Leases.ReleaseKeeps | controlplane/gateway/registry.go:286-301 | dropping an entry closes the backend exactly with its last reference |
| Leases.DecrementKeeps | controlplane/gateway/registry.go:198-201 | dropping a lease does too |
| Leases.UnlistKeeps | controlplane/gateway/registry.go:203-207 | the clean-up under the lock removes only a dead count |
| Leases.InvStep | controlplane/gateway/registry.go:157-396 | every step without a revival keeps counts equal to entries plus leases and fates exact |
| Leases.GivenUpIffNamedAndUnused | controlplane/gateway/registry.go:157-396 | a backend is neither closed nor bound to be iff it was never registered, or an entry or unreleased lease refers to it; it is never given up twice |
| Leases.LeaseSafety | controlplane/gateway/registry.go:157-396 | in every run whose registrations use backends that are new or still referred to: a backend in use is not closed and nobody is about to close it, it is listed with a positive count that is entries plus leases, every entry resolves, no backend is closed twice |
| Leases.ClosedOnceUnused | controlplane/gateway/registry.go:157-396 | in every such run a registered backend that is out of use is closed exactly once, now or by a thread under way |
| Leases.SafeIffMayRegister | controlplane/gateway/registry.go:157-396 | the condition is exact: the first registration of a backend that was registered before and is no longer referred to breaks the promise, unless it renews an entry and the registry still tracks the backend |
| Leases.RevivalCloses | controlplane/gateway/registry.go:198-265 | such a registration that records the backend leads to a closed backend that is still registered |
| Leases.RenewalClosesTwice | controlplane/gateway/registry.go:243-265 | one that renews an entry leads to a second close of the backend |
| Leases.RevivalHappens | controlplane/gateway/registry.go:198-265 | a run of the first kind exists |
| Leases.SecondCloseHappens | controlplane/gateway/registry.go:243-301 | and one of the second |
| CounterRegistry.LogUpExact | common/numutils.h:8-15 | the smallest power of two that holds a size; at most pool 6 for sizes up to 64 |
| CounterRegistry.Registry.Register | lib/counters/counters.c:182-226 | a name has one counter; redeclaring makes it current and fails on another size; bad sizes and names are refused; nothing else fails while there is memory |
| CounterRegistry.Registry.Adopt | lib/counters/counters.c:240-279 | a current old counter is carried over with name, size and offset, if it has one, or the link fails |
| CounterRegistry.Registry.Place | lib/counters/counters.c:281-291 | a counter without a slot gets the next of its pool |
| CounterRegistry.Registry.Link | lib/counters/counters.c:229-294 | on success every counter has a slot of its own; current old counters are all there and keep the slots they had; the others get the next slots never given out before, without a gap; it fails only for want of memory or on a name declared again with another size |
| CounterPages.SharedKeeps | lib/counters/counters.c:390-404 | listing a block once more keeps reference counts exact |
| CounterPages.ExtendedKeeps | lib/counters/counters.c:406-427 | so does adding a block |
| CounterPages.LetKeeps | lib/counters/counters.c:475-500 | so does letting one go |
| CounterPages.ReferencedIffListed | lib/counters/counters.c:475-500 | a block is referenced iff some storage lists it |
| CounterStore.CellOfSlot | lib/counters/counters.c:440-460 | a slot never crosses a page; block and offset of each word |
| CounterStore.CountersApart | lib/counters/counters.c:440-460 | counters of one storage share no word |
| CounterStore.EnoughBlocks | lib/counters/counters.c:354-359 | the blocks of a pool hold every slot given out |
| CounterStore.AcrossGenerations | lib/counters/counters.c:229-472 | a counter carried over resolves to the cell it had; if the old storage is clean, every word of any other counter is zero |
| CounterStore.LineStaysClean | lib/counters/counters.c:325-542 | over every run of writes, spawns on the newest storage, spawns taken back unused, sharing and freeing, from no storages on: the newest storage is clean and no registry in use has more slots than its own |
| CounterStore.NewCountersStartAtZero | lib/counters/counters.c:229-472 | in every such run each linked and spawned generation finds its carried-over counters in the cells they had and all words of its new counters zero |
| CounterStore.SameCell | lib/counters/counters.c:325-472 | a storage built on another resolves their common words to the same cells |
| CounterStore.SpawnCleanIff | lib/counters/counters.c:325-427 | a storage spawned on any old one is zero past some slot counts iff the old one is |
| CounterStore.WriteCleanIff | lib/counters/counters.c:325-472 | which writes soil a clean storage: exactly those of a nonzero value through a storage on the same block into a slot its own registry has not given out |
| CounterStore.CleanUntilSoiled | lib/counters/counters.c:325-542 | over every run of spawns, frees and writes a clean storage stays clean exactly until such a write |
| CounterStore.OlderNeverSoil | lib/counters/counters.c:325-472 | a counter of a registry that has no more slots than another never soils the storage of the other |
| CounterStore.SiblingStartsSoiled | lib/counters/counters.c:325-427 | of two storages spawned on one old storage the second starts with what the first has counted in a slot both were given, iff the old storage had the block of that slot; otherwise with zero |
| CounterRegistry.SiblingsShareSlot | lib/counters/counters.c:281-291 | two registries linked from one old registry, each with a new counter in a pool, both give out the first slot the old one had not |
| CounterStore.SiblingHappens | lib/counters/counters.c:325-427 | a run of three spawns and a write in which that is seen |
| CounterStore.Storages.Spawn | lib/counters/counters.c:325-472 | on any live storage or none: shares the storage of the same registry; otherwise builds a new one that sees the old words in place and zeros in added blocks; fails only for want of memory and leaves nothing referenced |
| CounterStore.Storages.ReleaseBlocks | lib/counters/counters.c:475-510 | every block of a storage loses one reference and no page changes |
| CounterStore.Storages.Free | lib/counters/counters.c:513-542 | the last reference frees the storage and nothing else |
| CounterStore.Storages.Write | lib/counters/counters.c:440-460 | the word found through the byte offset is the counter's, and the only one that changes |

## Left out

- Weak memory: loads and stores of the concurrent protocols take effect in program order; acquire and release
  reordering is not modelled. Stale loads are modelled in `DataPipe` only.
- Memory exhaustion is modelled by budgets (`chunksLeft`, `room`) that decide when an allocation fails; freeing pages,
  stale layers, registries and tables back to their memory context is not modelled.
- Relative pointers (`ADDR_OF`), cache-line layout, ASAN red zones and poisoning, and generation or `uint32` key counters
  running out are not modelled.
- Free lists of the allocator and page lists are sequences instead of links threaded through the memory they manage;
  the not-empty mask and the prefix masks are sequences of booleans; pool statistics `allocate` and `borrow` are dropped.
- Chunked page, key and value stores are flat sequences; an index replaces the chunk number and the place in it.
- Hash functions and seeds of the firewall map: a function from keys to buckets and nonzero signatures is a parameter.
- Bucket locks of the firewall map and table: operations on a map are sequential here; the lock itself is `RwLock`.
- `fwtable_free_stale`, `fwmap_clear`, statistics other than totals and deadlines, and the cursors over a table.
- FwMaps.FwMap.Entry: deadlines are unbounded, so an overflow of `now + ttl` is not modelled, and `now + ttl > 0`
  is required because a zero deadline marks an unused slot.
- FwMaps.FwMap.constructor: takes the bucket counts as they are after rounding to powers of two; the rounding, the refused
  sizes and a failed allocation of `fwmap_new` are not modelled, except that `InsertLayer` may fail.
- RadixTree.Radix.Walk: lists the keys, and callers process the list afterwards; a callback that stops the walk early
  ends the processing of the list instead.
- RadixTree.Radix.WalkRec: likewise.
- PrefixCompiler.RangeCollector.Add: takes prefixes whose bits after the prefix are zero. One with such bits set is swept from
  its own start key instead of the start of its block, and the ranges of several may cross.
- LpmWalk.Walk: goes over all keys; for a later start the rule for the first digit of a child page is exact only on the
  path of the start key.
- LpmWalk.Advance: its upper bound is the last key, for the same reason.
- LpmWalk.Descend: its lower bound is the first key, for the same reason.
- LpmWalk.LpmIter.constructor: makes an iterator over all keys, for the same reason.
- `lpm_collect_values`, `lpm_remap` and the walk of the wide trie.
- Wide tries with an odd number of key bytes, which the code refuses.
- `DataPipe`: the producer's free callback only looks. Ring sizes above 2^30 slots, where the code's 32-bit shift is undefined, are excluded.
- `RwLock`: fairness and progress of spinning threads.
- `Leases`: `BackendRegistry.Close`, which closes every backend regardless of leases. An eviction pass is a sequence of
  single evictions, which allows more interleavings than the lock does.
- CounterRegistry.Registry.Link: after a failed link only the layout of the slots given out so far is promised.
- Filter compilation above the prefix compiler, the control plane other than the registry, and packet processing.
