# Verification of the ESL proxy dependency engine

A Dafny model of the TensorMap dependency engine and of the pieces built around it, with machine-checked proofs.
`dafny verify dfyconfig.toml` checks everything.

An orchestrator submits tasks in id order, each declaring IN, OUT and INOUT tensor views. A map of live output
records finds the earlier producers a consumer must wait for. The map lives in a fixed pool whose entries are
threaded on two doubly linked chains; old records are retired behind a moving watermark. Lists of predecessors go
into a shared ring, optionally without edges that ancestor bitsets show to be redundant, and the cutter reads them
there. A second route describes all tasks in parallel and lets every detect thread replay the others' tasks. Early
dispatch parks tasks behind a doorbell gate.

## What the modules are

| file | subject |
|---|---|
| Words, Sequences, Radix, BitWords | C integer widths, small notions on sequences, mixed-radix offsets, bitset rows of 64-bit words |
| Tensors, Overlap, OverlapLoop, Answers | tensor layouts and views, the overlap classifier as functions and as the loops of the code, and what it must answer |
| MapLogs, Chains, TensorMap | the map seen as a log of records, chains and pool as sequences, and the class that updates both in place |
| Submits, Meaning, Deps, Graphs, Runs, RunTheorems, Tiles | one submission and what it means in elements, the sequential client class, reachability, whole runs, and runs on tiles of matrices |
| Predecessors, Dedup | the predecessor ring with ancestor bitsets, and what dropping edges preserves |
| Stored, StoredEdges | the ring between submissions and the cutter as a step machine, and the edges the cutter reads |
| Writers, Racing, Publish | several threads storing into one ring, slot by slot, with dedup bit by bit, and the graph a reader then finds |
| Detect, Routes, Describe | replicated detection, parallel description, and their agreement with direct submission |
| Gate | the doorbell protocol as a step machine, and the drain on its own |
| Queue, Synthetic | the locked ring queue, the synthetic graph generator |

The code that updates state in place is modelled by classes and loops. Each method is tied by its contract to a
function on values (`TensorMap.Lookup` to `Visit`, `TmDeps.Submit` to `Submitted`, `PrepareHash` to `Prepared`), and
the properties are lemmas about those functions and about runs of them.

## Main results

- Read-after-write: over every run of submissions in id order, if a consumer reads an element that an earlier, not
  yet retired producer wrote, the edges lead to that producer, although INOUT lookups delete the records they cover
  (`Runs.ReadAfterWrite`, on view fields alone `RunTheorems.OrderedOnGoodViews`, with dedup
  `RunTheorems.DedupKeepsOrder`).
- These are the edges the cutter reads: in every interleaving of submissions and commits it finds for each task
  exactly the list of that task's submission, however often the ring has wrapped (`StoredRuns.ReadExactly`), so the
  lists it has read lead to the producer (`StoredEdges.ReadAfterWriteAtCutter`, `StoredEdges.DedupOrderAtCutter`).
- The lists the detect threads hand to `add_predecessors` have the same ordering (`Routes.DetectedReadAfterWrite`).
  What a reader finds in the ring has it too when no call was interrupted (`Publishing.PublishedReadAfterWrite`), for
  instance with one detect thread (`Publishing.SerialReadAfterWrite`); the next section says what happens otherwise.
- The same holds with dedup (`Publishing.DedupPublishedReadAfterWrite`), although calls come out of id order and read
  bitsets other calls are still filling: every set bit is true, and that is enough (`Racing.RaceKeepsReach`).
- The pointer structure refines a plain log: `TensorMaps.TensorMap.Lookup` with `MapLogs.VisitIsFold`.
- The classifier tells the truth about element sets in any number of dimensions, in both directions, whenever types,
  strides and storage let it (`OverlapAnswers.AnswerExact`), and the 2-D path equals the general one. So a submission
  collects exactly the live producers of the elements it reads (`Meanings.SubmitMeaning`).
- On tiles cut with `view_at` from fresh matrices the order is decided by offsets and sizes alone
  (`Tiles.TilesOrderedExact`, `Tiles.TileReadAfterWrite`), and there is no needless edge (`Tiles.TileEdges`).
- Retirement is exact across slot wrap, and no retired record outlives 64 retirements (`Runs.RetirementExact`).
- Replicated detection is sequential detection (`Detects.OrchestratorDetect`, `Detects.PreparedIsDetected`), and both
  routes agree (`Routes.RoutesAgree`, `Describes.DescribedAgrees`).
- Dropping edges preserves reachability for every order of calls (`Dedup.DedupKeepsReach`); the ancestor bitsets are
  exact for calls in id order, and the orders for which they are exact are known (`Dedup.OrderExactly`).
- The gate loses no wakeup, opens only after a ring, conserves rings, opens every rung gate within one drain, and the
  executor always comes to that drain (`Gates.RungGateOpens`).

## What is not true of the code, with the exact condition

- "No overlap" compares element ranges before element sizes: it is right about bytes for all well-formed pairs if and
  only if the sizes are equal (`OverlapLoops.NothingNeedsEqualSizes`).
- `view_at` caches an extent without the final `+ 1` (tensor.h:126-127), unlike `tensor_from_base_layout`
  (tensor.h:97-101). The range test is then wrong exactly when a short range stops at the other view's first element
  (`Overlaps.RangeApartExact`), and a read after a write of that element is ordered if and only if this does not
  happen or the read view's version is newer (`RunTheorems.WriteThenReadExact`, over all runs on a set of views
  `RunTheorems.AlwaysOrderedExact`, on tiles `Tiles.TilesOrderedExact`, with a concrete run in
  `RunTheorems.CornerReadUnordered`). It also makes a one-element tile of a matrix with several columns miss itself.
- "Covered" compares 32-bit row numbers: it means containment if and only if both views start in the same block of
  2^32 rows (`Overlaps.CoveredExact`); `Overlaps.CoveredAcrossBlocks` is an input where it does not. That takes an
  extent above the hull, which no function of tensor.h produces from values that do not wrap: as long as no extent
  exceeds its hull the range test rules the bad case out (`Overlaps.CoveredIsContained`).
- The extent of `tensor_from_base_layout` is the element count if and only if the outermost 32-bit term does not wrap
  (`Tensors.LayoutExtentExact`); a view of a view is one view if and only if the 32-bit shifts add without carry
  (`Tensors.ViewOfView`).
- `add_predecessors` extends a list by what it keeps if and only if `start` is the list's length and, unless nothing
  is kept, no other list was written since (`Predecessors.AddedExtends`). A second call with start 0, as in
  esl_proxy/cases/paged_attention_unroll_manual_scope.h:110-113, hides its targets
  (`Predecessors.RestartLosesTargets`); a call for another task in between shows that task's target instead
  (`Predecessors.InterruptedLosesTargets`).
- The detect threads call `add_predecessors` concurrently on one ring
  (esl_proxy/src/orchestrator/orchestrator.c:201-206), and each call takes its slots one by one. A published list
  consists of the slots of its own call if and only if no other call stored anything between this call's load of the
  tail and its last store (`Writers.ListOwnExactly`).
  `Writers.TwoWritersMix` is an interleaving of two calls after which a reader misses a target.
- The ancestor bitsets (ring_buf.h:50-51) are the sets of all ancestors, for all target lists, if and only if no call
  comes after a call for a higher task, task 0 aside (`Dedup.OrderExactly`); the detect threads and those of
  esl_proxy/cases/qwen3_14b_decoder_desc_ap.h make such calls. Then bits are missing and redundant edges are stored
  (`Dedup.LateCallMissed`, `Dedup.OrderDropsExactly`), but no ordering is lost.
- The describe macro does not test its window again after advancing it, so a lone thread skips the first id of every
  further block: the description is a partition if and only if there are two threads or one block
  (`Describes.PartitionExact`, `Describes.CreatedTotal`).
- Batch queue operations leave a usable queue if and only if the moved index stays below the ring size
  (`Queues.RingQueue.BatchEnqueue`, `Queues.RingQueue.BatchDequeue`).
- Synthetic subgraphs cover all ids if and only if the thread count divides the layer width
  (`Synthetics.SubgraphsPartition`).

Where code and documentation differ the model follows the code: the match callback is not called for "no overlap"
(tensormap_core.h:580), although doc/tensormap_hash_and_deps_analysis.md:518 says that it is.

## Hypotheses the results carry

- No limit is hit (`Runs.NoLimitHit`): at most 64 producers per consumer and room in the pool. The code drops the
  rest silently; the functions model the dropping, the ordering theorem assumes it away. A seventeenth pending tensor
  is dropped by `Push`, so runs are stated on pending lists as they are after `Push`.
- The results on what the cutter reads end at the list it reads. It then waits for the first 32 uncompleted
  predecessors only (CON_NODE_CNT, esl_proxy/src/algorithm/cutter.c:153-179) and drops the rest silently, so the
  order carries on to execution while a list has at most 32 of them.
- Well-timed runs (`Runs.WellTimed`): the watermark only grows, never passes the id being submitted, and new_task has
  held the id back until it is less than a ring ahead; the window is at least the ring.
- Bucket count, window and ring are powers of two, stated as divisors of 2^64 or 2^32; masking is the remainder.
- Ids stay below 2^31, where the signed casts are the identity.
- A task completes only after the cutter has committed it, so the watermark a submission waits for is not past the
  commit counter (`StoredRuns.Submits`). That the ring slot of the next task is empty is then proved
  (`StoredRuns.NextSlotEmpty`), not assumed.
- The slot buffer of 65536 entries has room for everything kept since the start, because its tail is never reset;
  `StoredRuns.RoomExactly` gives the number of entries. Past it the code writes outside the array.
- The interleavings quantified over exist (`StoredRuns.CanCommit`, `Publishing.CanPublish`,
  `Publishing.DedupCanPublish`).
- With dedup ids stay below the ring size, where they index the bitset rows. In `Racing` the loads and stores of
  bitset words are sequentially consistent, and each task gets one call.
- `Publishing` lets no task complete while the detect threads run; `Publishing.Publishes` says what was called.
- The describe buffers start empty and at most one ring of tasks is described: their counters are never reset.
- A zero stride inside a layout would divide by zero in the divisibility loop (tensormap_core.h:313); the model
  answers "other" there. Stride cells past `ndims` are never read.
- For the gate: one executor, one notification per staged generation (the claim flag is an environment step), and
  sequentially consistent steps.

## Model

| member | source | states |
|---|---|---|
| `Tensors.LayoutLoop` | esl_proxy/include/algorithm/tensor.h:94-106 | The descending loop yields the suffix products in 32 bits as strides, sets contiguity exactly when no stride was cut, and sums the extent from 1 with 32-bit terms |
| `Tensors.TensorFromBaseLayout` | esl_proxy/include/algorithm/tensor.h:75-108 | Address, version, shape, strides, contiguity flag, buffer size and extent of a fresh layout, with every wrap of the C widths |
| `Tensors.LayoutStridesExact` | esl_proxy/include/algorithm/tensor.h:94-105 | While the inner element count fits 32 bits the strides are exactly the suffix products, and they form a row-major chain |
| `Tensors.LayoutExtentExact` | esl_proxy/include/algorithm/tensor.h:97-101 | The extent is the element count if and only if the outermost 32-bit term `(shape0 - 1) * stride0` does not wrap |
| `Tensors.LayoutFlagExact` | esl_proxy/include/algorithm/tensor.h:98-105 | While nothing wraps in 64 bits a fresh layout is flagged contiguous if and only if its inner element count fits 32 bits |
| `Tensors.TensorNumel` | esl_proxy/include/algorithm/tensor.h:66-73 | The loop computes the product of the shapes modulo 2^64 |
| `Tensors.ViewAtAddresses` | esl_proxy/include/algorithm/tensor.h:117-129 | Without wrap a view addresses exactly the elements of its parent buffer at its indices shifted by the offsets, and address, version, element size and buffer size are those of the parent |
| `Tensors.ViewOfView` | esl_proxy/include/algorithm/tensor.h:117-129 | A view of a view equals the view at the summed offsets if and only if the two 32-bit shifts add without a carry |
| `Tensors.DenseStridesLoop` | esl_proxy/include/algorithm/tensormap_core.h:546-550 | Strides rebuilt from the shapes are the dense ones; cells past `ndims` are untouched |
| `Tensors.CopyTensorToEntry` | esl_proxy/include/algorithm/tensormap_core.h:526-556 | The 2-D branch, the general branch and the plain copy all produce the one entry that specification function EntryOf names |
| `Tensors.EntryFromShape` | esl_proxy/include/algorithm/tensormap_core.h:526-556 | What is stored of a contiguous tensor at offset 0 comes from its shape alone: its stride and extent fields are not looked at |
| `Tensors.Dense2d` | esl_proxy/include/algorithm/tensormap_core.h:536-539 | For two dimensions the shortcut values are the general ones, with no wrap |
| `Radix.DigitsOfDot` | esl_proxy/include/algorithm/tensormap_core.h:330-343 | Every index tuple whose inner digits stay below the stride ratios is recovered from its element offset |
| `Radix.DotOfDigits` | esl_proxy/include/algorithm/tensormap_core.h:330-343 | The greedy decomposition loses nothing: offset = digits times strides plus remainder, and a row-major chain leaves no remainder |
| `Overlaps.FastPathIsGeneral` | esl_proxy/include/algorithm/tensormap_core.h:193-280 | On every pair of 2-D views, whatever their fields hold, the fast path returns what the general path returns |
| `Overlaps.AddressesIsBox` | esl_proxy/include/algorithm/tensormap_core.h:330-350 | In a row-major view an element is addressed if and only if its mixed-radix digits lie in the box of the view |
| `Overlaps.BoxesApart` | esl_proxy/include/algorithm/tensormap_core.h:353-360 | Two boxes have a separating dimension if and only if the views share no element |
| `Overlaps.BoxesNested` | esl_proxy/include/algorithm/tensormap_core.h:361-365 | Every dimension is nested if and only if the input contains all elements of the entry |
| `Overlaps.CastKeepsVerdict` | esl_proxy/include/algorithm/tensormap_core.h:335-339 | Cutting the outermost offset to 32 bits changes no comparison inside one block of 2^32 rows |
| `Overlaps.BoxVerdictExact` | esl_proxy/include/algorithm/tensormap_core.h:345-365 | Past the checks the per-dimension verdict is exact in both directions within a row block; across blocks the views are disjoint |
| `Overlaps.RangeApartExact` | esl_proxy/include/algorithm/tensormap_core.h:292-298 | A "no overlap" of the range test is wrong if and only if an extent that is one short stops at the first element of the other view, and then at most one element is shared |
| `Overlaps.NothingExact` | esl_proxy/include/algorithm/tensormap_core.h:188-366 | "No overlap" from the whole classifier means disjoint views if and only if that one-short case does not apply |
| `Overlaps.CoveredExact` | esl_proxy/include/algorithm/tensormap_core.h:188-366 | "Covered" means containment if and only if both views start in the same block of 2^32 rows |
| `Overlaps.CoveredAcrossBlocks` | esl_proxy/include/algorithm/tensormap_core.h:335-365 | Two concrete views in different row blocks, with an extent above the hull, that are classified "covered" and share no element |
| `Overlaps.BlocksApart` | esl_proxy/include/algorithm/tensormap_core.h:292-298 | Views whose extents do not exceed their hulls never pass the range test across row blocks |
| `Overlaps.CoveredIsContained` | esl_proxy/include/algorithm/tensormap_core.h:188-366 | As long as no extent exceeds its hull "covered" always means containment |
| `Overlaps.HullExtentsAreSound` | esl_proxy/include/algorithm/tensormap_core.h:188-366 | With hull extents both answers the dependency engine relies on are right |
| `OverlapAnswers.AnswerExact` | esl_proxy/include/algorithm/tensormap_core.h:188-366 | The whole answer in terms of elements and storage: "other" to a newer reader; else "nothing" to separate ranges; else "other" unless types and row-major strides agree, no view runs over a stride and both lie in a storage of whole rows; and then "nothing" if and only if disjoint, "covered" if and only if contained |
| `OverlapAnswers.HullAnswers` | esl_proxy/include/algorithm/tensormap_core.h:188-366 | For alike views with hull extents and a reader that is not newer, "nothing" if and only if disjoint and "covered" if and only if contained |
| `OverlapAnswers.AlikeAnswers` | esl_proxy/include/algorithm/tensormap_core.h:188-366 | With hull or one-short extents the same, except that a one-short extent that stops at the other view turns the answer into "nothing" |
| `OverlapAnswers.CoveredBytes` | esl_proxy/include/algorithm/tensormap_core.h:188-366 | "Covered" means that all bytes of the entry are bytes of the input |
| `OverlapAnswers.LayoutAddresses` | esl_proxy/include/algorithm/tensor.h:94-106 | A fresh layout addresses exactly the elements from 0 to its element count |
| `OverlapLoops.LayoutsAgree` | esl_proxy/include/algorithm/tensormap_core.h:300-327 | The chain of layout checks accepts exactly equal, positive, row-major strides that divide the storage |
| `OverlapLoops.RefShapesLoop` | esl_proxy/include/algorithm/tensormap_core.h:318-328 | Reference shapes are the stride ratios, the outermost cut to 32 bits |
| `OverlapLoops.ExtentOf` | esl_proxy/include/algorithm/tensormap_core.h:282-290 | The extent used by the range test: element count when contiguous, else the cached value |
| `OverlapLoops.SplitOffset` | esl_proxy/include/algorithm/tensormap_core.h:330-340 | The divide-and-remainder loop computes the digits of the start offset and the remainder |
| `OverlapLoops.BoundsLoop` | esl_proxy/include/algorithm/tensormap_core.h:345-350 | Together with the earlier checks the bounds loop accepts exactly the comparable pairs |
| `OverlapLoops.CompareLoop` | esl_proxy/include/algorithm/tensormap_core.h:352-365 | The early-exit comparison loop returns the box verdict |
| `OverlapLoops.OverlapNdLoop` | esl_proxy/include/algorithm/tensormap_core.h:282-366 | The whole n-dimensional path, loop by loop, computes the specified classification |
| `OverlapLoops.CheckOverlapC` | esl_proxy/include/algorithm/tensormap_core.h:188-366 | Version test, 2-D path and n-D path together compute the specified classification |
| `OverlapLoops.NothingNeedsEqualSizes` | esl_proxy/include/algorithm/tensormap_core.h:208-216 | "No overlap" is right about bytes for all hull-extent pairs if and only if the element sizes are equal, because the range test runs before the dtype test |
| `OverlapLoops.ViewAtFlagHonest` | esl_proxy/include/algorithm/tensor.h:125 | view_at sets the contiguity flag if and only if the strides it copies are the dense ones of its shape |
| `OverlapLoops.LayoutFlagHonest` | esl_proxy/include/algorithm/tensor.h:98-105 | tensor_from_base_layout does too |
| `OverlapLoops.EntryKeepsOverlap` | esl_proxy/include/algorithm/tensormap_core.h:526-556 | Overlap against the stored entry equals overlap against the original tensor for every honestly flagged view |
| `OverlapLoops.ViewAtExtent` | esl_proxy/include/algorithm/tensor.h:125-127 | A view that spans whole dense rows (inner stride 1, outer stride its own width) has its hull as extent, every other view one less |
| `OverlapLoops.LayoutExtentIsHull` | esl_proxy/include/algorithm/tensor.h:94-106 | The extent of a fresh contiguous layout is its hull and its element count |
| `OverlapLoops.ViewAtCornerMissed` | esl_proxy/include/algorithm/tensormap_core.h:208-212 | Two concrete tiles that share one corner element and are classified as not overlapping |
| `MapLogs.HashBalanced` | esl_proxy/include/algorithm/tensormap_core.h:400-403 | The hash gives every bucket the same number of the 2^64 keys: different positions in a bucket are different keys, and all of them hash to it |
| `MapLogs.HashCoversAll` | esl_proxy/include/algorithm/tensormap_core.h:400-403 | Every key is one of the keys of its bucket |
| `MapLogs.VisitIsFold` | esl_proxy/include/algorithm/tensormap_core.h:569-586 | A callback that always goes on is called on exactly the valid same-base overlapping records, newest first, each once, and exactly those it removes are gone |
| `MapLogs.VisitStops` | esl_proxy/include/algorithm/tensormap_core.h:575-585 | A callback that stops ends the lookup: the entries after the hit are left alone |
| `MapLogs.PurgeIsFilter` | esl_proxy/include/algorithm/tensormap_core.h:598-614 | A cleanup of a watermark range keeps exactly the records whose slot no id of the range uses |
| `MapLogs.PurgeExact` | esl_proxy/include/algorithm/tensormap_core.h:598-614 | When live producers span less than a window, cleaning up to a watermark frees exactly the older records, across slot wrap |
| `Chains.PushKeepsChains` | esl_proxy/include/algorithm/tensormap_core.h:430-446 | Linking in front keeps every chain of that kind well formed and puts the entry first on its own |
| `Chains.UnlinkKeepsChains` | esl_proxy/include/algorithm/tensormap_core.h:449-477 | Unlinking an entry from anywhere keeps every chain of that kind well formed |
| `Chains.ChainAround` | esl_proxy/include/algorithm/tensormap_core.h:449-463 | The two links of a live entry name exactly its neighbours on the chain |
| `Chains.TakeFree` | esl_proxy/include/algorithm/tensormap_core.h:412-414 | Taking an index off the free list keeps every pool index in exactly one of unused, free and live |
| `Chains.TakeFresh` | esl_proxy/include/algorithm/tensormap_core.h:415-418 | So does taking the next unused index |
| `Chains.GiveBack` | esl_proxy/include/algorithm/tensormap_core.h:479 | So does giving an index back |
| `TensorMaps.TensorMap.constructor` | esl_proxy/include/algorithm/tensormap_core.h:491-520 | An initialised map is valid and empty |
| `TensorMaps.TensorMap.NewEntry` | esl_proxy/include/algorithm/tensormap_core.h:410-419 | Fails exactly when the pool is full; otherwise the index was not live and the pool partition is kept |
| `TensorMaps.TensorMap.LinkBucket` | esl_proxy/include/algorithm/tensormap_core.h:428-435 | The exact new pool and bucket heads after linking on the bucket chain |
| `TensorMaps.TensorMap.LinkTask` | esl_proxy/include/algorithm/tensormap_core.h:437-446 | The exact new pool and slot heads after linking on the producer chain |
| `TensorMaps.TensorMap.LinkEntry` | esl_proxy/include/algorithm/tensormap_core.h:421-447 | Linking a reserved entry adds its record in front and keeps the whole map valid |
| `TensorMaps.TensorMap.RemoveFromTask` | esl_proxy/include/algorithm/tensormap_core.h:449-464 | The exact new pool and slot heads after unlinking from the producer chain |
| `TensorMaps.TensorMap.FreeEntry` | esl_proxy/include/algorithm/tensormap_core.h:466-483 | The exact new pool, buckets and free list after freeing |
| `TensorMaps.TensorMap.Remove` | esl_proxy/include/algorithm/tensormap_core.h:588-592 | Removing a live entry takes exactly it out of the log and keeps the whole map valid |
| `TensorMaps.TensorMap.Insert` | esl_proxy/include/algorithm/tensormap_core.h:558-567 | Inserting puts the stored form of the tensor in front, or does nothing when the pool is full |
| `TensorMaps.TensorMap.InsertPrepared` | esl_proxy/cases/qwen3_14b_decoder_detect.h:80-91 | Inserting an entry prepared earlier has the effect of inserting its tensor |
| `TensorMaps.TensorMap.WalkStep` | esl_proxy/include/algorithm/tensormap_core.h:575-585 | One iteration keeps the walk on track even when the callback removes the current entry |
| `TensorMaps.TensorMap.Lookup` | esl_proxy/include/algorithm/tensormap_core.h:569-586 | The chain walk terminates and refines the visit of the plain log of records |
| `TensorMaps.TensorMap.FreeSlot` | esl_proxy/include/algorithm/tensormap_core.h:604-611 | Emptying one producer slot drops exactly the records of that slot |
| `TensorMaps.TensorMap.CleanupRetired` | esl_proxy/include/algorithm/tensormap_core.h:598-614 | The cleanup refines the purge of the log and records the new watermark |
| `TensorMaps.TensorMap.SyncTensorMap` | esl_proxy/include/algorithm/tensormap_core.h:622-633 | Synchronising refines the specified state change, including when a cleanup is triggered |
| `Submits.FoldCollects` | esl_proxy/include/algorithm/tensormap.h:89-107 | The predecessor list grows by the producers of the hits, each once, never the consumer, up to 64 |
| `Submits.LookUpCollects` | esl_proxy/include/algorithm/tensormap.h:170-174 | One lookup: which records stay and who is collected |
| `Submits.LookAllExact` | esl_proxy/include/algorithm/tensormap.h:170-175 | Although later lookups see what earlier ones deleted, every producer hit in the map before submission is collected and exactly the INOUT-covered records are gone |
| `Submits.CollectsAll` | esl_proxy/include/algorithm/tensormap.h:96-100 | With at most 64 hit producers the collected list is exactly their set |
| `Submits.InsertsAll` | esl_proxy/include/algorithm/tensormap.h:179-183 | With room in the pool exactly the declared outputs are added |
| `Submits.SubmittedPreds` | esl_proxy/include/algorithm/tensormap.h:157-185 | Collected predecessors are producers in the map that are not below the watermark, at most 64 |
| `Meanings.RetiredIgnored` | esl_proxy/include/algorithm/tensormap_core.h:578 | No producer below the watermark is ever collected, and no record of one is deleted by a lookup |
| `Meanings.OtherBuffersIgnored` | esl_proxy/include/algorithm/tensormap_core.h:578-580 | Records on buffers the task does not read are neither collected nor deleted |
| `Meanings.SubmitMeaning` | esl_proxy/include/algorithm/tensormap.h:89-175 | Over views the classifier is not misled on: with at most 64 of them the predecessors are exactly the live producers of an element that a declared IN or INOUT reads, and exactly the live records a declared INOUT has all elements of are gone |
| `Deps.TmDeps.constructor` | esl_proxy/include/algorithm/tensormap.h:117-128 | A fresh client is valid with an empty map and nothing pending |
| `Deps.TmDeps.Push` | esl_proxy/include/algorithm/tensormap.h:109-115 | A tensor is appended to the pending list; the seventeenth is dropped |
| `Deps.TmDeps.CollectAll` | esl_proxy/include/algorithm/tensormap.h:170-175 | The lookup loop refines the specified sequence of lookups |
| `Deps.TmDeps.InsertOutputs` | esl_proxy/include/algorithm/tensormap.h:179-183 | The insertion loop refines the specified sequence of insertions |
| `Deps.TmDeps.FindPredecessors` | esl_proxy/include/algorithm/tensormap.h:162-175 | Watermark first, then lookups |
| `Deps.TmDeps.Record` | esl_proxy/include/algorithm/tensormap.h:176-178 | A non-empty list, and only such a list, reaches add_predecessors |
| `Deps.TmDeps.Submit` | esl_proxy/include/algorithm/tensormap.h:157-185 | One submission: new map, collected predecessors, stored list and ancestor rows, pending list cleared |
| `Predecessors.KeptMembers` | esl_proxy/include/algorithm/ring_buf.h:136-172 | A target is stored exactly when it is not completed and, with dedup, no other target has it as an ancestor |
| `Predecessors.AddedExtends` | esl_proxy/include/algorithm/ring_buf.h:127-186 | A call that keeps n targets extends its list by exactly them, whatever they are, if and only if `start` is the current length and n is 0 or the list ends at the shared tail (or is empty) |
| `Predecessors.AddedKeepsOthers` | esl_proxy/include/algorithm/ring_buf.h:127-186 | A call with the right `start` for a list that ends at the shared tail (or is empty) changes no other list and keeps all lists disjoint inside the buffer |
| `Predecessors.InterruptedLosesTargets` | esl_proxy/include/algorithm/ring_buf.h:131-174 | Three calls, the first and third for one list, each with the right `start`: a reader of that list finds the target of the call in between and not the last one |
| `Predecessors.RestartLosesTargets` | esl_proxy/include/algorithm/ring_buf.h:131-134 | A second call with start 0 leaves a list of only the first call |
| `Predecessors.ChainedCalls` | esl_proxy/include/algorithm/ring_buf.h:127-186 | Chained calls for one task with no other call in between build one contiguous list, the in-order concatenation of what each call keeps |
| `Predecessors.PredecessorStore.constructor` | esl_proxy/include/algorithm/ring_buf.h:80-88 | Empty lists and empty ancestor rows |
| `Predecessors.PredecessorStore.AncestorTest` | esl_proxy/include/algorithm/ring_buf.h:55-58 | Word, shift and mask test membership in the ancestor set of a row |
| `Predecessors.PredecessorStore.AncestorSetBit` | esl_proxy/include/algorithm/ring_buf.h:60-63 | The OR with a shifted 1 adds exactly one ancestor to one row |
| `Predecessors.PredecessorStore.AncestorUnion` | esl_proxy/include/algorithm/ring_buf.h:65-70 | The word loop adds exactly the ancestors of one row to another, also when both are the same row |
| `Predecessors.PredecessorStore.IsRedundant` | esl_proxy/include/algorithm/ring_buf.h:144-152 | Answers whether another target already has this one as an ancestor |
| `Predecessors.PredecessorStore.AppendKept` | esl_proxy/include/algorithm/ring_buf.h:136-172 | Stores exactly the kept targets in order at the tail |
| `Predecessors.PredecessorStore.RecordAncestors` | esl_proxy/include/algorithm/ring_buf.h:179-182 | Records every target, also skipped ones, with its ancestors |
| `Predecessors.PredecessorStore.AddPredecessors` | esl_proxy/include/algorithm/ring_buf.h:127-186 | One whole call on lists and ancestor rows |
| `BitWords.OrRows` | esl_proxy/include/algorithm/ring_buf.h:65-70 | Rows whose words are the ORs of two rows hold the union of their sets |
| `BitWords.SetRowBit` | esl_proxy/include/algorithm/ring_buf.h:60-63 | OR-ing `1 << (c % 64)` into word `c / 64` of a row adds c to its set and nothing else |
| `BitWords.NoBits` | esl_proxy/include/algorithm/ring_buf.h:80-88 | A row of zero words holds nothing |
| `Dedup.TargetStillReached` | esl_proxy/include/algorithm/ring_buf.h:141-155 | Whatever the order of the calls, every target of a call is still waited for, directly or through another target |
| `Dedup.StepAccount` | esl_proxy/include/algorithm/ring_buf.h:127-186 | One call, in any order, keeps every set bit true and every missing edge bypassed by another target |
| `Dedup.AncestorsTrue` | esl_proxy/include/algorithm/ring_buf.h:175-183 | After any sequence of calls a bit that is set names a real ancestor |
| `Dedup.AncestorsExact` | esl_proxy/include/algorithm/ring_buf.h:175-183 | When no call for a task comes after a call that names it, every bitset is the strict-ancestor set of the graph without dropping |
| `Dedup.OrderExactly` | esl_proxy/include/algorithm/ring_buf.h:175-183 | The bitsets are exact for all target lists if and only if no call comes after a call for a higher task (task 0 aside) |
| `Dedup.LateCallMissed` | esl_proxy/include/algorithm/ring_buf.h:175-183 | Task 2 names task 1 before task 1 names task 0: the bitset of task 2 misses 0, and task 3 stores a redundant edge |
| `Dedup.DedupKeepsReach` | esl_proxy/include/algorithm/ring_buf.h:141-155 | After any sequence of calls, in any order, kept edges with the edges to completed targets have the transitive closure of all edges asked for |
| `Dedup.DroppedIsReached` | esl_proxy/include/algorithm/ring_buf.h:141-155 | Whatever the order of the calls, a dropped target is one that another target of the call already reaches |
| `Dedup.DroppedExactly` | esl_proxy/include/algorithm/ring_buf.h:141-155 | When no call for a task comes after a call that names it, an uncompleted target is dropped if and only if another target of the call already reaches it |
| `Dedup.OrderDropsExactly` | esl_proxy/include/algorithm/ring_buf.h:141-155 | The next call drops exactly its redundant targets, for all target lists, if and only if no earlier call came after a call for a higher task (task 0 aside) |
| `Graphs.BypassReach` | esl_proxy/include/algorithm/ring_buf.h:141-155 | Losing any number of edges loses no path when each lost edge leads to something another target of the same task waits for |
| `Racing.MoveKeeps` | esl_proxy/include/algorithm/ring_buf.h:127-186 | Each memory access of each call keeps all set bits true and all decided targets stored, completed or bypassed |
| `Racing.RaceKeepsReach` | esl_proxy/include/algorithm/ring_buf.h:127-186 | Whatever calls race and whatever half-filled bitsets they read, once all lists are published they have, with the edges to completed targets, the transitive closure of all edges asked for |
| `Racing.RaceProgress` | esl_proxy/include/algorithm/ring_buf.h:127-186 | No call waits for another, and each access brings its call nearer to its end and moves no other |
| `Racing.CanFinish` | esl_proxy/include/algorithm/ring_buf.h:127-186 | From every point of every race all lists can still be published, and from the start one call after the other |
| `Racing.CallAlone` | esl_proxy/include/algorithm/ring_buf.h:127-186 | A call that nothing interrupts stores exactly the targets, and records exactly the ancestors, of the sequential call |
| `Runs.SyncExact` | esl_proxy/include/algorithm/tensormap_core.h:622-633 | One synchronisation frees exactly the records below the watermark when 64 tasks have retired since the last cleanup or the window is about to wrap, nothing otherwise, and leaves the window room for the new id |
| `Runs.AlwaysWindowed` | esl_proxy/include/algorithm/tensormap_core.h:598-633 | In every well-timed run all live producers stay inside one window |
| `Runs.RetirementExact` | esl_proxy/include/algorithm/tensormap_core.h:598-633 | No cleanup of any run frees an unretired record, none stays in the map for 64 retirements, and the slot of the new id is free of live records |
| `Runs.EdgesFounded` | esl_proxy/include/algorithm/tensormap.h:157-185 | Every edge of a submission leads to an earlier, uncompleted producer with an output on the same buffer that is not classified apart (that the ring holds exactly these edges is StoredEdges.StoredRow) |
| `Meanings.EdgesShareElements` | esl_proxy/include/algorithm/tensormap.h:157-185 | In runs on such views every edge leads to an earlier, uncompleted producer that wrote an element the task reads |
| `Runs.EdgesDownward` | esl_proxy/include/algorithm/tensormap.h:157-185 | All edges go from lower to higher ids, so the graph is acyclic |
| `Runs.TrackedStep` | esl_proxy/include/algorithm/tensormap.h:103-105 | A write stays tracked through a submission that deletes the record tracking it |
| `Runs.ReadAfterWrite` | esl_proxy/include/algorithm/tensormap.h:157-185 | Over every run, a consumer that reads an element an unretired producer wrote has a path of edges to it, although INOUT lookups delete records |
| `RunTheorems.GoodViewsTrustworthy` | esl_proxy/include/algorithm/tensor.h:117-129 | Honest flags and hull or one-short extents that are newer to the reader or do not stop at the other view are enough for the classifier to be trusted |
| `RunTheorems.OrderedOnGoodViews` | esl_proxy/include/algorithm/tensormap.h:157-185 | Read-after-write ordering stated on the fields of the views alone |
| `RunTheorems.AlwaysOrderedExact` | esl_proxy/include/algorithm/tensormap.h:157-185 | Over any set of honestly flagged near-hull views, all well-timed runs within the limits are ordered if and only if for every pair on one buffer the read version is newer, or the range test does not see the views apart, or no extent stops at the other view |
| `RunTheorems.WriteThenReadOrdered` | esl_proxy/include/algorithm/tensormap.h:157-185 | The hypotheses of the ordering theorem can be met: any good pair of views gives a two-step run that satisfies them all and has the edge |
| `RunTheorems.WriteThenReadExact` | esl_proxy/include/algorithm/tensormap.h:157-185 | For a shared element and near-hull extents, the two-step run orders the read after the write if and only if the version of the read view is newer, or the range test does not see the views apart, or no extent stops at the other view |
| `RunTheorems.CornerReadUnordered` | esl_proxy/include/algorithm/tensor.h:126-127 | A concrete two-step run where a read of a shared corner stays unordered because of the short extent |
| `Tiles.TileExtent` | esl_proxy/include/algorithm/tensor.h:117-129 | A tile of a fresh matrix has as extent exactly its reach along the rows when it spans whole rows, and one less otherwise |
| `Tiles.TileCells` | esl_proxy/include/algorithm/tensor.h:117-129 | A tile addresses exactly its cells |
| `Tiles.TileAnswers` | esl_proxy/include/algorithm/tensormap_core.h:188-280 | Two tiles of one matrix are classified by their cells: apart, inside or neither, except when the last cell of one that spans no whole rows is the first of the other |
| `Tiles.TilesOrderedExact` | esl_proxy/include/algorithm/tensormap.h:157-185 | Over any set of tiles all well-timed runs within the limits are ordered if and only if no tile that spans no whole rows has its last cell where another tile, or itself, has its first |
| `Tiles.TileReadAfterWrite` | esl_proxy/include/algorithm/tensormap.h:157-185 | Over such a set, a task that reads a cell waits for every unretired task that wrote it; hypotheses on offsets, sizes and matrix addresses only |
| `Tiles.TileEdges` | esl_proxy/include/algorithm/tensormap.h:157-185 | Over such a set, a task waits only for earlier, uncompleted tasks that wrote a cell it reads |
| `RunTheorems.DedupKeepsOrder` | esl_proxy/include/algorithm/ring_buf.h:135-183 | With dedup the edges kept still order every pair of unretired tasks that the full graph orders |
| `StoredRuns.NextSlotEmpty` | esl_proxy/src/algorithm/cutter.c:123-273 | When a task is submitted the last holder of its ring slot has been committed, so its list is empty |
| `StoredRuns.SubmitKeeps` | esl_proxy/include/algorithm/ring_buf.h:127-186 | A submission keeps the invariant: every waiting task has exactly its own list in the ring, every other slot is empty |
| `StoredRuns.CommitKeeps` | esl_proxy/src/algorithm/cutter.c:130-272 | Reading and emptying the list of the next task keeps the invariant |
| `StoredRuns.ReadExactly` | esl_proxy/src/algorithm/cutter.c:123-273 | In every interleaving of submissions and commits the cutter reads for each task exactly the list its own submission kept, however often the ring has wrapped |
| `StoredRuns.CanCommit` | esl_proxy/src/algorithm/cutter.c:123-273 | Whatever good submissions ask for, an interleaving exists in which all of them are submitted, committed and read |
| `StoredRuns.RoomExactly` | esl_proxy/include/algorithm/ring_buf.h:85-87 | The slot buffer holds as many entries as all submissions so far have kept, because the tail never goes back |
| `StoredEdges.StoredRow` | esl_proxy/include/algorithm/ring_buf.h:127-186 | Without dedup the list of a task has exactly the edges of its submission |
| `StoredEdges.ReadAfterWriteAtCutter` | esl_proxy/src/algorithm/cutter.c:123-273 | Read-after-write in what the cutter reads: in every interleaving, once the consumer is committed the lists read lead from it to the unretired producer |
| `StoredEdges.SameDedup` | esl_proxy/include/algorithm/ring_buf.h:135-183 | With dedup the lists in the ring and the ancestor rows are those of the account in Dedup |
| `StoredEdges.DedupOrderAtCutter` | esl_proxy/src/algorithm/cutter.c:123-273 | With dedup the lists the cutter reads still order every consumer after the unretired producer it reads from |
| `Detects.InputsCoverNothing` | esl_proxy/cases/qwen3_14b_decoder_detect.h:129-136 | IN lookups never remove a record |
| `Detects.PreparedIsDetected` | esl_proxy/cases/qwen3_14b_decoder_detect.h:114-142 | The cheap replay step changes the map exactly as detection does, for every map and whichever limits are hit |
| `Detects.InsertOuts` | esl_proxy/cases/qwen3_14b_decoder_detect.h:93-112 | Outputs then INOUTs are inserted, by ticket or by copy, with the same effect |
| `Detects.LookupList` | esl_proxy/cases/qwen3_14b_decoder_detect.h:129-136 | A lookup loop refines the specified lookups |
| `Detects.PrepareHash` | esl_proxy/cases/qwen3_14b_decoder_detect.h:114-123 | prepare_hash refines the specified replay step |
| `Detects.DetectTask` | esl_proxy/cases/qwen3_14b_decoder_detect.h:125-142 | detect_task refines the specified detection step and returns the list it hands to add_predecessors |
| `Detects.Replay` | esl_proxy/cases/qwen3_14b_decoder_detect.h:170-172 | The replay loop brings the map to the sequential state before the block |
| `Detects.DetectBlock` | esl_proxy/cases/qwen3_14b_decoder_detect.h:173-175 | The detect loop finds the sequential answers of the block |
| `Detects.OwnedBlock` | esl_proxy/cases/qwen3_14b_decoder_detect.h:162-180 | From one of its blocks on a thread owns the next batch of ids and then none until its next block |
| `Detects.OrchestratorDetect` | esl_proxy/cases/qwen3_14b_decoder_detect.h:147-184 | For every thread count, batch size and total a thread hands over exactly its block-cyclic share, in order, each with the sequential predecessors, and counts it |
| `Detects.FindingsExact` | esl_proxy/cases/qwen3_14b_decoder_detect.h:162-180 | Each id is handed over by exactly one thread, with the sequential answer |
| `Detects.PublishedTotal` | esl_proxy/cases/qwen3_14b_decoder_detect.h:164-182 | The published counts of all threads add up to the total |
| `Routes.OutputsBag` | esl_proxy/include/algorithm/tensormap.h:179-183 | The records left behind do not depend on the order of the declarations |
| `Routes.SameHits` | esl_proxy/cases/qwen3_14b_decoder_detect.h:129-136 | Both lookup orders hit and cover the same records |
| `Routes.StepAgrees` | esl_proxy/cases/qwen3_14b_decoder_detect.h:125-142 | On maps with the same records both routes find the same predecessors and leave the same records |
| `Routes.RoutesAgree` | esl_proxy/include/algorithm/tensormap.h:157-185 | At every point of a run with the watermark at 0, tm_submit and describe/detect hold the same multiset of records and find the same predecessor set, whatever the declaration order, bucket counts and windows |
| `Routes.SortedExactly` | esl_proxy/cases/qwen3_14b_decoder_detect.h:125-142 | For a body that declares IN, then OUT, then INOUT tensors, detection gives the very list and map tm_submit gives at watermark 0, whichever limits are hit |
| `Routes.DetectedReadAfterWrite` | esl_proxy/cases/qwen3_14b_decoder_detect.h:125-142 | Read-after-write ordering holds for the lists the detect threads hand to add_predecessors |
| `Writers.ListOwnExactly` | esl_proxy/include/algorithm/ring_buf.h:127-186 | In every interleaving of calls by several threads a published list consists of the slots its own call stored, in order, if and only if no other call stored anything between the load of the tail and the last own store |
| `Writers.TwoWritersMix` | esl_proxy/include/algorithm/ring_buf.h:131-174 | A concrete interleaving of two calls after which a reader of the first list finds a target of the second call and misses one of its own |
| `Writers.SerialListsOwn` | esl_proxy/include/algorithm/ring_buf.h:127-186 | Calls made one after another publish exactly their own lists |
| `Publishing.RowAsHandedOver` | esl_proxy/cases/qwen3_14b_decoder_detect.h:125-142 | What can be read from the ring for a task is what its thread handed over, if its call was not interrupted |
| `Publishing.CanPublish` | esl_proxy/cases/qwen3_14b_decoder_detect.h:147-184 | For any lists there is an uninterrupted order of calls that publishes them all |
| `Publishing.PublishedReadAfterWrite` | esl_proxy/cases/qwen3_14b_decoder_detect.h:125-142 | Read-after-write ordering in the shared ring the detect threads have filled, for every interleaving in which no call was interrupted |
| `Publishing.SerialReadAfterWrite` | esl_proxy/cases/qwen3_14b_decoder_detect.h:147-184 | With calls made one after another, as by a single detect thread, the ordering needs nothing more |
| `Publishing.DedupPublishedReadAfterWrite` | esl_proxy/cases/qwen3_14b_decoder_detect.h:125-142 | With dedup the ring the detect threads have filled has the same ordering, for every interleaving of their memory accesses in which no call was interrupted |
| `Publishing.DedupSerialReadAfterWrite` | esl_proxy/cases/qwen3_14b_decoder_detect.h:147-184 | With dedup calls made one after another, in any order of the tasks, need nothing more |
| `Publishing.DedupCanPublish` | esl_proxy/cases/qwen3_14b_decoder_detect.h:147-184 | The lists of a run name earlier tasks only, and an uninterrupted order of calls publishes them |
| `Describes.SplitSame` | esl_proxy/cases/qwen3_14b_decoder_desc.h:108-146 | Sorting declarations by access into the three lists loses and adds none |
| `Describes.DescBuffers.constructor` | esl_proxy/cases/qwen3_14b_decoder_desc.h:68-71 | All slots empty |
| `Describes.DescBuffers.AddTensorIn` | esl_proxy/cases/qwen3_14b_decoder_desc.h:123-131 | Appends one input to the slot and touches no other slot |
| `Describes.DescBuffers.AddTensorOut` | esl_proxy/cases/qwen3_14b_decoder_desc.h:108-121 | Appends one output and its ticket to the slot and touches no other slot |
| `Describes.DescBuffers.AddTensorInOut` | esl_proxy/cases/qwen3_14b_decoder_desc.h:133-146 | Appends one INOUT and its ticket to the slot and touches no other slot |
| `Describes.DescBuffers.DescribeTask` | esl_proxy/cases/qwen3_14b_decoder_desc.h:151-164 | A body fills its slot with exactly its declarations and their tickets |
| `Describes.WindowExact` | esl_proxy/cases/qwen3_14b_decoder_desc.h:151-164 | The window test accepts exactly the share of the thread |
| `Describes.DoOrSkip` | esl_proxy/cases/qwen3_14b_decoder_desc.h:151-164 | One use of the macro: run inside the window, else maybe advance it |
| `Describes.WalkIds` | esl_proxy/cases/qwen3_14b_decoder_desc.h:151-164 | The walk over all ids describes exactly the ids the windows accept and counts them |
| `Describes.OrchestratorDesc` | esl_proxy/cases/qwen3_14b_decoder_desc.h:166-170 | One thread describes exactly its share, leaves all other slots alone, and counts what it created |
| `Describes.PartitionExact` | esl_proxy/cases/qwen3_14b_decoder_desc.h:151-164 | Every id is executed by exactly one thread if and only if there are two threads or everything fits in one block |
| `Describes.LoneThreadLoses` | esl_proxy/cases/qwen3_14b_decoder_desc.h:151-164 | A lone thread creates one less for every further block it enters |
| `Describes.CreatedTotal` | esl_proxy/cases/qwen3_14b_decoder_desc.h:151-170 | The created counts add up to the number of ids under exactly that condition |
| `Describes.DescribeAll` | esl_proxy/cases/qwen3_14b_decoder_desc.h:151-170 | After all threads exactly the executed ids are described, tickets included |
| `Describes.DescribedAgrees` | esl_proxy/cases/qwen3_14b_decoder_detect.h:125-142 | Describing with any thread count and detecting finds the predecessors of tm_submit |
| `Gates.StepKeeps` | esl_proxy/include/algorithm/ed_gate.h:38-131 | Every step of executor, stager, notifier and dispatcher keeps the protocol invariant |
| `Gates.NoLostWakeup` | esl_proxy/include/algorithm/ed_gate.h:82-131 | In every reachable state the core of a gated slot is in the mask, in local_pending, or its stager is between its two steps |
| `Gates.ExchangeNeverFails` | esl_proxy/include/algorithm/ed_gate.h:45-55 | The compare-exchange always succeeds; the path absorbing a stale doorbell is unreachable |
| `Gates.OpensOnlyAfterRing` | esl_proxy/include/algorithm/ed_gate.h:38-76 | A slot leaves GATED only for RUNNABLE, only after its own ring, and only by the executor |
| `Gates.OpeningsConserved` | esl_proxy/include/algorithm/ed_gate.h:57-58 | The opening counter plus the doorbells still at 1 plus the one about to be counted equals the rings, over every run |
| `Gates.OpensWithinDrain` | esl_proxy/include/algorithm/ed_gate.h:95-131 | A gate rung before a drain begins is open when that drain ends, whatever the other threads do |
| `Gates.DrainProgress` | esl_proxy/include/algorithm/ed_gate.h:95-131 | Every executor step of a drain decreases a measure no other thread can raise, so drains end |
| `Gates.RungGateOpens` | esl_proxy/include/algorithm/ed_gate.h:95-131 | From every state of every run in which a gate is staged and rung the executor, by its own steps alone, comes to open it |
| `Gates.SlotCycles` | esl_proxy/include/algorithm/ed_gate.h:38-131 | Whatever the run has been, a free slot can be staged, notified, opened, completed and freed again |
| `Gates.GateBoard.PollDoorbell` | esl_proxy/include/algorithm/ed_gate.h:38-76 | The poll opens exactly a rung gate and consumes the doorbell |
| `Gates.GateBoard.DrainCore` | esl_proxy/include/algorithm/ed_gate.h:113-125 | The slot loop opens exactly the rung gates of a core and reports whether one is left |
| `Gates.GateBoard.DrainKind` | esl_proxy/include/algorithm/ed_gate.h:108-129 | The core loop scans exactly the pending cores of a kind |
| `Gates.GateBoard.DrainGatedCores` | esl_proxy/include/algorithm/ed_gate.h:95-131 | An undisturbed drain opens exactly the rung gates of watched cores, empties the mask, and keeps watching exactly the cores with a gate left |
| `Queues.RingQueue.constructor` | esl_proxy/include/algorithm/queue.h:16-22 | An empty ring |
| `Queues.RingQueue.Enqueue` | esl_proxy/include/algorithm/queue.h:74-86 | Appends at the end, refused exactly when full |
| `Queues.RingQueue.Dequeue` | esl_proxy/include/algorithm/queue.h:60-72 | Takes from the front, refused exactly when empty |
| `Queues.RingQueue.BatchEnqueue` | esl_proxy/include/algorithm/queue.h:45-58 | Appends all items; the queue is valid afterwards if and only if `tail + n` stays below the ring size |
| `Queues.RingQueue.BatchDequeue` | esl_proxy/include/algorithm/queue.h:28-43 | Takes a prefix; the queue is valid afterwards if and only if `head + n` stays below the ring size |
| `Queues.ApplyOps` | esl_proxy/include/algorithm/queue.h:28-86 | Any sequence of single and batch operations leaves the ring with the contents, and delivers the items, of the abstract queue |
| `Queues.FirstInFirstOut` | esl_proxy/include/algorithm/queue.h:28-86 | Over every such sequence what was delivered plus what is queued is what was accepted, in order |
| `Queues.BatchIsPuts` | esl_proxy/include/algorithm/queue.h:45-58 | A batch put that fits is that many single puts |
| `Queues.BatchIsTakes` | esl_proxy/include/algorithm/queue.h:28-43 | A batch take is that many single takes, up to the items present |
| `Synthetics.GenerateTaskIds` | tools/gen_synthetic_dag.py:45-63 | The loops list one contiguous slice per wave |
| `Synthetics.IdsExact` | tools/gen_synthetic_dag.py:45-63 | An id is in a subgraph if and only if its position in the wave lies in the slice of the thread |
| `Synthetics.SubgraphsDisjoint` | tools/gen_synthetic_dag.py:45-63 | No id is in two subgraphs |
| `Synthetics.SubgraphsPartition` | tools/gen_synthetic_dag.py:56-57 | All ids are covered if and only if the thread count divides the layer width |
| `Synthetics.GeneratePreCntData` | tools/gen_synthetic_dag.py:66-101 | Counts, prefix-sum offsets and lists: a task below the first layer has min(pre, layer size) predecessors, and the task at position s of the layer before is one of position r if and only if (s - r) mod layer size is below pre |
| `Synthetics.PredsDistinct` | tools/gen_synthetic_dag.py:92-98 | The predecessors of a node are different positions of the layer just before |
| `Synthetics.ReadEdges` | tools/gen_synthetic_dag.py:358-377 | Reading with a running pointer finds exactly the edges the offsets describe |
| `Synthetics.GeneratedEdges` | tools/gen_synthetic_dag.py:352-377 | Reading the generated arrays back gives each node exactly its generated predecessors |
| `Synthetics.EdgesByPosition` | tools/gen_synthetic_dag.py:352-377 | An edge read back leads from a task to one of the next layer, if and only if its position is among the pre positions from the other on, around the layer |
| `Synthetics.IdsIncrease` | tools/gen_synthetic_dag.py:45-63 | The ids of a subgraph are listed in increasing order |
| `Synthetics.EdgesOneLayerDown` | tools/gen_synthetic_dag.py:86-99 | Every edge of a subgraph leads from one layer of the whole graph to the next |

## Left out

- Predecessors.PredecessorStore.AddPredecessors: the class has one writer and room in the slot buffer; several writers
  are the step machine of Writers.
- Predecessors.PredecessorStore.AppendKept: the same; the retry loop of the compare-exchange is one assignment.
- Predecessors.ChainedCalls: one writer, and no call for another task in between.
- Writers.ListOwnExactly: taking a slot and storing into it are one step, every call starts at 0 and no task gets a
  second one; an overtaken compare-exchange only retries. What a call keeps under dedup is decided in Racing.
- Racing.RaceKeepsReach: one call per task, starting at 0; several calls for one task, one after the other, are in
  Dedup.
- StoredRuns.CommitKeeps: of add_successors only reading and emptying the list is modelled, not the filter on completed
  predecessors with its cap of 32 survivors, successor lists and ready queues.
- Deps.TmDeps.Record: room in the slot buffer; what the slot held before is kept, and that it is empty is shown over
  runs (StoredRuns.NextSlotEmpty).
- Detects.DetectTask: returns the list for add_predecessors; storing it is in Writers and Publishing, because several
  threads store into one ring concurrently.
- Detects.OrchestratorDetect: the same, for all tasks of a thread.
- Routes.DetectedReadAfterWrite: about lists as they are handed over; PublishedReadAfterWrite is about the ring.
- Describes.DescBuffers.AddTensorIn: the fixed capacity of the slot arrays and the address list in g_basic_buf are not
  modelled.
- Describes.DescBuffers.AddTensorOut: the same.
- Describes.DescBuffers.AddTensorInOut: the same.
- Describes.DescribeAll: runs the threads one after the other, which stands for interleavings because they write
  disjoint slots; the 16-element bound of each per-slot list is not modelled.
- Describes.OrchestratorDesc: the bodies of the Qwen3 graph are a parameter; durations, scalars, read-only tensors and
  block tiling are not modelled.
- Deps.TmDeps.Submit: pending tensors are held by value, so a caller changing a tensor between declaring and
  submitting it is not modelled; room in the slot buffer as in Record.
- Gates.StepKeeps: the stager, notifier and dispatcher appear only through their shared accesses; which task is
  staged, the record and tag checks that make a notification unique, and weak memory orders are not modelled.
- Gates.GateBoard.DrainGatedCores: slot states, doorbells and masks are sets of places and cores instead of arrays of
  atomics and bit masks.
- Queues.RingQueue.BatchEnqueue: an accepted batch whose copy runs past the end of the array is undefined in C and is
  excluded.
- Queues.RingQueue.BatchDequeue: likewise.
- Queues.FirstInFirstOut: the spin lock itself is not modelled; an interleaving is a sequence of whole operations.
- Rings other than 0, `manual_dep`, `owner_task_id`, `tm_valid_count`, `tm_attach` and the byte layout of the map.
- The address list kept by `add_tensor_addr`, and new_task beyond the bound it enforces.
- Ordering of writes after reads or writes through OUT-only tensors: the code does no lookup for them.
- Loop counters and pool indices are unbounded integers; the tensor arithmetic wraps as in C.
- Generated data headers, logging, latency tracing, metrics and benchmarks.
