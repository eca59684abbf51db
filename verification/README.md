# fastSHD: proofs about the perfect hash

fastSHD stores a static set of keys under a minimal perfect hash (Skew Hash and Displace): building maps `n` keys
one-to-one onto `[0, n)` and stores a line for each, and queries recompute the position and compare the key on the
line. This project models that chain from the fingerprints of the keys to the bytes of a pack and back, and proves
that each fast form in it (in-place shuffles, ring buffers, reciprocals, software pipelines, concurrent scatters
and bitmaps) does what a simple one would do.

| module | of the original | about |
|---|---|---|
| Words, Bits, Permutation | include/utils.h, src/internal.h | machine words as bounded integers, bitmaps, counting |
| Division | include/utils.h, src/cuda/shd.cu | modified Robison and Lemire-Kaser-Kurz reciprocals |
| PackFormat | src/pack_format.h, src/internal.h | sizes and the skew map |
| Ids, BucketSearch | src/build.cc | conflict test and displacement search of one bucket |
| Scatter, Reorder, CyclicShuffle, Localize, SegmentSort | src/build.cc | sorting the ids of a segment by bucket |
| Rank, SegmentBuild, TableBuild | src/build.cc, src/search.cc | sections, segments, the whole table |
| Ingest | src/build.cc | reading and counting keys with concurrent readers, one or several segments |
| MultiHead | src/build.cc | the concurrent scatter, as interleaved atomic steps |
| Pipeline, Packs, Query, Filling | src/pipeline.h, src/search.cc, src/shd.cc | lookups, batches, filling lines |
| SeparatedValues, PackLayout | src/build.cc, src/shd.cc | value stream, bytes of a pack |
| Output, Building | src/build.cc, src/shd.cc | an output that may fail; from records to the reloaded lookup |
| Feasible | src/build.cc | that what the builds ask of ids and threads can be met |
| RebuildClaims, Rebuild | src/build.cc | rebuilding from a base and patches |
| StagingRing | src/cuda/shd_host.cc | chunks in flight on two lanes |

`dafny verify dfyconfig.toml` verifies everything.

## How it is modelled

* Words are integers with bounds; every truncation, wrap-around and shift of the original is written out.
* Code that works in place is a method on arrays or a class, tied to a function of the old contents. Pure stages are
  functions.
* Threads are state machines over atomic steps. A run is a sequence of states; results are proved for all runs, and
  the methods that follow a join take the state that any run left.
* Every call of the output may fail; the contracts say what has been written and which call ended the work.
* The fingerprint of a key and the displacement hash are arbitrary functions. No property depends on how well they mix.
* The library sort and partition are modelled by methods with the same effect.
* Thresholds that depend on the build type are those of a release build.

## Where the code and its promises differ

* The skew map sends the all-ones code past the last cell when the number of cells divides
  `L1H_MAX * (L1H_MAX + L1TIP)`, for example with up to five items (`PackFormat.SkewMapEscapes`);
  `PackFormat.SkewMapInRange` is the exact condition. The build and lookup theorems therefore require that the cell
  of every id they speak about is in range. Otherwise the search reads one cell too far, and the build counts past
  its table of bucket sizes (src/build.cc:376-379) and reads and writes the cell behind the last one (:558, :567).
* A conflict reported for a whole segment does not prove that two ids are equal, because over-full buckets are
  reported the same way: from 22 ids on that can happen (`SegmentBuild.ConflictWithoutDuplicates`), with fewer never
  (`SegmentBuild.FewNeverConflict`). The conflict of one bucket search is exact.
* The 32-byte alignment of the sections masks a 64-bit offset with a 32-bit constant. Header, part sizes and cells
  plus 31 must stay below 2^32 for the sections to follow the cells (`PackLayout.AlignUpExact`,
  `PackLayout.AcceptedIsOrdered`); six segments of the largest size are beyond it (`PackLayout.BeyondTheBound`). The
  round trip carries that bound; `Building.SafeTotal` says which totals keep it.
* The batch operations on flat buffers multiply index and length in 32 bits (src/search.cc:122, :168, :178-179).
  Every block is found at its place if and only if the last one begins below 2^32 (`Query.AddressesStraight`); a batch
  that goes wrong is `Query.LastKeyWraps`. The contracts hold for the wrapped products of any batch and give the
  intended answers under that condition.

## Model

| member | source | states |
|---|---|---|
| `SegmentBuild.BuildSegment` | src/build.cc:532-591 | On OK the piece is a minimal perfect hash of the ids given. A bucket of more than 65535 ids, or more than 16 beyond the number of cells, always gives a conflict; any other conflict, and any out of chance, comes from a bucket of some grouped arrangement of the ids that the loop reaches with exactly the bits of the earlier buckets taken: the bucket holds equal ids, or none of the 256 seeds fits it |
| `SegmentBuild.RecordsArePerfect` | src/build.cc:569-590 | If every id has its own bit and no other bit is set, ranks send the ids one-to-one into `[0, size)`, and any other id to at most `size` |
| `SegmentBuild.PerfectIsBijective` | src/build.cc:532-591 | A minimal perfect hash means pairwise distinct ids and every position of `[0, size)` taken |
| `SegmentBuild.MapBuckets` | src/build.cc:547-567 | The bucket loop leaves every id on its own bit under the seed of its cell, and no other bit set, each seed being the first that fits; or it stops at a whole bucket with equal ids, or at one that no seed fits among the bits of the buckets before it |
| `SegmentBuild.MapBucket` | src/build.cc:554-560 | One bucket: the first seed that fits is stored in its own cell and earlier buckets stay placed; otherwise this bucket, with the bits found so far, is the reason |
| `SegmentBuild.PlaceBucket` | src/build.cc:547-567 | Adding a bucket that fits keeps all earlier ids on their own bits |
| `SegmentBuild.FewNeverConflict` | src/build.cc:520-522 | At most 21 pairwise different ids never end in a conflict, wherever they fall |
| `SegmentBuild.ConflictWithoutDuplicates` | src/build.cc:520-522 | With 22 it can happen: 22 pairwise different ids in one bucket always end in a conflict |
| `SegmentBuild.ClashIsDuplicate` | src/build.cc:554-564 | A conflict that comes from a bucket means two equal ids in the segment |
| `SegmentBuild.OutcomesExclusive` | src/build.cc:554-566 | If the buckets of an arrangement can be placed one after the other, each with its first fitting seed, the loop comes to no bucket that is stuck or has equal ids, whatever the cells hold otherwise |
| `SegmentBuild.ExplainedPermuted` | src/build.cc:532-591 | The reason of an outcome depends on the bag of ids only, so it holds of the ids as they were read |
| `SegmentBuild.IndexPiece.DeviceAgrees` | src/cuda/shd.cu:284-311 | Host and device compute the same position for every id, whatever the sections hold |
| `TableBuild.BuildTable` | src/build.cc:619-737 | Bad input exactly if some segment is empty or too large; otherwise the outcome is that of the segments: OK only if all are OK, a conflict or out of chance only if some segment has that reason. On OK, through any of the three partitions, the table is a minimal perfect hash of the ids originally in the buffer and has all its segments |
| `TableBuild.BuildPartitioned` | src/build.cc:593-617 | Whatever grouped arrangement the partition produced, building its segments gives a perfect table |
| `TableBuild.BuildPieces` | src/build.cc:593-617 | Every segment is built from its own stretch; the statuses combine to OK only if all are perfect, and to a failure that one of the segments explains |
| `TableBuild.CombinedExact` | src/build.cc:593-617 | The combined status is a conflict exactly if some segment has one, out of chance exactly if some segment is and none has a conflict, and OK exactly if all are |
| `TableBuild.TableIsPerfect` | src/search.cc:76-92 | With the item offsets added, positions of different segments never meet and stay below the total |
| `TableBuild.TableIsBijective` | src/search.cc:90-92 | The built ids are pairwise distinct and take every position of `[0, total)` exactly once |
| `TableBuild.TablePerfectPermuted` | src/build.cc:619-737 | Perfection does not depend on the order of the ids in the buffer |
| `TableBuild.PartitionInPlace` | src/build.cc:633-651 | Without extra memory the cyclic shuffle groups the buffer by segment |
| `TableBuild.PartitionShadow` | src/build.cc:668-672 | With one head the ring scatter groups the shadow by segment |
| `TableBuild.SingleIsPerfect` | src/build.cc:769-772 | A table of one segment is perfect when its segment is |
| `Ingest.EveryRunCounts` | src/build.cc:785-816 | In every interleaving of the readers, each relaxed addition being one step: the count fails exactly if some key has no or more than 255 bytes; otherwise the buffer holds the ids of all keys in reading order and the shared counts are exactly those of the segments |
| `Ingest.StepKeepsInv` | src/build.cc:789-807 | Every key read, every turn to adding and every addition keeps the invariant that the shared counts are the sums of what the threads have added |
| `Ingest.RunInv` | src/build.cc:785-816 | The invariant holds in every state of every run |
| `Ingest.RunIsBounded` | src/build.cc:785-812 | No run takes more steps than there are keys plus one turn and one addition per segment and reader |
| `Ingest.RunReachesJoin` | src/build.cc:785-812 | However a run has begun it can be continued to the join |
| `Ingest.ConfigIsValid` | src/build.cc:619-632 | The counts, summed up, give the scatter and the segments the exact stretches they need |
| `Ingest.ReadIds` | src/build.cc:753-768 | Alone: fails exactly if some key is bad, else the ids of all keys in reading order |
| `Ingest.BuildSingle` | src/build.cc:749-779 | One segment: bad input exactly if a key is bad or there are 2^32 keys or more; else the outcome of the segment, with its reason |
| `Ingest.BuildAll` | src/build.cc:739-822 | From two readers and 8192 keys for each on as many segments as readers, else one: bad input exactly if a key has no or more than 255 bytes or a segment has no size; other failures with their reason; on OK the table is a minimal perfect hash of the ids of all keys, of that many segments |
| `BucketSearch.Mapping` | src/build.cc:161-217 | Conflict if and only if two ids of the bucket are equal; OK if and only if one of the 256 seeds sends all ids to distinct free bits, and then the first such seed in cyclic order, with exactly those bits added; otherwise the bitmap is restored byte for byte |
| `BucketSearch.TryToMapLarge` | src/build.cc:88-128 | The first of `n` seeds that fits a big bucket, tried batch by batch; failed tries leave no bit behind |
| `BucketSearch.TryLargeOnce` | src/build.cc:109-124 | One seed on a big bucket: all batches or none |
| `BucketSearch.TryToMapSmall` | src/build.cc:130-159 | The first of `n` seeds that fits a small bucket, with the bits of several seeds computed ahead |
| `BucketSearch.FillWindow` | src/build.cc:132-142 | The precomputed window holds, row by row, the bits of consecutive seeds |
| `BucketSearch.MiniBatchTry` | src/build.cc:163-178 | The first of `n` seeds that sends a single id to a free bit |
| `BucketSearch.ClaimAll` | src/build.cc:96-104 | Claims the bits of a batch, or none of them |
| `BucketSearch.Unclaim` | src/build.cc:98-100 | Clears exactly the bits the batch had claimed |
| `BucketSearch.Level2.FitsPermuted` | src/build.cc:184-204 | Whether a seed fits a bucket does not depend on the order of its ids, so sorting it for the conflict test changes nothing |
| `BucketSearch.Level2.DuplicatesNeverFit` | src/build.cc:187-189 | Equal ids never fit under any seed |
| `Ids.HasConflict` | src/build.cc:67-86 | Sorts a stretch in place and reports exactly whether two ids in it are equal |
| `Ids.NeighboursShowDuplicates` | src/build.cc:80-84 | In sorted order comparing neighbours finds every repetition |
| `Bits.TestAndSetBit` | src/internal.h:129-137 | Reports whether the bit was clear, and adds exactly that bit to the set bits |
| `Bits.ClearBit` | src/internal.h:180-182 | Removes exactly that bit |
| `Bits.SetBitsDetermine` | src/build.cc:98-103 | A bitmap is determined by its set bits: equal set bits mean equal bytes |
| `Scatter.Counting` | src/build.cc:331-363 | The ring-buffered counting leaves the counters, and returns the maximum, of the plain loop |
| `Scatter.CountsExact` | src/build.cc:331-363 | Every counter grows by exactly the number of its occurrences |
| `Scatter.MaxExact` | src/build.cc:331-363 | The maximum returned is the largest final counter of a used slot |
| `Scatter.ShuffleInto` | src/build.cc:282-329 | The two-deep ring scatter leaves the offsets and the shadow of the plain stable scatter, for every total |
| `Scatter.DestOrdered` | src/build.cc:285-287 | Items of one slot keep their order; items of different slots go to different stretches |
| `Scatter.ScatterRearranges` | src/build.cc:282-329 | Onto exactly fitting stretches the scatter is a permutation with item `i` at its own place |
| `CyclicShuffle.ShuffleInOrder` | src/build.cc:238-273 | From balanced regions it ends with a permutation in which every bucket fills exactly its region, and every touched offset at its border |
| `CyclicShuffle.FillRegion` | src/build.cc:248-271 | One bucket's region is completed; everything passed stays right |
| `CyclicShuffle.ChaseCycle` | src/build.cc:257-270 | Carrying displaced ids ends with an id of the starting bucket; the sum of open positions falls with every step |
| `CyclicShuffle.ScanOwn` | src/build.cc:261-264 | The unbounded inner scan stops before the border of the bucket |
| `CyclicShuffle.Regions.HasRoom` | src/build.cc:261-264 | The pigeonhole: as long as an id of a bucket is on an open position of another, its own region has an open position that is not its own |
| `CyclicShuffle.Regions.Exchange` | src/build.cc:238-273 | Exchanging two open positions keeps every bucket's demand equal to its room |
| `Reorder.L1SortReorder` | src/build.cc:386-416 | For any 32-bit maximum: a permutation, ascending by count with ties in bucket order, whose ranges tile `[0, total)` in descending count order with the length of each count |
| `Reorder.RadixPass` | src/build.cc:390-404 | One pass sorts by one more byte and keeps the order of the lower bytes |
| `Reorder.FullySorted` | src/build.cc:389-389 | The bytes that the maximum needs are enough to sort completely |
| `Reorder.OrderIsComplete` | src/build.cc:407-416 | Every bucket has exactly one rank |
| `Localize.L1SortLocalize` | src/build.cc:455-492 | At every level of the recursion: the stretch ends with every id in the stretch of its bucket, nothing outside moves, and only the offsets of its own buckets advance; the rank interval strictly shrinks |
| `Localize.FindSplit` | src/build.cc:467-482 | The rank found is strictly inside and splits the positions strictly, so both assertions hold |
| `Localize.Arrangement.SplitInside` | src/build.cc:479-482 | Descending counts below a tile put the start of the chosen rank strictly between the ends |
| `Localize.PartitionAt` | src/build.cc:484-488 | The cut of the partition is exactly the split position and leaves two complete blocks |
| `Localize.Arrangement.CutIsSplit` | src/build.cc:484-488 | Comparing offsets is comparing ranks for the ids that occur, and the cut is the start of the rank |
| `Localize.Arrangement.UnusedFrame` | src/build.cc:490-491 | The left call changes no offset that the right call reads |
| `Localize.L1SortShuffleRange` | src/build.cc:436-453 | The cyclic shuffle on one block settles it |
| `SegmentSort.L1Sort` | src/build.cc:514-530 | Refuses if and only if some bucket holds more than 65535 ids or more than 16 beyond the number of cells; otherwise a permutation with each bucket contiguous, in the buffer the code returns |
| `SegmentSort.PlaceIds` | src/build.cc:494-512 | Each of the three ways of placing leaves a permutation grouped by bucket |
| `MultiHead.EveryRunScatters` | src/build.cc:673-726 | At the join of any interleaving every slot is written and the shadow is a permutation of the ids grouped by segment |
| `MultiHead.RunIsSafe` | src/build.cc:673-726 | In no reachable state is an id dropped or a slot written twice, and before the join some step is possible |
| `MultiHead.RunIsBounded` | src/build.cc:673-726 | No run takes more than as many steps per id as there are heads, and two |
| `MultiHead.RunReachesJoin` | src/build.cc:723-725 | However a run has begun it can be continued to the join |
| `MultiHead.NeverDropped` | src/build.cc:710-718 | After trying all heads an id has its slot, although cursors overshoot their ends |
| `MultiHead.WriteIsFresh` | src/build.cc:712-715 | The slot about to be written has never been written |
| `MultiHead.StepKeepsInv` | src/build.cc:702-720 | Every fetch-and-add and every write keeps the invariant |
| `MultiHead.RunInv` | src/build.cc:673-726 | The invariant holds in every state of every run |
| `MultiHead.JoinedShadow` | src/build.cc:723-725 | From the invariant at the join: permutation and grouping |
| `Division.RobisonExact` | include/utils.h:209-270 | For every width, non-zero divisor and word: the double-width sum does not wrap and the shifted product is the quotient, in the power-of-two, round-up and round-down cases |
| `Division.DivisorMR.Init` | include/utils.h:209-251 | The shifting loop establishes the factor, shift and mode the quotient needs; zero is left as an invalid divisor |
| `Division.DivisorMR.Div` | include/utils.h:256-270 | The true quotient |
| `Division.DivisorMR.Mod` | include/utils.h:272-278 | The true remainder |
| `Division.RoundUpErrorIs` | include/utils.h:237-248 | The wrapped word sum recovers exactly how far rounding up overshoots |
| `Division.LkkExact` | include/utils.h:312-330 | One product gives quotient and remainder |
| `Division.LkkDivExact` | include/utils.h:312-322 | True quotient for every non-zero divisor, also 1, whose factor wraps to 0 |
| `Division.LkkModExact` | include/utils.h:324-330 | True remainder for every non-zero divisor, also 1 |
| `Division.DivisorLKK.Div` | include/utils.h:312-322 | The true quotient |
| `Division.DivisorLKK.Mod` | include/utils.h:324-330 | The true remainder |
| `Division.FastDivExact` | src/cuda/shd.cu:45-83 | The device quotient, from single words with an explicit carry, is the true one in all three modes |
| `Division.CarryExact` | src/cuda/shd.cu:49-54 | Adding the low words and passing the carry up gives the high word of the full sum |
| `Division.FastDiv.Make` | src/cuda/shd.cu:86-120 | The host-side constructor establishes factor, shift and mode |
| `Division.FastDiv.Div` | src/cuda/shd.cu:45-55 | The true quotient |
| `Division.FastDiv.Mod` | src/cuda/shd.cu:57-59 | The true remainder |
| `PackFormat.SkewMapMonotone` | src/internal.h:184-187 | Larger masked codes never map to smaller cells, and no code maps beyond the number of cells |
| `PackFormat.SkewMapInFigures` | src/pack_format.h:19-30 | With x the low 31 bits of the code the map is `x * (x + 429496729)` divided by the share of a cell of `2147483647 * (2147483647 + 429496729)`, rounded up as little as possible |
| `PackFormat.SizesInFigures` | src/pack_format.h:23-48 | A cell for every five items, `2 * item + 1` places, sections of 224 places, each rounded up as little as possible |
| `PackFormat.SkewMapInRange` | src/internal.h:184-187 | A code maps inside the cells if and only if it is not all ones or the number of cells does not divide the span |
| `PackFormat.SkewMapEscapes` | src/pack_format.h:27-30 | With at most five items the all-ones code maps past the only cell |
| `PackFormat.TopQuotient` | src/pack_format.h:27-30 | The largest code maps to the number of cells exactly if that number divides the span, and below it otherwise |
| `PackFormat.SkewNoOverflow` | src/pack_format.h:19-34 | No 64-bit product or rounding sum overflows for any 32-bit item count |
| `PackFormat.SkewMapFast` | src/internal.h:184-187 | The map computed through the reciprocal is the same map |
| `Rank.Section.CountsAgree` | src/search.cc:76-88 | The 64-bit host count and the 32-bit device count are both the number of set bits strictly below the position |
| `Rank.SearchRank` | src/search.cc:76-92 | Step plus count is the rank in the whole bitmap, on host and device |
| `Rank.BuildSections` | src/build.cc:570-589 | The sections hold the bitmap and its ranks, and the final step is the number of set bits, so the closing assertion holds |
| `Rank.RankAscends` | src/search.cc:76-88 | Ranks of set positions are strictly ascending |
| `Pipeline.Pipeline2` | src/pipeline.h:93-120 | Two stages that may read what the last one writes, as long as it only changes what its own index sees: the result of the plain loop over the original, for every batch length and ring length |
| `Pipeline.Pipeline3` | src/pipeline.h:122-162 | Three stages, likewise |
| `Pipeline.Pipeline4` | src/pipeline.h:164-219 | Four stages, likewise |
| `Pipeline.Pipeline7` | src/pipeline.h:221-333 | Seven stages, likewise |
| `Pipeline.CallLog` | src/pipeline.h:93-333 | The plain loop calls its last stage exactly once per index, in order, on the value composed by the earlier stages |
| `Pipeline.LoopIsConsume` | src/pipeline.h:93-333 | The loop that computes each index from start to end on the shared state gives the same as the loop over values computed before anything was written |
| `Pipeline.Steady7` | src/pipeline.h:284-293 | In the steady state the rings keep holding the values of the next indices, turn after turn |
| `Pipeline.Turn7` | src/pipeline.h:285-292 | One turn: one value enters each of the six rings and one leaves it |
| `Pipeline.Steady4` | src/pipeline.h:197-203 | The same for four stages |
| `Pipeline.Fill4` | src/pipeline.h:184-195 | The filling phase leaves each ring with the values of the next indices |
| `Pipeline.Drain4` | src/pipeline.h:204-218 | The draining phase finishes the remaining indices in order |
| `Packs.LookupIsMap` | src/shd.cc:208-223 | On a well-built pack the lookup is map lookup for every key, stored or foreign, also when a foreign position falls in the next segment or equals the item count |
| `Packs.EveryLineIsARecord` | src/shd.cc:208-223 | Whatever position below the item count a key gets, the line there is a record at its own position |
| `Packs.StoresDistinct` | src/build.cc:950-987 | The records of a well-built pack have distinct keys |
| `Query.StagesCompose` | src/search.cc:43-92 | The stages of the batch search compose to the scalar position |
| `Query.PositionInFigures` | src/search.cc:43-92 | The scalar position from the words of the fingerprint: low 16 bits of the first modulo the segments, the skew map of the second, the displacement hash under the seed of the cell modulo `2 * size + 1`, and the set bits before that place behind the items of earlier segments |
| `Query.AnswerIsSearch` | src/search.cc:138-156 | The staged search of one key is the scalar search |
| `Query.BatchLocate` | src/search.cc:118-131 | Every output is the scalar position of the key read at the 32-bit product of index and length, and of the intended key whenever those products do not wrap |
| `Query.AddressesStraight` | src/search.cc:122-122 | All blocks of a batch are looked for at their place if and only if the last one begins below 2^32 |
| `Query.LastKeyWraps` | src/search.cc:122-122 | Of 2^29 + 1 keys of eight bytes the last is taken from the place of the first |
| `Query.BatchSearch` | src/search.cc:133-158 | Every output is the scalar search; hits plus misses are the batch |
| `Query.BatchSearchInPlace` | include/shd.h:106-109 | With the answers written over the keys, the answers are those of the keys as they were |
| `Query.BatchFetch` | src/search.cc:160-195 | Hits are counted and misses listed for every batch. Without wrap a block holds the value of its key if it is found, else the default, else what was there; with wrapped 32-bit products that is so for every block that no later one is written over |
| `Query.LastWriteStays` | src/search.cc:178-193 | The last block written to a place stays there, also when addresses wrap |
| `Query.DataIsFetched` | src/search.cc:183-193 | Writing the answers one by one leaves every block with its value, the default or what was there |
| `Query.MissesExact` | src/search.cc:183-190 | The miss list holds exactly the indices without an answer, strictly ascending |
| `Query.BatchSearchPatched` | src/search.cc:207-260 | For sets or inline packs of equal kind, key length and value length, whatever their seeds: every output is the patch answer if there is one, else the base answer, and on well-built tables what the patch map holds, else the base map; hits plus misses are the batch. Otherwise nothing is looked up |
| `Query.BatchSearchPatchedInPlace` | include/shd.h:106-109 | The same with the answers written over the keys |
| `Query.BatchFetchPatched` | src/search.cc:262-324 | The same for values in blocks of inline packs of equal lengths, with defaults and misses as for one table |
| `Query.SevenStagesCompose` | src/search.cc:216-258 | The seven stages of one key compose to the two-table lookup |
| `Query.OverlayIsOverride` | src/search.cc:207-260 | On well-built tables the two-table lookup is lookup in the base map overridden by the patch map |
| `Query.OverlaysAre` | src/search.cc:207-260 | So it is for all keys of a batch, whatever maps the tables store |
| `Filling.FillKeyValue` | src/build.cc:950-987 | One reader with any part of the records, window by window or line by line: it succeeds if and only if each of its records is well shaped, and then the line at the position of each holds its key and, if values are kept, its value |
| `Filling.FilledStretch` | src/build.cc:950-987 | What a reader leaves: its lines at their positions and every other line as it was |
| `Filling.FillInTurn` | src/build.cc:995-1001 | One reader after the other: together they place the lines of all records |
| `Filling.AnyOrderFills` | src/build.cc:1002-1018 | Concurrent readers: the bytes of all lines stored in any order whatever leave the same space, line for line |
| `Filling.CheckShapes` | src/build.cc:1006-1018 | The failure flag after the join: raised exactly if some record of some reader is ill shaped |
| `Filling.FillInlineKeyValue` | src/build.cc:989-1029 | Bad input exactly if some key has the wrong length or, where values are kept, some value; failed output exactly if the write fails then; otherwise what is written stores exactly the records of all readers, or their bare keys without values |
| `Filling.WindowPositions` | src/search.cc:386-408 | The staged positions of a window are the scalar positions |
| `Filling.BatchFindPos` | src/search.cc:328-375 | For every key the position of its line, or none |
| `SeparatedValues.VarIntSize` | src/build.cc:1031-1037 | The length of the varint |
| `SeparatedValues.VarIntBytes` | src/build.cc:1039-1048 | Byte `i` of a varint holds bits `7 * i` to `7 * i + 6` and says whether anything is left beyond |
| `SeparatedValues.WriteVarInt` | src/build.cc:1039-1048 | Writes exactly the varint, unless the output fails; ten bytes hold any 64-bit size |
| `SeparatedValues.WriteValue` | src/build.cc:1106-1110 | One value behind the varint of its length, or the first call that failed |
| `SeparatedValues.SeparatedValue` | src/shd.cc:177-197 | The reading loop computes the recursive reading, at most five septets |
| `SeparatedValues.ReadExact` | src/shd.cc:177-197 | From arbitrary bytes a value is read exactly if one of the first five is below 128 and as many bytes follow it as the seven-bit groups up to it say, and it is those bytes |
| `SeparatedValues.ReadBack` | src/shd.cc:177-197 | A written varint of up to 35 bits followed by its value is read back with the right start and length |
| `SeparatedValues.OffsetFieldRoundTrip` | src/internal.h:212-219 | An offset field reads back as the offset modulo 2^48 |
| `SeparatedValues.OffsetBytes` | src/internal.h:216-219 | Byte `k` of the field holds bits `8 * k` to `8 * k + 7` of the offset |
| `SeparatedValues.ValueRoundTrip` | src/shd.cc:199-206 | The offset stored in a line leads to exactly the value of its record |
| `SeparatedValues.AssignOffsets` | src/build.cc:1056-1095 | The first pass over one reader goes on where the reader before stopped: it accepts exactly the acceptable records, with the offset of each in the stream of all values |
| `SeparatedValues.FillOffsets` | src/build.cc:1056-1098 | Over all readers: the first record that is not acceptable decides the status; otherwise every line is placed with its offset |
| `SeparatedValues.WriteValues` | src/build.cc:1103-1113 | The second pass writes the same stream the offsets refer to, or gives up at the first call that fails |
| `SeparatedValues.FillSeparatedKeyValue` | src/build.cc:1050-1121 | The first record with a key of another length, a value of 2^35 bytes or more or an offset of 2^48 or more decides the status, and nothing is written; else the first failing call of the output; on success the pack stores exactly the records |
| `SeparatedValues.SeparatedLookupIsMap` | src/shd.cc:208-223 | Lookup with separated values is map lookup |
| `PackLayout.DumpIndex` | src/build.cc:824-856 | Writes header, part sizes, cells, padding and sections; without segments nothing is written, and the first call of the output that fails ends it |
| `PackLayout.CreatePackView` | src/shd.cc:25-98 | Opens the bytes if and only if they hold a pack, and gives exactly what they mean, for arbitrary bytes |
| `PackLayout.PackRoundTrip` | src/shd.cc:25-98 | Within the 32-bit bound a written pack is accepted and loads as the same pack: kind, lengths, seed, segments with cells and sections, lines and values |
| `PackLayout.IndexBack` | src/shd.cc:62-84 | Every part of a written index stands where the loader looks for it |
| `PackLayout.HeaderBack` | src/pack_format.h:38-48 | The header fields are read back |
| `PackLayout.HeaderInFigures` | src/pack_format.h:36-62 | Which byte of an accepted pack holds what: magic, kind, lengths, seed, 48-bit item count, number of segments from 1 to 256, and the size of each segment |
| `PackLayout.SegmentInFigures` | src/shd.cc:62-84 | Where the cells and the sections of each segment lie, from the sizes alone |
| `PackLayout.SectionInFigures` | src/pack_format.h:32-35 | A section is seven little-endian words of bitmap and the count before it |
| `PackLayout.LinesInFigures` | src/shd.cc:86-96 | Lines follow the sections, values the lines |
| `PackLayout.AcceptedIsOrdered` | src/shd.cc:62-95 | In any accepted pack the segments' cells and sections are consecutive, disjoint and inside, and the sections follow the cells if and only if the index is below the 32-bit bound |
| `PackLayout.AlignUpExact` | src/shd.cc:78-78 | The alignment moves an offset up exactly below the 32-bit bound; beyond it moves it back |
| `PackLayout.BeyondTheBound` | src/shd.cc:62-84 | Six segments of the largest size are beyond the bound: their sections would start before their cells end |
| `PackLayout.LoadCells` | src/shd.cc:63-77 | The first pass finds the cells of every segment, or the bytes hold no pack |
| `PackLayout.LoadSections` | src/shd.cc:78-84 | The second pass finds the sections, or the bytes hold no pack |
| `PackLayout.CheckHeader` | src/shd.cc:29-43 | The falling-through type checks accept exactly the headers with the magic word, a known kind with the lengths it needs, and 1 to 256 segments |
| `Building.BuildAttempts` | src/build.cc:911-932 | Attempts under new seeds, each but the last out of chance or a conflict within its limit: out of chance is reported only with all retries used up, a conflict then or with one conflict more than allowed, each attempt with its own reason; on OK the table is a minimal perfect hash of the ids of all records |
| `Building.Fill` | src/build.cc:938-942 | If the records fit the pack, in figures, only the output can fail; if not, the first that does not decides; on success the lines and values store exactly the records |
| `Building.BuildAndDump` | src/build.cc:894-943 | Bad input for no, more than 256 or empty readers, bad keys, segments without a size or records that do not fit, and for nothing else; failed output only when the output gave up or the records do not fit; on OK the output holds exactly the bytes of a pack built from all records |
| `Building.DetectKeyValueLen` | src/build.cc:1131-1151 | The lengths of the first record of all, if it has a key of 1 to 255 bytes and, where asked for, a value of 1 to 65535 |
| `Building.BuildPack` | src/build.cc:1123-1211 | Any of the public builds from its records alone: bad input also for a first record without the lengths of the kind; otherwise the lengths of the pack are those of that record |
| `Building.SafeTotal` | src/build.cc:833-847 | Below 5 * (2^32 - 1331) records the index is below the bound of the alignment, however they fall into segments |
| `Building.BuiltWritable` | src/build.cc:894-943 | What a build and a fill leave has all that the round trip asks for, if the index is in bound |
| `Building.BuiltLookup` | src/shd.cc:208-223 | Lookup in what was built is map lookup in the records, inline or separated; in a set it finds exactly the keys of the records |
| `Building.BuildAndLoad` | src/shd.cc:25-98 | Records are built, written, loaded and searched: on OK every lookup is map lookup in the records, and what is loaded is what was built whenever the index is in bound, so always below the safe total |
| `Building.BuiltIsWellBuilt` | src/build.cc:1123-1211 | What was built is a well-built base for patches and rebuilds |
| `Building.RebuiltAnswers` | src/build.cc:1372-1393 | A pack built from what the readers of a rebuild deliver answers every key from the base map overridden by the patches |
| `Feasible.OrdinaryIds` | src/internal.h:184-187 | All ids are in range of their cells unless the low 31 bits of the second word of one are all ones |
| `Feasible.AttemptsCanRun` | src/build.cc:673-822 | Whatever the readers and seeds, the threads of all attempts have runs that join, so the builds do not speak of nothing |
| `Feasible.FillsCanRun` | src/build.cc:1002-1018 | So have the threads that fill the lines |
| `Feasible.RebuildCanRun` | src/build.cc:1314-1363 | So have the threads that mark the lines of any patches for a well-built base |
| `RebuildClaims.EveryRunClaims` | src/build.cc:1315-1363 | In every interleaving the preparation fails if and only if a reader has a bad key or a line is hit twice; otherwise the marks are exactly the lines hit and every shard counts its unmarked lines |
| `RebuildClaims.WinIsFresh` | src/internal.h:155-164 | A compare-and-swap that succeeds marks a line nobody had marked, and only that bit |
| `RebuildClaims.StepKeepsInv` | src/build.cc:1320-1356 | Every load, swap (lucky or not), count and subtraction keeps the invariant |
| `RebuildClaims.NeverStuck` | src/build.cc:1319-1360 | Before all threads have returned some step is always possible |
| `RebuildClaims.RunReachesJoin` | src/build.cc:1319-1363 | However a run has begun it can be continued to the join |
| `RebuildClaims.RunInv` | src/build.cc:1314-1363 | The invariant holds in every state of every run |
| `RebuildClaims.CountsNeverWrap` | src/build.cc:1353-1355 | In every reachable state the unsigned count of a shard is between 0 and the shard's size |
| `RebuildClaims.FindShard` | src/build.cc:1333-1342 | The binary search finds the shard of a line |
| `RebuildClaims.ClaimAlone` | src/build.cc:1273-1302 | With one reader: the same marks and count, or the same failure |
| `Rebuild.RebuildReader.Read` | src/build.cc:1234-1255 | Delivers the next unmarked line, then the patch: the first record of the rest, or at least its key if only that is asked for, and the rest loses exactly it |
| `Rebuild.ListReader.Read` | include/utils.h:137-143 | The next record, or at least its key |
| `Rebuild.RebuildReader.Reset` | src/build.cc:1227-1230 | Everything is to be delivered again |
| `Rebuild.RebuildReader.Total` | src/build.cc:1231-1233 | The number of records the reader delivers |
| `Rebuild.ReadAll` | src/build.cc:1219-1262 | Reading `total()` times gives every record once, in order, whole or by its key |
| `Rebuild.PrepareForRebuild` | src/build.cc:1264-1370 | Readers exist if and only if the base has lines, there are 1 to 256 patches and no more than items, no key is bad and no line is hit twice; then there is one per patch, with its shard and marks that are exactly the lines hit |
| `Rebuild.DeliveredOnce` | src/build.cc:1219-1262 | Together the readers deliver each unmarked base record once and each patch record once |
| `Rebuild.RebuildIsOverride` | src/build.cc:1372-1393 | With distinct patch keys the delivered records have distinct keys and their map is the base map overridden by the patch map, inline or separated |
| `Rebuild.DistinctKeysNeverFail` | src/build.cc:1314-1363 | On a well-built base distinct keys of the right length never make the preparation fail |
| `Rebuild.HitsAreMarks` | src/build.cc:1323-1348 | The marks are the lines found for the keys of all patches |
| `Rebuild.RebuildReaders` | src/build.cc:1264-1370 | From patches with distinct keys to readers that deliver the overridden map |
| `Rebuild.ReadOverridden` | src/build.cc:1372-1393 | What is read from all readers, record by record, is the base map overridden by the patch map, with no key twice |
| `Rebuild.RebuiltIsOverlay` | src/search.cc:207-260 | A pack built from the delivered records answers every key as the two-table lookup over base and patch |
| `StagingRing.RunBatch` | src/cuda/shd_host.cc:226-279 | Succeeds if and only if setup and all chunks, of the size the operation asks for, go through; then outputs, hits and misses are those of the whole batch, and the chunks were collected in exactly the order they begin; also after a failure those collected are the first ones in order, and no lane keeps a chunk |
| `StagingRing.StartsExact` | src/cuda/shd_host.cc:252-265 | The chunks begin at the multiples of the capacity and tile the batch |
| `StagingRing.CapacityFor` | src/cuda/shd_host.cc:229-235 | A batch for one lane is one chunk; for two lanes chunks have between 256 and 32768 keys |
| `StagingRing.Collect` | src/cuda/shd_host.cc:196-224 | Puts one chunk where it belongs; the begin of the chunk minus the hits so far is the number of misses so far |
| `StagingRing.SendNext` | src/cuda/shd_host.cc:257-265 | A lane is collected before it is reused, and the chunks in flight continue what is collected |
| `StagingRing.Drain` | src/cuda/shd_host.cc:266-269 | The remaining chunks are collected, the due lane first |
| `StagingRing.ChunkFits` | src/cuda/shd_host.cc:211-214 | The miss index neither underflows nor leaves the list |
| `StagingRing.Abandon` | src/cuda/shd_host.cc:270-276 | After a failure no lane keeps a chunk |
| `StagingRing.CollectedMeans` | src/cuda/shd_host.cc:208-217 | Hits and misses add up to the batch, and the list holds exactly the ascending global indices without an answer |
| `StagingRing.MissesJoin` | src/cuda/shd_host.cc:211-213 | The misses of two stretches are those of the first, then those of the second moved up |
| `StagingRing.LayoutFits` | src/cuda/shd_host.cc:48-61 | Room for every key, the default of a fetch behind them, and an output of 8 bytes, one byte or a value for each key; then misses and counter, each part aligned, none overlapping, no more left between than the alignment asks for |
| `StagingRing.GrowCapacity` | src/cuda/shd_host.cc:63-68 | Never less than asked for, nor than half as much again as now or the limit of the type; more than asked for only up to half as much again as now |
| `StagingRing.ChunkInFigures` | src/cuda/shd_host.cc:229-235 | The chunk is the largest of at most 32768 keys that takes no more than 4 MiB of keys and results, but at least 256; from two chunks on the batch is cut |
| `StagingRing.ChunkOf` | src/cuda/shd_host.cc:229-233 | A chunk has between 256 and 32768 keys |

## Left out

* Hash mixing and the generation of fingerprints: uninterpreted functions here.
* Files, memory mapping, huge pages, allocation failures, tracing, the source of seeds.
* Prefetching, cache lines, unaligned loads and unions: no effect on results. The variant of the Robison divisor with
  packed fields adds 1 to the factor instead of the numerator to the product, which is the same sum.
* The Bloom filter: one use of the pipeline.
* Null checks and argument checks of the public wrappers.
* CUDA runtime, streams, kernels and stable compaction on the device: each chunk's result is a parameter constrained by
  a contract, and may fail at any step.
* The threads that build the segments share no written memory and are modelled one after the other. The stretch of
  ids a segment works on is an array of its own.
* Threads that fill lines store their bytes in any order; the positions they compute are those of the sequential
  stages, and their flag is read after the join only.
* The compare-and-swap of the rebuild may fail spuriously without bound, so its runs have no bound on their steps;
  that every run can be continued to its join is `RebuildClaims.RunReachesJoin`.
* The counting column inside the table of marks is an array of its own.
* Record readers are finite replayable sequences; readers that change their answers between passes are not modelled.
- TableBuild.BuildTable: requires every id to be in range of the cells of its segment; see the skew map above.
- SegmentBuild.BuildSegment: the same requirement.
- Ingest.BuildAll: the same requirement.
- Building.BuildAndLoad: the same requirement; it promises the loaded pack only while the index is in bound.
