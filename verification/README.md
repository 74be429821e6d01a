# ForgeANN builder: verified model

ForgeANN builds a nearest-neighbour graph over vectors that may not fit in memory. This project
models the parts of the builder whose correctness is not visible from one function, and proves what
they promise for every input, every run and every interleaving:

- **ADSampling kernels.** A blocked scan drops candidates by partial distance against
  `threshold * ratio`. The masked tile code (scalar and 16-lane accumulation, stale thresholds, exact
  seeds) refines a scan of one row. The root scan, the directed leaf scan and the symmetric wavefront
  over block pairs are each exact on all inputs if and only if every boundary ratio is at least 1,
  which for the table the builder makes is a condition on dimension, group size and epsilon. Under any
  ratios the wavefront offers each ordered pair of rows exactly once and returns well-formed lists.
- **HashPrune reservoir.** Every run in which a target always has the same hash and distance leaves
  each offered target kept or dominated, and repeated offers never matter; over any stream every slot is
  an offer of its target that no later one beats. The order of offers does
  not matter either, whatever hashes and distances, if and only if all targets fit.
- **Read planning, window cache, gather, pipeline, direct I/O.** Plans are bijections on request
  positions with bounded amplification; the cache evicts the least recently used, and only what it has
  to; the planned, cached gather equals reading each id directly;
  the pipeline delivers the rows of a prefix of the request within its budget, and can deadlock exactly when there are two or
  more I/O workers and the batches together exceed the budget.
- **RobustPrune**: the selection is described choice by choice, round by round at 1, 1.2, 1.44, ..., and
  that description has one solution.
- **Exact leaf neighbours.** Full-matrix, blockwise and parallel-block paths emit the same edge
  sequence, which is that of the brute-force scan.
- **Small protocols around them:** tile cursor, in-order chunk stream, CAS budgets, bottom-k sampling.

Distances are exact reals; `f32::MAX` and infinity are the bound `Infinite`. HashPrune distances are
naturals in bit-pattern order, for which truncation to bf16 is division by 65536. A lane mask is the set
of its lanes. `dafny verify dfyconfig.toml` checks the whole project.

## Layout

| file | content |
|---|---|
| `Basics.dfy`, `Sorting.dfy` | shared notions; unstable sorting |
| `TopK.dfy` | bounded neighbour lists and what they must contain |
| `AdsSpec.dfy`, `AdsRoot.dfy` | the scan of one row; exactness of the root scan and its converse |
| `AdsKernel.dfy`, `AdsAssign.dfy`, `AdsLeaf.dfy`, `AdsDecoy.dfy` | the tile code, root assignment, directed leaf tiles and when they are exact |
| `Wavefront.dfy`, `WaveOrder.dfy`, `WaveSpec.dfy`, `WaveLog.dfy` | the symmetric leaf scan: pairs and seeds, order of visits, what visits do, what is offered |
| `WavefrontRun.dfy`, `WavefrontSchedule.dfy`, `WavefrontExact.dfy` | its kernels, the whole run, and when it is exact |
| `TileSchedule.dfy`, `ChunkStream.dfy`, `CasBudget.dfy` | cursor, reorder buffer, atomic budgets |
| `HashPrune.dfy`, `RobustPrune.dfy` | candidate reservoir, final pruning |
| `LeafKnn.dfy`, `LeafPaths.dfy` | exact leaf neighbours and the three paths |
| `ReadPlan.dfy`, `AlignedPlan.dfy`, `GatherPlan.dfy` | the three window planners |
| `WindowCache.dfy`, `PlannedGather.dfy`, `PointPipeline.dfy`, `PipelineRows.dfy`, `DirectIo.dfy` | cache, gather, pipeline and its data, file I/O |
| `Sampling.dfy` | bottom-k sampling |

## Where code and expectation part

- Exactness of the sampling scans fails for every ratio table with a boundary ratio below 1
  (`AdsRoot.RootScanMisses`, `AdsDecoy.LeafScanMisses`, `WavefrontExact.WaveMisses`); for the table the
  code builds, it holds exactly when the first group covers all dimensions or
  `sqrt(group) + epsilon >= sqrt(dim)` (`AdsRoot.BuiltExactIff`, `WavefrontExact.BuiltLeafExactIff`).
- What HashPrune keeps depends on the order of offers exactly when there are more targets than slots
  (`HashPrune.OrderFreeIff`), also with distances that differ (`HashPrune.OrderMatters`).
- The pipeline can deadlock (`PointPipeline.DeadlockIff`): parked batches keep their permits.
- The aligned planner's windows overlap exactly when a row whose own cost exceeds the window limit is
  requested twice (`AlignedPlan.PlanAligned`, `AlignedPlan.OversizedRepeat`).
- A cache insert that is refused leaves the key's older value in place (`WindowCache.RefusedReplacement`);
  a hit is the last value offered exactly when that value was acceptable (`WindowCache.HitIsLastOfferedIff`).
- `get_distance` ignores the metric: every metric is squared L2, so RobustPrune and the leaf paths use it.
- A direct read past the end of the file succeeds with zeros; a buffered read fails (`DirectIo.DirectIoFile.ReadExactAt`).

## Model

| member | source | states |
|---|---|---|
| `TopK.TinyTopK.constructor` | ForgeANN/src/forgeann/adsampling.rs:722-728 | an empty list whose k is clamped to 1..32 |
| `TopK.TinyTopK.SiftUp` | ForgeANN/src/forgeann/adsampling.rs:794-799 | swapping the appended entry forward yields the sorted insertion behind equal distances |
| `TopK.TinyTopK.PushUnique` | ForgeANN/src/forgeann/adsampling.rs:751-767 | the visible entries become `Offer` of the old ones, full or not |
| `TopK.TinyTopK.PushEntry` | ForgeANN/src/forgeann/adsampling.rs:731-748 | the visible entries become `Push` of the old ones: a listed index is ignored |
| `TopK.BestPush` | ForgeANN/src/forgeann/adsampling.rs:731-748 | pushing an unseen candidate with its true distance keeps the list the best for the enlarged candidate set |
| `TopK.BestSkip` | ForgeANN/src/forgeann/adsampling.rs:744-747 | a candidate at or beyond the threshold may be dropped without losing exactness |
| `TopK.ThresholdFalls` | ForgeANN/src/forgeann/adsampling.rs:770-776 | thresholds never rise, so a stale threshold is only more permissive |
| `TopK.BestUnique` | ForgeANN/src/forgeann/adsampling.rs:715-800 | two exact lists for the same candidates have the same distances |
| `TopK.PushAllNearest` | ForgeANN/src/forgeann/adsampling.rs:862-868 | pushing all candidates in index order lists the k first by (distance, index) |
| `TopK.NearestUnique` | ForgeANN/src/forgeann/adsampling.rs:862-868 | that list is unique, indices included |
| `TopK.RowTopK.Push` | ForgeANN/src/forgeann/leaf_build.rs:743-771 | the visible entries become `Offer` of the old ones; shifting replaces sifting |
| `TopK.RowTopK.ShiftIn` | ForgeANN/src/forgeann/leaf_build.rs:751-769 | shifting from the back inserts behind the last entry that is not farther and leaves the rest of the buffer |
| `AdsSpec.PrunedIsFar` | ForgeANN/src/forgeann/adsampling.rs:1299-1313 | with ratios of at least 1, a candidate dropped at any boundary has a full distance that does not beat the bound |
| `AdsSpec.SurvivesIff` | ForgeANN/src/forgeann/adsampling.rs:1215-1256 | any ratios: a candidate survives exactly when at every multiple of the group and at the last dimension the bound is infinite or the partial distance is below bound x ratio |
| `AdsSpec.ConservativeIff` | ForgeANN/src/forgeann/adsampling.rs:1215-1256 | ratios are conservative exactly when the ratio at each of those boundaries is at least 1 |
| `AdsSpec.PushLanesBest` | ForgeANN/src/forgeann/adsampling.rs:1130-1144 | scanning the lanes of a block against its starting threshold keeps the list best for everything seen, exact when ratios are conservative |
| `AdsSpec.BlockStepBest` | ForgeANN/src/forgeann/adsampling.rs:1163-1285 | one block adds exactly its open lanes to the candidates the list is best for |
| `AdsRoot.RootScanExact` | ForgeANN/src/forgeann/adsampling.rs:1163-1285 | with every boundary ratio at least 1 the seeded, pruned scan returns the list of the exhaustive scan, ties included |
| `AdsRoot.RootScanCount` | ForgeANN/src/forgeann/adsampling.rs:1163-1285 | any ratios: a query gets min(max(fanout, 1), 32, leaders) leaders |
| `AdsRoot.RootScanMisses` | ForgeANN/src/forgeann/adsampling.rs:1299-1313 | for every table with a smaller boundary ratio there are leaders on which the scan misses the nearest |
| `AdsRoot.RootExactIff` | ForgeANN/src/forgeann/adsampling.rs:1163-1285 | exact on all queries, leaders and fan-outs if and only if every boundary ratio is at least 1 |
| `AdsRoot.PdxRatioAtLeastOne` | ForgeANN/src/forgeann/adsampling.rs:458-464 | a ratio of the table before the last dimension is at least 1 exactly when sqrt(visited) + epsilon >= sqrt(dim) |
| `AdsRoot.PdxRatioValue` | ForgeANN/src/forgeann/adsampling.rs:458-464 | ratio x dim = (sqrt(visited) + epsilon)^2 strictly between 0 and dim |
| `AdsRoot.BuildContext` | ForgeANN/src/forgeann/adsampling.rs:345-362 | a table exists exactly for a valid configuration; it is 1 at 0 and at dim, and in between ratio x dim = (sqrt(visited) + epsilon)^2 |
| `AdsRoot.FirstBoundaryDecides` | ForgeANN/src/forgeann/adsampling.rs:345-372 | in a built table all boundary ratios from some point on are at least 1 exactly when the next one is |
| `AdsRoot.BuiltExactIff` | ForgeANN/src/forgeann/adsampling.rs:345-372 | with the table built from dimension, epsilon and group size, the root scan is exact on every input if and only if group >= dim or sqrt(group) + epsilon >= sqrt(dim) |
| `AdsKernel.BuildBlock` | ForgeANN/src/forgeann/adsampling.rs:509-524 | the transposed block holds lane by lane the rows it was built from |
| `AdsKernel.BuildLayout` | ForgeANN/src/forgeann/adsampling.rs:481-494 | the blocks partition the rows in order, 64 at a time |
| `AdsKernel.AccumulateScalar` | ForgeANN/src/forgeann/adsampling.rs:1452-1470 | every masked lane goes from the partial distance at the group start to that at its end; other queries' cells stay |
| `AdsKernel.AccumulateWide` | ForgeANN/src/forgeann/adsampling.rs:1505-1618 | the 16-lane path does the same for the masked lanes although it touches whole lane groups |
| `AdsKernel.UseScalarPath` | ForgeANN/src/forgeann/adsampling.rs:1472-1501 | the sparse fallback is taken exactly when lanes are active and they are below the tile threshold, or every non-empty 16-lane group is sparse |
| `AdsKernel.AccumulateTile` | ForgeANN/src/forgeann/adsampling.rs:1393-1450 | whichever path is chosen, all masked lanes of all queries reach the group's end |
| `AdsKernel.PruneMask` | ForgeANN/src/forgeann/adsampling.rs:1299-1313 | keeps exactly the active lanes below the scaled threshold |
| `AdsKernel.PushActive` | ForgeANN/src/forgeann/adsampling.rs:1130-1144 | pushing the surviving lanes in lane order is the row scan's step for the block |
| `AdsKernel.RunGroups` | ForgeANN/src/forgeann/adsampling.rs:1215-1256 | after all groups a lane is active exactly when it survives every boundary, with its full distance; dropped lanes are counted |
| `AdsKernel.ScanBlockTile` | ForgeANN/src/forgeann/adsampling.rs:1163-1285 | each query's list after a block is that of its own row scan; full plus pruned evaluations equal the lanes offered |
| `AdsAssign.BaseMask` | ForgeANN/src/forgeann/adsampling.rs:1094-1102 | the block's mask holds exactly its leaders that are not seeds |
| `AdsAssign.AssignTile` | ForgeANN/src/forgeann/adsampling.rs:1163-1285 | each query gets its row scan's leaders, min(max(fanout, 1), 32, leaders) of them; full + pruned = queries x leaders for any ratios; with conservative ratios the exhaustive index list |
| `AdsLeaf.LeafScanBest` | ForgeANN/src/forgeann/adsampling.rs:3241-3356 | each row of two or more lists min(max(k, 1), 32, n-1) other rows, once each, sorted, with true distances; with conservative ratios the distances of brute force at that length |
| `AdsLeaf.LeafCount` | ForgeANN/src/forgeann/adsampling.rs:3241-3260 | a list that is best for the other rows has min(max(k, 1), 32, n-1) entries, and when exact the brute-force distances at that length |
| `AdsLeaf.BruteForceBest` | ForgeANN/src/forgeann/adsampling.rs:849-860 | the exhaustive scan of all other rows is best |
| `AdsLeaf.MatchesBruteForce` | ForgeANN/src/forgeann/adsampling.rs:849-860 | any list that is best for all other rows has the brute-force distances |
| `AdsDecoy.LeafScanMisses` | ForgeANN/src/forgeann/adsampling.rs:3241-3356 | for every table with a smaller boundary ratio and every seed count there is a leaf on which a row misses its nearest neighbour |
| `AdsDecoy.LeafExactIff` | ForgeANN/src/forgeann/adsampling.rs:3241-3356 | the directed leaf scan has the brute-force distances on every row of every leaf if and only if every boundary ratio is at least 1 |
| `AdsLeaf.ClearRange` | ForgeANN/src/forgeann/adsampling.rs:1053-1066 | removes exactly the lanes whose rows lie in the range |
| `AdsLeaf.ActiveMask` | ForgeANN/src/forgeann/adsampling.rs:3359-3389 | the cleared mask is exactly the rows of the block that are neither the row nor one of its wrapped seeds |
| `AdsLeaf.RowTile` | ForgeANN/src/forgeann/adsampling.rs:3241-3356 | every row of a tile gets its own scan's list, independent of its tile |
| `AdsLeaf.RowRange` | ForgeANN/src/forgeann/adsampling.rs:3025-3047 | a range of rows, tile by tile, yields each row's own scan in order, min(max(k, 1), 32, n-1) entries each |
| `Wavefront.PairSym` | ForgeANN/src/forgeann/adsampling.rs:2957-2973 | whether a pair survives does not depend on which row asks |
| `Wavefront.PairStepBest` | ForgeANN/src/forgeann/adsampling.rs:2535-2643 | a row that meets a block through pairs pruned against the maximum of two stale thresholds stays best |
| `Wavefront.MutualSeed` | ForgeANN/src/forgeann/adsampling.rs:2507-2533 | each row's seeds are exactly the other rows within seed_exact places, cyclically; each seeded pair is offered once in each direction; every list is best for its seeds |
| `WavefrontRun.PrunePairMask` | ForgeANN/src/forgeann/adsampling.rs:2957-2973 | keeps exactly the pairs below the scaled maximum of both thresholds |
| `WavefrontRun.PairGroups` | ForgeANN/src/forgeann/adsampling.rs:2746-2806 | after all groups the masks hold exactly the surviving pairs with their full distances |
| `WavefrontRun.FindSurvivors` | ForgeANN/src/forgeann/adsampling.rs:2535-2628 | the scan starts from exactly the unseeded pairs of the two blocks; the survivors are those that pass every boundary at the thresholds held before the pair |
| `WavefrontRun.CommitPairs` | ForgeANN/src/forgeann/adsampling.rs:2630-2642 | pushing both directions in scan order gives every row of both blocks exactly what a one-sided scan would |
| `WavefrontSchedule.OffDiagonal` | ForgeANN/src/forgeann/adsampling.rs:2535-2643 | a block pair gives every list what the specification of the visit says, and offers each of its pairs once in each direction |
| `WavefrontSchedule.Diagonal` | ForgeANN/src/forgeann/adsampling.rs:2645-2733 | the same for a block against itself, without self pairs |
| `WaveSpec.RowVisit` | ForgeANN/src/forgeann/adsampling.rs:2535-2733 | a row that meets its next block in a visit is afterwards best for one block more; other rows keep their lists |
| `WaveSpec.MetSoFar` | ForgeANN/src/forgeann/adsampling.rs:2472-2492 | at any point of the schedule a block has met 0, 1, ..., m-1, never skipping or repeating |
| `WaveSpec.RunBest` | ForgeANN/src/forgeann/adsampling.rs:2472-2492 | at any point of a run a row's list is best for its seeds and the blocks met so far |
| `WaveOrder.MeetsInOrder` | ForgeANN/src/forgeann/adsampling.rs:2472-2492 | for any number of blocks, every block meets 0, 1, 2, ... in order, each once |
| `WavefrontSchedule.OffersNext` | ForgeANN/src/forgeann/adsampling.rs:2556-2567 | the next visit of the schedule offers a row exactly candidates it has not considered, and no others |
| `WavefrontSchedule.AllLogged` | ForgeANN/src/forgeann/adsampling.rs:2472-2533 | at the end of a run each ordered pair of distinct rows has been offered exactly once, and no row to itself |
| `WavefrontSchedule.WavefrontTopK` | ForgeANN/src/forgeann/adsampling.rs:2447-2505 | any ratios: each ordered pair of distinct rows is seeded or scanned exactly once, the lists are those of the scheduled visits, with min(max(k, 1), 32, n-1) distinct other rows, sorted, at true distances; conservative ratios: the distances of brute force at that length |
| `WavefrontExact.WaveMisses` | ForgeANN/src/forgeann/adsampling.rs:2957-2973 | for every table with a smaller boundary ratio and every seed count, every run on a certain leaf gives a row a wrong distance, although pairs are held against the larger threshold |
| `WavefrontExact.WaveExactIff` | ForgeANN/src/forgeann/adsampling.rs:2447-2733 | every run on every leaf has the brute-force distances if and only if every boundary ratio is at least 1 |
| `WavefrontExact.BuiltLeafExactIff` | ForgeANN/src/forgeann/adsampling.rs:345-372 | for the built table both leaf scans are exact on every leaf if and only if group >= dim or sqrt(group) + epsilon >= sqrt(dim) |
| `TileSchedule.StepKeeps` | ForgeANN/src/forgeann/adsampling.rs:3159-3199 | claim, compute and publish keep the claims contiguous and every claim with exactly one worker or published |
| `TileSchedule.RunInv` | ForgeANN/src/forgeann/adsampling.rs:3159-3199 | so in every interleaving with any tile sizes |
| `TileSchedule.ScheduleIndependent` | ForgeANN/src/forgeann/adsampling.rs:3094-3233 | once all workers have published, any sorted order of the chunks concatenates to the sequential result |
| `TileSchedule.Finalize` | ForgeANN/src/forgeann/adsampling.rs:3201-3233 | sorting the chunks by first row and concatenating what they hold yields, for any schedule, row r's result at r, for all rows |
| `TileSchedule.ComputeChunk` | ForgeANN/src/forgeann/adsampling.rs:3174-3191 | the chunk a worker computes for its claim with the tile kernel holds each row's own scan |
| `TileSchedule.FinalizeLeaf` | ForgeANN/src/forgeann/adsampling.rs:3094-3233 | the output of any schedule over such chunks is, row by row, each row's own scan |
| `ChunkStream.Reorder` | ForgeANN/src/forgeann/adsampling.rs:1879-1945 | for any arrival order the outcome is that of taking chunks in order up to the first that never arrives |
| `ChunkStream.LowestFailure` | ForgeANN/src/forgeann/adsampling.rs:1907-1944 | the returned error is that of the lowest-numbered failing chunk, and nothing after it is visited |
| `ChunkStream.NoErrorIff` | ForgeANN/src/forgeann/adsampling.rs:1907-1945 | no error exactly when every chunk is good and visited without failure; then all are visited in order |
| `CasBudget.StepKeeps` | ForgeANN/src/forgeann/adsampling.rs:142-178 | every load, exchange, spurious failure, peak update and release keeps the budget invariant |
| `CasBudget.RunInv` | ForgeANN/src/forgeann/adsampling.rs:142-178 | the invariant holds after every interleaving of any number of threads |
| `CasBudget.BudgetHeld` | ForgeANN/src/forgeann/io_planned_forgeann.rs:152-180 | reserved equals the sum of live reservations and never exceeds the budget; a worker grant is at least 1, at most the requested amount (or 1), and either all of it or all that was left when it was added; temp bytes are granted in full; the recorded peak never exceeds the true one, at most the budget or the one worker of a work-graph run |
| `CasBudget.GrantFair` | ForgeANN/src/forgeann/adsampling.rs:143-150 | a grant fits what was left; workers get all they ask for or all that is left, at least 1; temp bytes all or nothing |
| `CasBudget.Undisturbed` | ForgeANN/src/forgeann/adsampling.rs:146-178 | a request nobody interferes with is served exactly when a slot is free, or the whole amount of temp bytes, and the counter grows by a fair grant |
| `CasBudget.PeakExact` | ForgeANN/src/forgeann/adsampling.rs:3401-3410 | with no update in flight the recorded worker peak is exactly the most workers there ever were, counting work-graph runs, which use one worker without a reservation |
| `CasBudget.NothingLeaks` | ForgeANN/src/forgeann/adsampling.rs:249-255 | when all reservations are dropped the counter is zero |
| `CasBudget.CanRelease` | ForgeANN/src/forgeann/adsampling.rs:249-255 | a live reservation can always be subtracted without underflow |
| `HashPrune.OfferKeeps` | ForgeANN/src/forgeann/hash_prune.rs:551-586 | every offer keeps hash order, distinct targets and the capacity, consistent or not |
| `HashPrune.OfferAgain` | ForgeANN/src/forgeann/hash_prune.rs:552-557 | any distances: a present target is replaced exactly by an offer below its stored distance, and nothing else changes |
| `HashPrune.OfferNew` | ForgeANN/src/forgeann/hash_prune.rs:559-585 | any distances: a new target is added while there is room; otherwise it takes the place of the first farthest slot of its hash, or of all, exactly when it is nearer |
| `HashPrune.StreamNearest` | ForgeANN/src/forgeann/hash_prune.rs:551-586 | over any stream, every slot is an offer of its target, with its hash and truncated distance, that no later offer of it beats |
| `HashPrune.JustOffered` | ForgeANN/src/forgeann/hash_prune.rs:552-557 | right after an offer its target, if kept, is stored no farther than offered |
| `HashPrune.FullOffer` | ForgeANN/src/forgeann/hash_prune.rs:564-585 | a full reservoir swaps the candidate for the farthest of its hash, or the farthest of all if the hash is absent, exactly when it is nearer |
| `HashPrune.RunDominates` | ForgeANN/src/forgeann/hash_prune.rs:551-586 | after any consistent stream, a missing target faces a full reservoir in which every slot, or every slot of its present hash, is at most its distance |
| `HashPrune.RepeatIsIdle` | ForgeANN/src/forgeann/hash_prune.rs:551-586 | offering again anything offered before changes nothing: rejected and evicted targets never return |
| `HashPrune.RunDedup` | ForgeANN/src/forgeann/hash_prune.rs:551-586 | a stream equals itself with all repeats removed |
| `HashPrune.NearestSurvives` | ForgeANN/src/forgeann/hash_prune.rs:412-421 | a candidate nearer than every other one's truncated distance is always kept |
| `HashPrune.RunKeepsAll` | ForgeANN/src/forgeann/hash_prune.rs:559-562 | while distinct targets fit, all are kept |
| `HashPrune.OrderFreeIff` | ForgeANN/src/forgeann/hash_prune.rs:551-586 | for every capacity and every list of distinct targets: in every world all orders keep the same targets if and only if the targets fit |
| `HashPrune.RotationLoses` | ForgeANN/src/forgeann/hash_prune.rs:564-585 | with more targets than slots, moving the first offer to the end drops it in a world of equal candidates |
| `HashPrune.OrderMatters` | ForgeANN/src/forgeann/hash_prune.rs:564-585 | with capacity two and distances that differ, one order of three offers keeps a target that another drops |
| `HashPrune.Reservoir.RecomputeFarthest` | ForgeANN/src/forgeann/hash_prune.rs:483-495 | the cache names the first slot with the greatest distance |
| `HashPrune.Reservoir.InsertSlot` | ForgeANN/src/forgeann/hash_prune.rs:518-530 | hash-sorted insertion with a correct farthest cache |
| `HashPrune.Reservoir.ReplaceSlot` | ForgeANN/src/forgeann/hash_prune.rs:533-538 | removal and sorted insertion with a correct farthest cache |
| `HashPrune.Reservoir.Insert` | ForgeANN/src/forgeann/hash_prune.rs:551-586 | the slots become `Offer` of the old slots, which `OfferAgain` and `OfferNew` describe, and the farthest cache stays correct |
| `RobustPrune.OccludeLater` | ForgeANN/src/forgeann/final_prune.rs:115-136 | updates exactly the later factors that are not beyond alpha, each to the maximum with its quotient or to infinity at distance zero; fails exactly when one of them needs an unknown id or an unsupported metric |
| `RobustPrune.Round` | ForgeANN/src/forgeann/final_prune.rs:101-137 | one pass keeps the occlusion invariant and either fills the degree or leaves every factor above the round's alpha |
| `RobustPrune.RoundCovers` | ForgeANN/src/forgeann/final_prune.rs:100-139 | a finished round covers every unchosen candidate by an earlier chosen one |
| `RobustPrune.Saturate` | ForgeANN/src/forgeann/final_prune.rs:141-150 | extends the list with the nearest pool ids that are neither the location nor listed, one at a time, within the degree, and leaves none out while there is room |
| `RobustPrune.RobustPruneCandidates` | ForgeANN/src/forgeann/final_prune.rs:78-161 | each choice is, at its round's alpha 1.2^e, the first pool position not chosen and not occluded by those chosen before it, and at every earlier round's alpha it was occluded by those chosen in time; the rounds end at a full degree or with every other candidate occluded at the last 1.2^e <= alpha; distinct, without the location, within the degree; d(p,j) <= alpha d(i,j) for chosen pairs; saturation fills up; fails exactly when a round runs on two or more candidates with an unknown id or inner product |
| `RobustPrune.SelectionDetermined` | ForgeANN/src/forgeann/final_prune.rs:98-139 | two selections that meet the description of a finished run choose the same positions in the same rounds |
| `PointPipeline.StepMoves` | ForgeANN/src/forgeann/point_pipeline.rs:454-512 | every step moves exactly one batch one stage on and leaves all others where they are |
| `PointPipeline.RunInv` | ForgeANN/src/forgeann/point_pipeline.rs:105-147 | in every reachable state used bytes are the sum of live permits and within capacity; a run has at most seven steps per batch |
| `PointPipeline.OnePlace` | ForgeANN/src/forgeann/point_pipeline.rs:454-512 | each batch is in exactly one place |
| `PointPipeline.DeliveredInOrder` | ForgeANN/src/forgeann/point_pipeline.rs:492-512 | what has been consumed is always 0, 1, 2, ... |
| `PointPipeline.QueuesBounded` | ForgeANN/src/forgeann/point_pipeline.rs:451-452 | both queues hold at most the queue depth in every run |
| `PointPipeline.JobsFill` | ForgeANN/src/forgeann/point_pipeline.rs:451-452 | the job queue takes up to its depth before any worker takes a batch |
| `PointPipeline.CanMove` | ForgeANN/src/forgeann/point_pipeline.rs:416-518 | with one worker, or a budget for everything, an unfinished state always has a step |
| `PointPipeline.RunNotStuck` | ForgeANN/src/forgeann/point_pipeline.rs:416-518 | so no reachable state is stuck then |
| `PointPipeline.DoomedSticks` | ForgeANN/src/forgeann/point_pipeline.rs:492-506 | once the expected batch waits behind parked permits that leave it no room, the run extends to a stuck state |
| `PointPipeline.DeadlockIff` | ForgeANN/src/forgeann/point_pipeline.rs:416-518 | a stuck state is reachable exactly when there are two or more workers and the batches exceed the capacity together |
| `PointPipeline.CallFits` | ForgeANN/src/forgeann/point_pipeline.rs:430-444 | for every call, one batch per thread fits the budget, so none is over budget on its own |
| `PointPipeline.BatchRowsIs` | ForgeANN/src/forgeann/point_pipeline.rs:430-438 | a batch is the asked size, or the most rows of which every thread can hold one batch within the budget |
| `PointPipeline.CallIs` | ForgeANN/src/forgeann/point_pipeline.rs:431-452 | workers, queue depth, capacity and batch bytes of a call, in numbers |
| `PointPipeline.DeliveredPrefix` | ForgeANN/src/forgeann/point_pipeline.rs:439-443 | the ids delivered so far are a prefix of the request, all of it at the end |
| `PipelineRows.ReadBatch` | ForgeANN/src/forgeann/point_pipeline.rs:375-414 | a batch is read successfully exactly when its ids exist, and its buffer is then its rows |
| `PipelineRows.DeliveredRows` | ForgeANN/src/forgeann/point_pipeline.rs:416-518 | in every interleaving the buffers received so far, in order, are the flat rows of a prefix of the requested ids, of all of them at the end |
| `PointPipeline.CallDeadlockIff` | ForgeANN/src/forgeann/point_pipeline.rs:416-518 | the deadlock condition in terms of a call's own parameters |
| `ReadPlan.Emit` | ForgeANN/src/forgeann/io_runtime.rs:112-128 | appending a group keeps the plan grouped by window with right offsets |
| `ReadPlan.Extend` | ForgeANN/src/forgeann/io_runtime.rs:99-110 | the window grows to the first row that would break the row limit or the amplification, and no farther |
| `ReadPlan.Plan` | ForgeANN/src/forgeann/io_runtime.rs:72-133 | bijection on positions grouped by window with right rows; windows disjoint even with repeated ids, tight around requests and each within max(window limit, row) bytes; total rows <= amplification x requested, the amplification being the configured one if at least 1; byte and row totals exact |
| `ReadPlan.WindowRows` | ForgeANN/src/forgeann/io_runtime.rs:99-110 | each window keeps to the row limit and to the amplification of its own requests |
| `ReadPlan.WindowFits` | ForgeANN/src/forgeann/io_runtime.rs:73-110 | a window's bytes are at most the window limit, or one row where that is larger |
| `ReadPlan.GreedyFresh` | ForgeANN/src/forgeann/io_runtime.rs:99-110 | repeated ids are never split between windows |
| `AlignedPlan.ReadBytesAreBlocks` | ForgeANN/src/forgeann/io_runtime.rs:264-278 | the cost formula is the bytes of the alignment blocks spanned |
| `AlignedPlan.RowTouches` | ForgeANN/src/forgeann/io_runtime.rs:249-262 | a row's block range is exactly the alignment blocks its bytes overlap |
| `AlignedPlan.SubmittedIsCost` | ForgeANN/src/forgeann/external_store.rs:736-745 | the aligned length the reader submits is exactly the planned cost |
| `AlignedPlan.TouchedNext` | ForgeANN/src/forgeann/io_runtime.rs:195-201 | the extra blocks of the next row are exactly the ones no earlier row of the window touches |
| `AlignedPlan.ExtendAligned` | ForgeANN/src/forgeann/io_runtime.rs:168-218 | the touched-block count is the number of distinct blocks of the requested rows; growth stops at the first row over the limit or the amplification |
| `AlignedPlan.PlanAligned` | ForgeANN/src/forgeann/io_runtime.rs:135-240 | as for `Plan`; physical bytes equal what the reader submits; windows are disjoint if and only if no oversized row is requested twice |
| `AlignedPlan.WindowBytes` | ForgeANN/src/forgeann/io_runtime.rs:182-218 | each window's bytes are at most amplification x the bytes of the distinct blocks its requests touch, and at most the window limit or one row's cost |
| `AlignedPlan.OversizedRepeat` | ForgeANN/src/forgeann/io_runtime.rs:183-193 | the plan of a concrete request has overlapping windows: the same row twice |
| `GatherPlan.ExtendGap` | ForgeANN/src/forgeann/point_store.rs:226-238 | the window grows to the first large gap or full window, and no farther |
| `GatherPlan.CountDistinct` | ForgeANN/src/forgeann/point_store.rs:244-251 | counts the distinct ids of the window |
| `GatherPlan.BuildGatherPlan` | ForgeANN/src/forgeann/point_store.rs:189-293 | bijection on positions by window, disjoint windows that end at a gap over the limit or a full window; rows read = distinct ids + over-read rows; physical bytes are the windows' bytes, each in whole blocks, and = logical bytes + waste |
| `WindowCache.VectorWindowCache.constructor` | ForgeANN/src/forgeann/io_runtime.rs:343-351 | an empty cache |
| `WindowCache.VectorWindowCache.Get` | ForgeANN/src/forgeann/io_runtime.rs:364-378 | returns the cached value, and the recency list becomes `Touch` of the old one; order, byte count and map stay tied |
| `WindowCache.VectorWindowCache.Insert` | ForgeANN/src/forgeann/io_runtime.rs:381-400 | the recency list becomes `Put` of the old one, within budget |
| `WindowCache.VectorWindowCache.EvictToBudget` | ForgeANN/src/forgeann/io_runtime.rs:402-413 | the recency list becomes `Trim` of the old one |
| `WindowCache.TrimShortest` | ForgeANN/src/forgeann/io_runtime.rs:402-413 | eviction removes the shortest least-recent prefix that brings the bytes within budget |
| `WindowCache.AcceptedSurvives` | ForgeANN/src/forgeann/io_runtime.rs:381-400 | an accepted value is cached afterwards |
| `WindowCache.RunFresh` | ForgeANN/src/forgeann/io_runtime.rs:364-413 | over every run keys are distinct, bytes within budget, and each item holds its key's last accepted value |
| `WindowCache.RunByUse` | ForgeANN/src/forgeann/io_runtime.rs:364-413 | over every run the cached keys stand in the order of their last lookup or accepted insert |
| `WindowCache.GetKeeps` | ForgeANN/src/forgeann/io_runtime.rs:364-378 | over every run a lookup drops and adds nothing |
| `WindowCache.InsertEvicts` | ForgeANN/src/forgeann/io_runtime.rs:381-413 | over every run an accepted insert drops nothing, or exactly the items used no later than one for which what is left has no room; a refused one changes nothing |
| `WindowCache.HitIsLast` | ForgeANN/src/forgeann/io_runtime.rs:364-400 | a hit returns the last accepted value, and an accepted insert is a hit right after |
| `WindowCache.HitIsLastOfferedIff` | ForgeANN/src/forgeann/io_runtime.rs:364-400 | in every run, a hit returns the last value offered for its key if and only if that value was acceptable |
| `WindowCache.RefusedReplacement` | ForgeANN/src/forgeann/io_runtime.rs:381-385 | a concrete run in which a refused insert leaves the older value |
| `PlannedGather.ScatterWindow` | ForgeANN/src/forgeann/point_store.rs:295-310 | copying a window's rows completes exactly its group of positions and disturbs none before |
| `PlannedGather.SkipGroup` | ForgeANN/src/forgeann/external_store.rs:657-668 | walking the scatter while entries name the window ends exactly at the window's last entry |
| `PlannedGather.ReadEach` | ForgeANN/src/forgeann/point_pipeline.rs:253-267 | the reference: each id read on its own, failing exactly when one does not exist |
| `PlannedGather.Gather` | ForgeANN/src/forgeann/point_pipeline.rs:236-373 | succeeds exactly when the sizes agree and all ids exist; then row i is the store's row ids[i], for any ids and any truthful cache, also one that other workers use in between; the cache stays truthful also on failure |
| `LeafKnn.NormIdentity` | ForgeANN/src/forgeann/leaf_build.rs:957-979 | norms minus twice the product is the sum of squared differences, never negative |
| `LeafKnn.StableSorts` | ForgeANN/src/forgeann/leaf_build.rs:743-771 | repeated insertion is a stable sort: sorted, a permutation, equal distances in their order |
| `LeafKnn.OfferAllFront` | ForgeANN/src/forgeann/leaf_build.rs:743-771 | pushing into `RowTopK` keeps exactly the first k of the stable sort of all pushes |
| `LeafKnn.RowNearest` | ForgeANN/src/forgeann/leaf_build.rs:999-1008 | a row lists its min(k, n-1) nearest other rows, by distance and then index |
| `LeafKnn.RowIsBruteForce` | ForgeANN/src/forgeann/leaf_build.rs:999-1008 | that list is the brute-force scan the sampling kernels are compared with |
| `LeafKnn.RowPairs` | ForgeANN/src/forgeann/leaf_build.rs:1028-1049 | edges come in pairs: the m-th neighbour's DIRECT edge with ids, hash, distance and rank min(m+1, 255), then its MIRROR with ends and hash arguments swapped |
| `LeafKnn.LeafEdgeCount` | ForgeANN/src/forgeann/leaf_build.rs:1019-1050 | a leaf has 2 min(knn, n-1) edges per row |
| `LeafKnn.LeafEdgeAt` | ForgeANN/src/forgeann/leaf_build.rs:1019-1050 | at place 2(ik + m), with k = min(knn, n-1), stand the two edges between row i and its m-th nearest other row, at their true distance |
| `LeafKnn.NoNeighbours` | ForgeANN/src/forgeann/leaf_build.rs:1192-1201 | with k = 0 there is no edge, so the early returns lose nothing |
| `LeafPaths.ToDistances` | ForgeANN/src/forgeann/leaf_build.rs:968-979 | converting the Gram matrix in place yields every pair's squared distance |
| `LeafPaths.PairMatrix` | ForgeANN/src/forgeann/leaf_build.rs:983-989 | filling the upper half and mirroring it yields every pair's squared distance |
| `LeafPaths.EmitAll` | ForgeANN/src/forgeann/leaf_build.rs:1019-1063 | edges handed over in batches of 16384: none lost, none repeated, in row order |
| `LeafPaths.FullMatrixLeaf` | ForgeANN/src/forgeann/leaf_build.rs:957-1063 | emits exactly `LeafEdges`, by Gram matrix or by pairs |
| `LeafPaths.BlockwiseLeaf` | ForgeANN/src/forgeann/leaf_build.rs:1566-1680 | emits exactly `LeafEdges`, for any block size |
| `LeafPaths.ParallelBlock` | ForgeANN/src/forgeann/leaf_build.rs:1339-1433 | a block on its own emits exactly its rows' share of `LeafEdges` |
| `LeafPaths.FlushWave` | ForgeANN/src/forgeann/leaf_build.rs:1292-1300 | a wave's results in any order are flushed in block order |
| `LeafPaths.ParallelLeaf` | ForgeANN/src/forgeann/leaf_build.rs:1170-1301 | emits exactly `LeafEdges`, for any block size and wave width and whatever order the blocks of a wave finish in |
| `DirectIo.RoundUp` | ForgeANN/src/forgeann/direct_io.rs:185-195 | the least multiple of the alignment not below the value |
| `DirectIo.AlignmentIsPower` | ForgeANN/src/forgeann/direct_io.rs:62-67 | the alignment is a power of two; by its bounds, the least one from 4096 and the configured value on |
| `DirectIo.ReachIs` | ForgeANN/src/forgeann/direct_io.rs:145-168 | a write reaches to the end of the block of its last byte, or to its last byte without direct I/O |
| `DirectIo.DirectIoFile.ReadBuffered` | ForgeANN/src/forgeann/direct_io.rs:197-217 | short reads add up; fails exactly when the file ends early |
| `DirectIo.DirectIoFile.ReadZeroFilled` | ForgeANN/src/forgeann/direct_io.rs:219-237 | the file's bytes, zeros past its end |
| `DirectIo.DirectIoFile.ReadExactAt` | ForgeANN/src/forgeann/direct_io.rs:127-143 | the requested bytes; end-of-file is an error exactly without direct I/O |
| `DirectIo.DirectIoFile.WriteAllAt` | ForgeANN/src/forgeann/direct_io.rs:145-168 | the block read-modify-write leaves the old file with only the given bytes replaced, zero-extended to its reach |
| `DirectIo.OnlyOwnBytes` | ForgeANN/src/forgeann/direct_io.rs:145-168 | a write changes its own bytes and no others |
| `DirectIo.AnyOrder` | ForgeANN/src/forgeann/direct_io.rs:145-168 | any order of disjoint writes leaves the same file, length included |
| `DirectIo.ReadBack` | ForgeANN/src/forgeann/direct_io.rs:127-168 | after any disjoint writes each range reads back exactly what was written |
| `Sampling.Dedup` | ForgeANN/src/forgeann/sampling.rs:19-20 | from sorted pairs, one pair per id, at its first position |
| `Sampling.SamplePositions` | ForgeANN/src/forgeann/sampling.rs:8-34 | first positions of the min(k, distinct) least ids by (score, id), listed in that order; in id order when k covers all |
| `Sampling.SampleSet` | ForgeANN/src/forgeann/sampling.rs:1-6 | the ids of that sample |
| `Sampling.SampleUnique` | ForgeANN/src/forgeann/sampling.rs:8-34 | the sample is determined by the set of ids: reordering or repeating the input does not change it |
| `Sampling.SampleScores` | ForgeANN/src/forgeann/sampling.rs:19-33 | fewer than all: the k lowest scores in order, ids breaking ties, before every id left out; otherwise all ids in order |

## Left out

- Floating-point rounding, FMA and summation order, and NaN: distances are exact, so two paths that agree here may differ in the last bits.
- AVX-512 intrinsics and CPU detection: the 16-lane kernel is "updates every lane of a non-empty group".
- Bit tricks on `u64` masks: a mask is its set of lanes; `u32`, `u64` and `usize` overflow and saturation are not modelled, and a checked addition that overflows is a sum over the budget.
- AdsKernel.ScanBlockTile: each query's list is a value; that `TinyTopK` realises the pushes in its buffer is proved for the class on its own.
- AdsKernel.AccumulateWide: says nothing about unmasked lanes of the same query, which the code overwrites group by group and never reads.
- Timers, telemetry structs, evaluation counters other than full and pruned ones, environment variables, validation sampling.
- io_uring submission, mmap and O_DIRECT flags; the bounded-plan fast path of the point stores.
- System I/O errors other than end of file, and failed or short writes that end in an error.
- Concurrent `write_all_at` calls on one block: each call is one step.
- PlannedGather.Gather: a resident subset's own mapping of ids to rows is not modelled; it reads row `id` of the store.
- PointPipeline.DeadlockIff: a permit may be taken whenever the bytes fit; lost wake-ups of `notify_one` with several waiting workers are not modelled, nor are error paths and early returns.
- GatherPlan.BuildGatherPlan: with `sort_ids` off, ids out of order are excluded by a precondition; the code underflows on them.
- LeafPaths.FullMatrixLeaf: requires k of at most 32, as the code's own assertion does.
- WindowCache.VectorWindowCache.Insert: statistics such as `used_peak_bytes`, which the code records before eviction, are not modelled.
- CasBudget.BudgetHeld: a release gives back exactly what its thread holds.
- Tile sizing by moving averages, worker caps per context, and the choice between executors: any tile size and any number of workers is allowed instead.
- The scores of the sampler (`splitmix64`): any function of the id.
- Sketch accessors, `ResidentPrefixSketchAccessor`, `ResidentSubsetPointStore` fast paths, lune witnesses, hyperplane hashing: each would add single-branch facts.
- Scheduler, RBC partition, spilling, view-lune pruning, budget splits, parameters and I/O cost heuristics.
