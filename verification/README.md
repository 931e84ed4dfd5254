# AState: a verified model

AState moves sharded tensors from training processes (writers) to inference processes (readers).
This project models the parts of it that carry the correctness arguments and proves them for all
inputs, all runs and all interleavings:

- **The resharding read path** (`Boxes`, `Shards`, `Coverage`, `EmptyTargets`, `Wrapping`, `CopyPlan`,
  `Pruning`, `ReadPath`, `ReplicaOffsets`, `ShardMapping`). A reader asks for a box of a global tensor. Shards are
  flattened to row intervals, sorted and merged to check coverage; the overlaps are computed, shards are
  pruned to one contiguous piece where possible, pieces are packed into a staging bucket, fetched, and
  copied into the target. `ReadPath.ReadTarget` is the end-to-end theorem: a read that does not fail
  leaves every target element `t` equal to `G(offset + t)`; `ShardMapping.ShardTable.ReadTarget` is the
  same through the table's cache of fetch lists, in any later round.
- **The read of small targets** (`Compaction`, `SmallReads`). Their shards are compacted into reads of
  whole remote buffers. `SmallReads.MultiGetCompactTensors` is the same theorem for all targets of a
  request at once.
- **The pull protocol** (`PullNode`, `PullProtocol`, `ReadValues`, `LostReady`, `Progress`,
  `ErasedReady`, `MetaCache`). Any number of
  writers and readers run rounds of put, WeightReady, read, WeightConsumed and Complete. `PullProtocol`
  is a transition system in which control messages arrive at most once, in any order, or get lost, and the sends and the later
  resets of Complete are separate steps. An inductive invariant gives safety over all runs: every read
  of a round returns what its writer published for that round. `ReadValues` says the same by the steps of
  a run alone: a read returns the last put of its tensor, made in its own round if there is one. `Progress` says exactly when a message
  is lost for good, and that a run in which none is never deadlocks.
- **The registered-memory interval tree** (`AvlTree`, `AvlHeights`, `RegionSets`, `MrSet`). `MrSet` holds the linked
  nodes and relinks them in place; it is proved to refine the tree functions of `AvlTree`. `RegionSets`
  proves that every history of the set that does not crash agrees with a plain set of regions and a
  linear scan, and where a history crashes.
- **Sender-side state** (`SmallTensors`, `CopyLock`, `Resharding`): the bump allocator of small tensor
  copies, the reader/writer spin lock with double-checked creation under every interleaving, and column
  resharding.
- **Planning of transfers** (`Ranks`, `Validation`, `Distribution`, `NodeEntries`, `NodeTexts`): greedy distribution of shards over
  nodes, and the text form of registered nodes. `FiniteSets` holds a fact about set sizes.

Operations that change state are methods or classes proved against specification functions; the
properties are proved about those functions. Integers are unbounded. Foreign calls are parameters: a
remote read is a byte copy, the outcome of `malloc` and of a weak compare-and-swap is a boolean, hash map
iteration is an arbitrary choice, the transport reports success or failure, and `narrow`/`copy_` of
tensors is an element-wise box copy.

Where the code does not keep what one would expect of it, the model follows the code, gives a concrete
input, and states exactly when the property holds:

- The coverage check is exact for targets that hold an element; a target without elements is covered by
  anything, yet can be rejected (`EmptyTargets.EmptyTarget`, `Coverage.EmptyTargetRejected`).
- That shards lie inside their tensor is not checked; the check of it is commented out in the source. A
  shard that leaves its tensor wraps around, and a target it does not hold can be accepted
  (`Coverage.OutOfBoundsAccepted`). The check is right for all targets if and only if no coordinate is hit
  by the flat indices of shards of which none holds it (`Wrapping.ExactUnlessWrapped`).
- A fetch list is kept per key, whatever the size of the target. A later, larger target under the same key
  is read with the old list, and elements no part of it holds are left as they are, without an error
  (`ShardMapping.LargerTargetMissed`). The read is right if and only if the parts hold the whole target
  (`ShardMapping.RereadExact`), which they do whenever it is not larger than the first one
  (`ShardMapping.ShardTable.ReadTarget`).
- The remote offset that Get chooses is right if and only if the chosen replica stores the shard at the
  offset known from the metadata, or offset zero is requested (`ReadPath.RemoteOffsetExact`,
  `ReplicaOffsets.OffsetMatters`, `ReplicaOffsets.ReplicaOffsetMissed`).
- Resharding keeps a shard whole if and only if its columns split evenly or it is narrower than a piece
  (`Resharding.ReshardingIsExact`).
- Get finds its metadata if and only if some arrived in round one and every round since made a Get; a
  round of RawGets alone breaks all later Gets (`MetaCache.GetFindsMetadata`).
- Readers do not always make progress, when waits are taken without time-outs: a reader answers with
  WeightConsumed before it clears its ready nodes, so a WeightReady of the next round can be erased.
  `ErasedReady.ReadyIsErased` is a run that gets there although no message is dropped and all arrive. A pair of processes is lost
  if and only if a message between them was dropped, or a WeightReady arrived between the reader's
  answer and its clear (`Progress.LostInRun`); it then never gets going again (`LostReady.StuckForEver`),
  and otherwise some step is always possible (`Progress.NoDeadlock`).
- A rejected insertion into the memory set can crash: after removals the stored heights are stale, and it
  may ask for a rotation around a missing node. `RegionSets.StaleRejectCrashes` is such a history. A
  history crashes if and only if one of its insertions fails `InsertSafe` on the tree it meets; that one
  is always a rejected insertion after a region was taken out (`RegionSets.CrashExactly`), so a history in
  which rejections come before the first successful removal is safe (`RegionSets.SafeHistory`).
- Metadata that was sent in round one is kept completely if and only if the entries under each key agree
  in shape (`MetaCache.NothingDropped`).
- A node entry is read back unchanged if and only if its host has 1 to 127 characters and neither a colon
  nor a NUL (`NodeEntries.RoundTripExact`).

`dafny verify dfyconfig.toml` checks the whole project.

## Model

| member | source | states |
|---|---|---|
| `Boxes.CoordsToFlatIndex` | src/core/tensor_sharded_ops.h:174-186 | the stride loop computes the row-major index of a coordinate |
| `Boxes.FlatBounds` | src/core/tensor_sharded_ops.h:174-186 | an in-bounds coordinate has an index below the element count |
| `Boxes.FlatInjective` | src/core/tensor_sharded_ops.h:174-186 | distinct in-bounds coordinates have distinct indices |
| `Boxes.UnravelFlat` | src/core/tensor_sharded_ops.cpp:102-109 | div/mod turns every index below the element count into an in-bounds coordinate with that index |
| `Boxes.FlatUnravel` | src/core/tensor_sharded_ops.cpp:102-109 | div/mod undoes the flat index |
| `Boxes.CountCoords` | src/core/tensor_sharded_ops.cpp:125-181 | a box holds as many coordinates as the product of its sizes |
| `Coverage.RowCoordinates` | src/core/tensor_sharded_ops.cpp:104-109 | the div/mod loop gives the global coordinate where a row starts |
| `Coverage.ShardedTensorToFlatIntervals` | src/core/tensor_sharded_ops.cpp:78-123 | the loop lists the rows of a shard, each once and in order |
| `Coverage.RowsExact` | src/core/tensor_sharded_ops.cpp:78-123 | for a shard inside its tensor, a flat index lies in one of its rows if and only if the coordinate lies in its box |
| `Coverage.AllRowsUnion` | src/core/tensor_sharded_ops.cpp:18-27 | the collected intervals hold a position if and only if some candidate has a row through it |
| `Coverage.MergeIntervals` | src/core/tensor_sharded_ops.cpp:37-52 | merging keeps the set of positions, and leaves real gaps between intervals |
| `Coverage.OneMergedInterval` | src/core/tensor_sharded_ops.cpp:54-75 | a row fits into one merged interval if and only if all its positions are held |
| `Coverage.CheckCandidatesCoverage` | src/core/tensor_sharded_ops.cpp:5-76 | flatten, sort, merge and look up accept if and only if every target row is covered by the candidates' rows |
| `Coverage.AcceptsExactly` | src/core/tensor_sharded_ops.cpp:5-123 | for any shards, inside their tensor or not, and any target with elements: the check accepts if and only if every element of the target shares its flat index with an element of a candidate |
| `Coverage.CoverageExact` | src/core/tensor_sharded_ops.cpp:5-123 | for in-bounds shards and a target with elements the check accepts if and only if every target coordinate lies in some candidate |
| `Coverage.CoverageSound` | src/core/tensor_sharded_ops.cpp:5-123 | acceptance implies coverage for every target, empty ones included |
| `EmptyTargets.EmptyTarget` | src/core/tensor_sharded_ops.cpp:5-123 | a target without elements is accepted if and only if some candidate has a row and every row of the target starts at, or right behind, an element of a candidate (or at one of its empty rows) |
| `Coverage.EmptyTargetRejected` | src/core/tensor_sharded_ops.cpp:54-75 | an empty target that is covered and still rejected |
| `Coverage.OutOfBoundsAccepted` | src/core/tensor_sharded_ops.cpp:262-277 | a shard that leaves its tensor makes the check accept a target it does not hold |
| `Wrapping.ExactUnlessWrapped` | src/core/tensor_sharded_ops.cpp:5-123 | for shards of one tensor, inside it or not: the check equals coverage for every in-bounds target with elements if and only if every coordinate whose flat index the shards hit is held by one of them |
| `Wrapping.InsideNothingWraps` | src/core/tensor_sharded_ops.cpp:262-277 | which is so when all shards lie inside the tensor |
| `Wrapping.OutOfBoundsWraps` | src/core/tensor_sharded_ops.cpp:262-277 | and not so for that shard |
| `CopyPlan.CheckCandidates` | src/core/tensor_sharded_ops.cpp:224-279 | the first candidate with a fault decides the error, in the order dimension count, type, shape |
| `CopyPlan.ValidateCandidateFilterParams` | src/core/tensor_sharded_ops.cpp:183-282 | exactly which error each bad request gets, and that the rest is decided by the coverage check, for any candidates; for candidates inside their tensor a valid request is covered, and every covered request with elements is valid |
| `CopyPlan.Overlap` | src/core/tensor_sharded_ops.cpp:137-175 | the per-dimension loops find the common part of two boxes, or report that there is none |
| `CopyPlan.FindCoveringCandidatesUnsafe` | src/core/tensor_sharded_ops.cpp:125-181 | one operation per candidate that meets the target, each copying exactly the common part |
| `CopyPlan.CopyInBounds` | src/core/tensor_sharded_ops.cpp:125-181 | reads stay inside the candidate and writes inside the target |
| `CopyPlan.WrittenExact` | src/core/tensor_sharded_ops.cpp:125-181 | an operation writes a target element if and only if its candidate holds it |
| `CopyPlan.WritesDisjoint` | src/core/tensor_sharded_ops.cpp:125-181 | for disjoint candidates no target element is written twice |
| `CopyPlan.WritesEverything` | src/core/tensor_sharded_ops.cpp:125-181 | for covering candidates every target element is written |
| `CopyPlan.ZeroRedundancy` | src/core/tensor_sharded_ops.cpp:125-181 | the copy volumes add up to the target's element count |
| `Pruning.IsContiguousShard` | src/core/utils.h:457-469 | accepts exactly the cuts in the first dimension of a tensor whose slices along it are row-major |
| `Pruning.TryAdjustGlobalOffset` | src/core/utils.h:471-485 | when it accepts, tensor and key are moved in place to the piece; otherwise nothing changes |
| `Pruning.CutsFirstDimension` | src/core/utils.h:457-485 | accepted pruning has copy offset zero in every dimension but the first |
| `Pruning.PruningKeepsElements` | src/core/utils.h:471-485 | every element of the piece is the shard's element at the same global coordinate |
| `Pruning.OccupiesRange` | src/core/utils.h:471-485 | a row-major piece occupies exactly one contiguous range of its storage |
| `ReadPath.CandidatesOf` | src/transfer/tensor_transfer_pull.cpp:706-728 | every shard of the tensor once, with the metadata of its last replica, in any order |
| `ReadPath.PruneOne` | src/core/remote_tensor_table.cpp:1020-1029 | of a row-major shard exactly the common part is fetched when the target reaches over all of it behind the first dimension, and otherwise the whole shard; elements and keys are the shard's, and nothing the target needs is lost |
| `ReadPath.GetRemoteTensorShards` | src/core/remote_tensor_table.cpp:989-1041 | the fetch list has one part of every shard that meets the target, and they cover it; or the request is rejected for a reason |
| `ReadPath.AdjustedKeysDistinct` | src/core/remote_tensor_table.cpp:1020-1029 | for disjoint shards the adjusted keys differ, so no dictionary entry is dropped |
| `ReadPath.NothingExtra` | src/core/remote_tensor_table.cpp:989-1041 | when the target takes whole rows of every shard it meets, exactly as many bytes are fetched as the target has |
| `ReadPath.ReplicasInTurn` | src/transfer/tensor_transfer_pull.cpp:319-320 | the ranks take the replicas of a shard in turn |
| `ReadPath.LayOut` | src/core/remote_tensor_table.cpp:715-763 | the parts get disjoint byte ranges inside the bucket and one dictionary entry each; it fails if and only if they are larger than the bucket |
| `ReadPath.Get` | src/transfer/tensor_transfer_pull.cpp:302-390 | exactly when the metadata is missing or the read too long; a failing transport changes nothing, a read brings the replica's bytes to the part's range and nowhere else |
| `ReadPath.FetchFits` | src/transfer/tensor_transfer_pull.cpp:332-357 | a part whose offsets fit lies inside the chosen replica's buffer, where Get reads |
| `ReadPath.RemoteOffsetExact` | src/transfer/tensor_transfer_pull.cpp:332-335 | Get reads a fetched part where the chosen replica keeps it if and only if the replica is stored where the metadata says, or offset zero is requested |
| `ReadPath.StartExact` | src/core/remote_tensor_table.cpp:1020-1029 | that condition, in terms of what is known before the read: same storage offset, or offset zero and no rows cut off in front |
| `ReadPath.ReceivedHolds` | src/transfer/tensor_transfer_pull.cpp:332-357 | when the offsets fit, the received bytes are the part, for all contents |
| `ReplicaOffsets.OffsetMatters` | src/transfer/tensor_transfer_pull.cpp:332-357 | whenever they do not fit, some buffer holds the shard and every Get of the part from it stages something else |
| `ReplicaOffsets.ReplicaOffsetMissed` | src/transfer/tensor_transfer_pull.cpp:332-357 | two replicas of one shard at different offsets, for which Get receives the wrong byte |
| `ReadPath.FetchOne` | src/core/remote_tensor_table.cpp:771-776 | a Get of the list succeeds exactly when the transport does, and its staged part then holds the global tensor |
| `ReadPath.FetchAll` | src/core/remote_tensor_table.cpp:765-777 | all Gets succeed exactly when the transport does, and every staged part then holds the global tensor |
| `ReadPath.TargetTensor.CopyFrom` | src/core/tensor_sharded_ops.h:79-156 | the common part of source and target is copied, every other target element stays |
| `ReadPath.CopyAll` | src/core/remote_tensor_table.cpp:802-805 | after the copy loop, in any order, every target element some part holds is the global one, and every other is what it was |
| `ReadPath.ReadList` | src/core/remote_tensor_table.cpp:715-805 | stage, fetch and copy with a given list: it fails exactly when the bucket is too small or the transport fails, changing nothing; otherwise what the parts hold is read, and only that |
| `ReadPath.ReadTarget` | src/core/remote_tensor_table.cpp:702-805 | end to end: the target equals the global tensor at its offset; a request with elements is rejected if and only if the shards do not serve it, and otherwise fails exactly when its fetch list does not fit the bucket or the transport fails; when the target takes whole rows, the list fits exactly if the target does |
| `ShardMapping.ShardTable.GetRemoteTensorShards` | src/core/remote_tensor_table.cpp:989-1041 | with the cache: the list answers the first question asked about its key, hence this one whenever target and mode are the same; only new requests that the shards do not serve are rejected |
| `ShardMapping.ShardTable.ReadTarget` | src/core/remote_tensor_table.cpp:702-805 | end to end through the cache, in any round: a target not larger than the first one read under its key equals the global tensor of the present round; of a larger one exactly the elements in the kept parts are read |
| `ShardMapping.PartsExactly` | src/core/remote_tensor_table.cpp:1014-1029 | a kept list holds exactly the parts of the shards that meet the target it was made for |
| `ShardMapping.RereadExact` | src/core/remote_tensor_table.cpp:989-1041 | a read with a kept list is right, whatever the tensor holds, if and only if its parts hold the whole target |
| `ShardMapping.LargerTargetMissed` | src/core/remote_tensor_table.cpp:989-999 | a request that the shards cover and for which the list kept from an earlier, smaller one lacks an element |
| `SmallReads.Gather` | src/core/remote_tensor_table.cpp:376-388 | exactly the shards that hold a part of a small target are gathered, each wanted for exactly those targets, and they hold all of them; or some target is not served by the shards |
| `SmallReads.RawGet` | src/transfer/tensor_transfer_pull.cpp:730-768 | a whole buffer into the local cache, or exactly why not |
| `SmallReads.MultiGetCompactTensors` | src/core/remote_tensor_table.cpp:370-514 | end to end for small targets: gathered, compacted into reads that partition the gathered shards, read by whole buffers and copied, every target equals its global tensor at its offset, whatever offsets the replicas are stored at; it stops at the first read that does not fit the cache or whose transport fails |
| `PullNode.TensorTransferPull.constructor` | src/transfer/tensor_transfer_pull.h:100-110 | a process starts without a round and has heard from nobody |
| `PullNode.StateMeans` | src/transfer/tensor_transfer_pull.cpp:442-644 | after any calls and messages, the current id is that of the first put or read since the last Complete, the ready nodes are those heard from since, and the consumed nodes those heard from in time |
| `PullNode.FlagsMean` | src/transfer/tensor_transfer_pull.cpp:185-300 | the round counts as writing (reading) exactly when something was put (read) since the last Complete |
| `PullNode.CompletedMeans` | src/transfer/tensor_transfer_pull.cpp:494-502 | metadata counts as published exactly when a Complete is over, and the last completed id is the round that the last Complete ended |
| `PullNode.AcceptedExactly` | src/transfer/tensor_transfer_pull.h:168-177 | after any calls, a put or read is accepted exactly when none came since the last Complete or the first one had the same id; a refused one leaves the round as it is |
| `PullNode.OneRoundAtATime` | src/transfer/tensor_transfer_pull.h:168-177 | all puts and reads accepted since the last Complete carry the id of one round |
| `PullNode.TensorTransferPull.CheckAndUpdateCurrentSeqId` | src/transfer/tensor_transfer_pull.h:168-177 | a round starts only when none runs; another round's id is refused and changes nothing |
| `PullNode.TensorTransferPull.HandleWeightConsumed` | src/transfer/tensor_transfer_pull.cpp:618-644 | outdated messages are refused, others add their sender |
| `PullNode.TensorTransferPull.AllReady` | src/transfer/tensor_transfer_pull.h:179-182 | the size test means that all peers are ready |
| `PullNode.TensorTransferPull.AllConsumed` | src/transfer/tensor_transfer_pull.cpp:458-463 | the size test means that all peers have consumed |
| `PullNode.TensorTransferPull.Complete` | src/transfer/tensor_transfer_pull.cpp:454-502 | a writer's wait ends exactly when as many nodes were counted as there are peers; then every peer has sent a WeightConsumed of this round or a later one |
| `PullProtocol.WriterMovePair` | src/transfer/tensor_transfer_pull.cpp:442-503 | every step of a writer keeps the relation between it and each reader |
| `PullProtocol.ReaderMovePair` | src/transfer/tensor_transfer_pull.cpp:442-503 | every step of a reader keeps the relation between it and each writer, and it answers only writers in its own round |
| `PullProtocol.StepInv` | src/transfer/tensor_transfer_pull.cpp:442-644 | the invariant is kept by every step of every process and of the network |
| `PullProtocol.RunInv` | src/transfer/tensor_transfer_pull.cpp:442-644 | it holds in every state of every run |
| `PullProtocol.FetchIsSafe` | src/transfer/tensor_transfer_pull.cpp:446-503 | whenever a reader reads in round r, every writer has put its data of r, has sent it WeightReady for r and is still inside Complete of r |
| `PullProtocol.ReadsAreConsistent` | src/transfer/tensor_transfer_pull.cpp:442-503 | in every run a read of round r returned what its writer published for r, and a tensor put in r is read in version r |
| `ReadValues.ReadReturns` | src/core/remote_tensor_table.cpp:141-160 | by the steps of the run alone: a read adds one entry to the log, with the payload of the last put of its tensor before it and the round that put was made in |
| `ReadValues.LogIsReads` | src/transfer/tensor_transfer_pull.cpp:302-390 | hence the whole log is determined by the steps |
| `ReadValues.ReadIsCurrent` | src/transfer/tensor_transfer_pull.cpp:442-503 | no put of the reader's round, or of one before, comes later than the one that is read; if the writer puts the tensor in that round at all, the read returns a put of that round |
| `ReadValues.ReadersAgree` | src/transfer/tensor_transfer_pull.cpp:442-503 | all reads of a tensor in one round return the same put |
| `PullProtocol.RoundsStayClose` | src/transfer/tensor_transfer_pull.cpp:446-503 | the rounds of a writer and a reader never differ by more than one |
| `PullProtocol.WritersStayClose` | src/transfer/tensor_transfer_pull.cpp:446-503 | nor do those of two writers, when there is a reader |
| `PullProtocol.WriterLeavesLast` | src/transfer/tensor_transfer_pull.cpp:458-463 | a writer leaves the wait of round k only after every reader has finished its reads of k |
| `PullProtocol.DoneStaysDone` | src/transfer/tensor_transfer_pull.cpp:442-503 | a reader that has finished round k never reads in it again |
| `PullProtocol.NoMessageLeft` | src/transfer/tensor_transfer_pull.cpp:494-502 | no message of a round is left when its writer starts the next one |
| `PullProtocol.ConsumedIsCredited` | src/transfer/tensor_transfer_pull.cpp:618-644 | a WeightConsumed arrives in the round it belongs to, is not refused, and is counted once |
| `LostReady.StuckStays` | src/transfer/tensor_transfer_pull.cpp:442-644 | once a WeightReady is gone without its reader knowing, no step of any process gets the reader through its wait (without time-out) or the writer to its next round |
| `LostReady.StuckForEver` | src/transfer/tensor_transfer_pull.cpp:442-644 | hence in every run both stay in that round |
| `ErasedReady.ReadyIsErased` | src/transfer/tensor_transfer_pull.cpp:446-499 | a run with its steps in which no message is dropped, all have arrived and a read was made, and whose last state is stuck: the step that lost the WeightReady is its delivery |
| `Progress.DoomedExactly` | src/transfer/tensor_transfer_pull.cpp:442-644 | a pair loses a WeightReady by exactly two kinds of steps, and never recovers: the network drops it, or it arrives while the reader has not yet cleared the ready nodes of the round before |
| `Progress.UnansweredExactly` | src/transfer/tensor_transfer_pull.cpp:618-644 | an answer is lost only by the network |
| `Progress.LostInRun` | src/transfer/tensor_transfer_pull.cpp:442-644 | in every run: a pair is doomed, or its answer missing, if and only if such a step happened before |
| `Progress.StuckIsDoomed` | src/transfer/tensor_transfer_pull.cpp:446-499 | a stuck pair is a doomed one that has reached the round in question |
| `Progress.WaitReturns` | src/transfer/tensor_transfer_pull.h:179-182 | a reader's wait can return if and only if every writer is among its ready nodes |
| `Progress.NoDeadlock` | src/transfer/tensor_transfer_pull.cpp:442-644 | in every state that the invariant allows and in which nothing is lost, some process or message can take a step that brings the round forward |
| `Progress.RunsGoOn` | src/transfer/tensor_transfer_pull.cpp:442-644 | hence every run without these losses goes on |
| `MetaCache.EmplaceKeepsUniform` | src/transfer/types.h:199-225 | a replica is put at the end of its key's list, if it fits, and nothing else changes; replicas of a shard keep agreeing shapes |
| `MetaCache.RemoteCache.HandleTensorRDMAMeta` | src/transfer/tensor_transfer_pull.cpp:528-583 | the entries in front of the first that differs from the last replica of its key are added, each to the end of the list of its key and once; it reports success exactly if that is all of them |
| `MetaCache.RemoteCache.Lookup` | src/transfer/tensor_transfer_pull.h:184-215 | the entry of the round, taken over from the last completed round when there is none |
| `MetaCache.RoundOne` | src/transfer/tensor_transfer_pull.cpp:528-583 | from the empty cache, whatever messages and Gets come in round one, the cache holds one entry: under every key the replicas added for it, in order of arrival, each once |
| `MetaCache.AgreedIsLongest` | src/transfer/tensor_transfer_pull.cpp:554-575 | of every message the longest beginning is added that agrees in shape with all that came before under its keys |
| `MetaCache.NothingDropped` | src/transfer/tensor_transfer_pull.cpp:528-583 | which is everything that was sent if and only if the entries sent under one key agree in shape |
| `MetaCache.CacheHoldsOneEntry` | src/transfer/tensor_transfer_pull.h:184-215 | if metadata arrived in round one and every later round makes a Get, the cache always holds one entry, of the last round, with what round one published |
| `MetaCache.GetFindsMetadata` | src/transfer/tensor_transfer_pull.h:184-215 | Get finds metadata instead of throwing if and only if some arrived in round one and every round since made a Get |
| `AvlTree.InsertAdds` | src/utrans/utrans_mr_set.c:88-130 | a region that overlaps nothing is added without following a null pointer, and the order kept, whatever heights are stored |
| `AvlTree.InsertIsSafe` | src/utrans/utrans_mr_set.c:88-130 | no rotation of such an insertion follows a null pointer |
| `AvlTree.InsertKeepsAvl` | src/utrans/utrans_mr_set.c:88-130 | insertion keeps heights exact and siblings within one level |
| `AvlTree.RejectChangesNothing` | src/utrans/utrans_mr_set.c:88-130 | a rejected insertion into a balanced tree changes nothing and is safe |
| `AvlTree.RejectKeeps` | src/utrans/utrans_mr_set.c:88-130 | a rejected insertion that has a result keeps regions and order whatever heights are stored |
| `AvlTree.HeightBound` | src/utrans/utrans_mr_set.c:46-130 | a balanced tree of height h holds at least Fib(h + 2) - 1 regions |
| `AvlTree.FindIsScan` | src/utrans/utrans_mr_set.c:152-170 | the search hits exactly the region that contains the range |
| `AvlTree.FindStepsBound` | src/utrans/utrans_mr_set.c:152-170 | in a balanced tree it visits at most h nodes |
| `AvlTree.DeleteRemoves` | src/utrans/utrans_mr_set.c:219-271 | removal takes out exactly one region and keeps the order and all others, whatever heights are stored |
| `AvlHeights.HeightsCover` | src/utrans/utrans_mr_set.c:219-271 | along every history that does not crash, removals included, the stored height of the root is at least the true one, and a lookup visits no more nodes than that |
| `AvlHeights.InsertCorrects` | src/utrans/utrans_mr_set.c:128-129 | an insertion, accepted or not, corrects the height of every node it comes back to |
| `AvlHeights.ShrunkLeftBalances` | src/utrans/utrans_mr_set.c:222-233 | where the left side has become two levels too low and heights are exact below, the rotation after a removal balances the node and makes all heights exact |
| `AvlHeights.ShrunkRightBalances` | src/utrans/utrans_mr_set.c:234-245 | the same for the right side |
| `AvlHeights.RootStaysLevel` | src/utrans/utrans_mr_set.c:250-266 | removing the root of a balanced tree takes a neighbour from a side that is not lower, so that the sides still differ by at most one level |
| `AvlTree.ScanIsSorted` | src/utrans/utrans_mr_set.c:184-191 | the scan lists the regions in address order |
| `AvlTree.ScanContents` | src/utrans/utrans_mr_set.c:184-191 | the scan lists exactly the regions of the tree |
| `AvlTree.LRKeeps` | src/utrans/utrans_mr_set.c:78-81 | the left-right rotation keeps regions and order |
| `AvlTree.RLKeeps` | src/utrans/utrans_mr_set.c:83-86 | the right-left rotation keeps regions and order |
| `RegionSets.AddStep` | src/utrans/utrans_mr_set.c:280-291 | an insertion has a result when heights are exact or it is accepted; where it has one, exactly the free non-empty regions with an item are added and the set is kept otherwise; into a balanced tree a rejected one changes nothing |
| `RegionSets.RemoveStep` | src/utrans/utrans_mr_set.c:301-314 | remove deletes exactly the region that contains the range, and changes nothing when there is none |
| `RegionSets.History` | src/utrans/utrans_mr_set.c:280-314 | along every history that does not crash the tree holds the plain set and counts it; as long as no region is taken out it stays balanced |
| `RegionSets.CrashExactly` | src/utrans/utrans_mr_set.c:88-130 | a history crashes if and only if some insertion of it asks for a rotation around a missing node; that insertion is rejected, and a region was taken out before |
| `RegionSets.SafeHistory` | src/utrans/utrans_mr_set.c:280-314 | a history does not crash if its rejected insertions come before the first region is taken out |
| `RegionSets.StaleRejectCrashes` | src/utrans/utrans_mr_set.c:111-120 | a history of five insertions and two removals after which inserting a region that is there crashes |
| `RegionSets.InsertionIsSafe` | src/utrans/utrans_mr_set.c:88-130 | after any history an insertion follows no null pointer if no region was taken out before, or if it is accepted |
| `RegionSets.LookupCost` | src/utrans/utrans_mr_set.c:152-170 | as long as no region is taken out, insertions accepted or not, a lookup visits at most h nodes and Fib(h + 2) - 1 regions exist |
| `RegionSets.LookupIsScan` | src/utrans/utrans_mr_set.c:293-299 | over any mix of insertions and removals that does not crash a lookup finds the region a linear scan finds |
| `RegionSets.LookupMisses` | src/utrans/utrans_mr_set.c:293-314 | and nothing when no region contains the range; remove then changes nothing |
| `RegionSets.RemoveReturns` | src/utrans/utrans_mr_set.c:301-314 | remove returns the item of the region that contains the range, and takes out that region alone |
| `RegionSets.InsertCodes` | src/utrans/utrans_mr_set.c:280-291 | exactly when an insertion reports -1, 0 and 1 |
| `RegionSets.RegisteredOnce` | src/utrans/utrans_mr_set.c:280-314 | a region that was added is found and given back once: removing it returns its item and restores the set |
| `MrSet.LLRotation` | src/utrans/utrans_mr_set.c:46-60 | relinks the nodes of a tree into its left-left rotation, in place |
| `MrSet.RRRotation` | src/utrans/utrans_mr_set.c:62-76 | the same for right-right |
| `MrSet.LRRotation` | src/utrans/utrans_mr_set.c:78-81 | the same for left-right |
| `MrSet.RLRotation` | src/utrans/utrans_mr_set.c:83-86 | the same for right-left |
| `MrSet.InsertNode` | src/utrans/utrans_mr_set.c:88-130 | the linked nodes become those of the tree after insertion |
| `MrSet.FindNode` | src/utrans/utrans_mr_set.c:152-170 | the search loop returns the node the tree search finds, in as many steps |
| `MrSet.ScanNode` | src/utrans/utrans_mr_set.c:184-191 | the items are written to the buffer in tree order from the given index on |
| `MrSet.DeleteNode` | src/utrans/utrans_mr_set.c:219-271 | the linked nodes become those of the tree after removal |
| `MrSet.MemoryRegionSet.constructor` | src/utrans/utrans_mr_set.c:273-278 | an empty set |
| `MrSet.MemoryRegionSet.Insert` | src/utrans/utrans_mr_set.c:280-291 | where no null pointer is followed, new state and return code are those of the specification |
| `MrSet.MemoryRegionSet.Find` | src/utrans/utrans_mr_set.c:293-299 | the item of the region that contains the range, or NULL |
| `MrSet.MemoryRegionSet.Remove` | src/utrans/utrans_mr_set.c:301-314 | new state and returned item are those of the specification |
| `MrSet.MemoryRegionSet.GetAll` | src/utrans/utrans_mr_set.c:316-332 | all items in address order; no array for an empty set or when memory runs out, and the count that is reported |
| `SmallTensors.AlignIsNext` | src/core/remote_tensor_table.h:174-180 | alignment gives the next multiple of the element size, less than one element away |
| `SmallTensors.RequestKeeps` | src/core/remote_tensor_table.cpp:922-987 | a request keeps all copies inside their buffer and apart, changes none, and makes a new one of the shape that is asked for |
| `SmallTensors.SliceInBounds` | src/core/remote_tensor_table.cpp:966-979 | a slice whose bytes lie in the buffer is inside the element array it is cut from |
| `SmallTensors.CopyIsForFirst` | src/core/remote_tensor_table.cpp:922-987 | after any requests a key has a copy if and only if it was asked for; the copy has the elements and element size of the first request, and shares a buffer exactly if they take at most the small limit |
| `SmallTensors.CopyIsInside` | src/core/remote_tensor_table.cpp:966-979 | all elements of a small copy lie inside its buffer |
| `SmallTensors.CopiesAreSafe` | src/core/remote_tensor_table.cpp:69-78 | with the constructor's guard, after any requests the elements of two small copies share no byte |
| `SmallTensors.NoRoomIsWasted` | src/core/remote_tensor_table.cpp:952-962 | a small copy takes the first aligned place behind everything in the last buffer, and a new buffer is started only when it does not fit there |
| `SmallTensors.CopyStays` | src/core/remote_tensor_table.cpp:922-987 | a key keeps its region through all later requests |
| `SmallTensors.LocalCopies.constructor` | src/core/remote_tensor_table.cpp:69-78 | an empty cache that satisfies the invariant |
| `SmallTensors.LocalCopies.GetOrCreateLocalTensorCopy` | src/core/remote_tensor_table.cpp:933-985 | the part under the write lock does one request and returns the key's copy |
| `CopyLock.StepInv` | src/common/lock_utils.h:34-68 | every atomic step of every thread keeps the lock invariant |
| `CopyLock.LockIsExclusive` | src/common/lock_utils.h:34-68 | in every run the state is -1 exactly with one writer and no reader inside, and otherwise the number of readers inside |
| `CopyLock.OneCopyPerKey` | src/core/remote_tensor_table.cpp:925-985 | at most one copy is made per key and all callers get that one |
| `CopyLock.CopiesStaySafe` | src/core/remote_tensor_table.cpp:925-985 | a copy handed out concurrently was made for the request of a thread that asked for its key, lies inside its buffer, and shares no byte with another |
| `CopyLock.AloneGetsThrough` | src/common/lock_utils.h:34-68 | from every state of every run in which the lock is free, a thread that runs alone returns the copy of its key within ten steps |
| `Resharding.ReshardTensor` | src/core/remote_tensor_table.cpp:843-887 | keys, starts and widths of the pieces |
| `Resharding.ReshardTable.LocalReshardTensors` | src/core/remote_tensor_table.cpp:889-920 | the shards stored for a source: its pieces, or itself; a decision is kept per key and is right for every source with as many columns |
| `Resharding.PieceElement` | src/core/remote_tensor_table.cpp:868-884 | element x of piece i is the source's element with the column moved by i times the width: inside the source, at the same place in the storage, with the same global coordinate |
| `Resharding.PiecesDisjoint` | src/core/remote_tensor_table.cpp:868-884 | two pieces share no coordinate |
| `Resharding.ReshardingIsExact` | src/core/remote_tensor_table.cpp:843-920 | the pieces hold exactly the source if and only if its columns split evenly or it is not split |
| `Resharding.ReshardedCovers` | src/core/remote_tensor_table.cpp:889-920 | an evenly split shard set still covers what it covered |
| `Resharding.ReshardedDisjoint` | src/core/remote_tensor_table.cpp:889-920 | a disjoint shard set stays disjoint, evenly split or not |
| `Compaction.CollectPlaces` | src/transfer/tensor_transfer_pull.cpp:831-866 | the requested metadata by shard, and by node and address, completely; of several replicas at one place the first counts |
| `Compaction.CompactOne` | src/transfer/tensor_transfer_pull.cpp:779-826 | one read takes every shard still to read that lives in its buffer, and no buffer is read again |
| `Compaction.CompactTensorInfos` | src/transfer/tensor_transfer_pull.cpp:774-829 | the reads partition the request; no lookup can fail |
| `Compaction.GetCompactTensorInfos` | src/transfer/tensor_transfer_pull.cpp:831-879 | it throws if and only if a requested shard has no metadata, and otherwise partitions the request |
| `Compaction.ReadLivesAt` | src/transfer/tensor_transfer_pull.cpp:774-829 | everything in a read lives at the read's node and address |
| `Compaction.CompactReadHolds` | src/core/remote_tensor_table.cpp:440-459 | the view into a buffer that was read as a whole shows the shard |
| `Ranks.BelowTotal` | src/transfer/tensor_transfer_utils.cpp:85-133 | the comparators are total on different entries |
| `Ranks.PopTop` | src/transfer/tensor_transfer_utils.cpp:85-133 | what a queue yields depends on its entries only, not on their order |
| `Distribution.DetermineTopNodeForShard` | src/transfer/tensor_transfer_utils.cpp:85-133 | different holders, as many as asked for or as there are, in the order of load, name and ports, and every holder left out comes after them; exactly their loads grow by the shard |
| `Distribution.NodeOrder` | src/transfer/tensor_transfer_utils.cpp:93-104 | nodes are compared by load, then host name, then the two ports |
| `Distribution.ShardOrder` | src/transfer/tensor_transfer_utils.cpp:139-163 | shards are compared by number of holders, then bytes, then name, then offset |
| `Distribution.ChosenAreFirst` | src/transfer/tensor_transfer_utils.cpp:85-133 | no holder left out has a higher load than a chosen one, with the ties of that order |
| `Validation.ValidateTensorTransferMeta` | src/transfer/tensor_transfer_utils.cpp:13-75 | exactly when metadata passes: every list has entries, all complete, of one type and layout; otherwise the reported fault is there |
| `Distribution.DistributeTensorTransferMeta` | src/transfer/tensor_transfer_utils.cpp:135-199 | the shards are given away one after the other in their order; the result is a function of the set of entries, and the same for the entries in any other order; it fails exactly on invalid metadata |
| `Distribution.GreedyInOrder` | src/transfer/tensor_transfer_utils.cpp:183-197 | the order-free result is that of taking every shard once, those with more holders first and so on |
| `Distribution.OrderDoesNotMatter` | src/transfer/tensor_transfer_utils.cpp:135-199 | metadata with the same entries in lists of any order is valid or not alike and is distributed alike |
| `Distribution.TopNodesMeans` | src/transfer/tensor_transfer_utils.cpp:85-133 | the chosen nodes are different holders, as many as asked for or as there are |
| `Distribution.EveryShardIsGiven` | src/transfer/tensor_transfer_utils.cpp:135-199 | every shard goes to exactly min(main_replica, holders) nodes, all of which hold it |
| `Distribution.LoadIsConserved` | src/transfer/tensor_transfer_utils.cpp:135-199 | the nodes' loads add up to the bytes of every shard times its replicas |
| `Distribution.LoadIsGiven` | src/transfer/tensor_transfer_utils.cpp:183-197 | the load of a node is the bytes of the shards it was given |
| `NodeEntries.FormatFits` | src/discovery/service_discovery.h:45-57 | the 256-byte buffer never truncates an entry with a proper host |
| `NodeEntries.ScanPrintedInt` | src/discovery/service_discovery.h:59-76 | a printed number is read back, whatever follows that is not a digit |
| `NodeEntries.RoundTrip` | src/discovery/service_discovery.h:45-76 | parsing a printed entry gives the entry |
| `NodeEntries.ParsedHostFits` | src/discovery/service_discovery.h:59-76 | every parsed entry names a host of 1 to 127 characters without colon or NUL |
| `NodeEntries.RoundTripExact` | src/discovery/service_discovery.h:45-76 | exactly when an entry round-trips |
| `NodeTexts.ParsesExactly` | src/discovery/service_discovery.h:59-76 | exactly which texts are read, and as which entry; all others are errors |
| `NodeTexts.ScanIntExact` | src/discovery/service_discovery.h:59-76 | a number is read if and only if the text starts with one, and all its digits are taken |
| `NodeTexts.WrittenEntry` | src/discovery/service_discovery.h:45-57 | the text of an entry: T or I, and the fields behind colons |
| `NodeTexts.WrittenInt` | src/discovery/service_discovery.h:45-57 | numbers are written in decimal without leading zeros |
| `NodeTexts.TextIsCut` | src/discovery/service_discovery.h:45-57 | at most the first 255 characters are kept |

## Left out

- 64-bit overflow of sizes, offsets and sequence ids: integers are unbounded.
- Time-outs: the waits of the protocol are modelled without them. In the code a wait for ready nodes fails after a while; the claims of LostReady and Progress are about waits that go on or are repeated.
- Progress.NoDeadlock: claims that a step is possible, not that a fair schedule takes it.
- Duplicate delivery of control messages, which HandleWeightReady could not tell apart; delivery at most once is part of the network model.
- Sequence ids are the round numbers of a process, every writer puts and every reader reads at least once per round, and reads wait for all ready nodes first, as the table does.
- Prefetching of cached tensors, which is off by default.
- ReadPath.ReadTarget: requires shards inside their tensor, disjoint, row-major and with at least one dimension, and that the replica it reads holds the tensor where the chosen offset finds it (OffsetsAgree); ReadPath.StartExact and ReplicaOffsets.OffsetMatters show that the last condition is exact.
- ReadPath.GetRemoteTensorShards: a fresh answer; the cache of earlier answers is ShardMapping.ShardTable.
- ShardMapping.ShardTable.ReadTarget: requires that a key is read again with the number of dimensions and the element type of the first time; conversion of element types is not modelled.
- SmallReads.MultiGetCompactTensors: the reads run one after the other, not in a thread pool, and the cache of an earlier request's reads is left out.
- ReadPath.TargetTensor.CopyFrom: the target is a map from coordinates to element bytes; strides and aliasing of the target's own memory are not modelled.
- MrSet.MemoryRegionSet.Insert: requires that no rotation follows a null pointer; where one does, the code has no result (RegionSets.CrashExactly). A range that wraps around the end of the 64-bit address space is excluded.
- RegionSets.History: balance and exact heights are not claimed after a region was taken out.
- CopyLock.LockIsExclusive: atomic steps are sequentially consistent; memory orderings of the atomics are not modelled.
- SmallTensors.LocalCopies.GetOrCreateLocalTensorCopy: the byte copy of the tensor into its region and memory registration.
- Resharding.PieceElement: requires a tensor with a stride for every dimension, as all tensors have.
- Resharding.ReshardTensor: requires a positive piece width; with width zero the code divides by zero.
- Resharding.ReshardTable.LocalReshardTensors: promises nothing for a source with another column count than the first one under its key, for which the code narrows by the old decision or throws.
- MetaCache.RemoteCache.HandleTensorRDMAMeta: the comparison of shapes reads past the end when the new replica has fewer dimensions; the model counts that as a difference.
- Distribution.DistributeTensorTransferMeta: the quality of the load balance, and entries without a tensor.
- Coverage.SortByStart: stands for std::sort and is an insertion sort on a sequence.
- NodeEntries.RoundTrip: character encodings other than one character per byte; numbers that do not fit 32 bits.
- RDMA, UCX, brpc, HTTP, TCPStore, CUDA streams, NUMA allocation, pybind and torch internals, JSON messages, binary metadata serialization, options, logging, retries, timers and time-outs, GPU topology and the Python wrappers: foreign calls, I/O or plumbing.
