# Verified models of verl's protocols and bookkeeping

This project models the parts of verl whose correctness does not rest on tensor arithmetic but on protocols, bookkeeping
and index arithmetic, and proves what they are for. `dafny verify dfyconfig.toml` checks all of it.

| files | part of verl |
|---|---|
| `WeightChunks`, `WeightBuckets`, `WeightAlignment`, `WeightTransfer` | splitting weights into chunks, packing them into buckets, sending and merging them again, over the two real buffers of either side |
| `NixlChain`, `NixlChainSafety`, `NixlChainLiveness`, `NixlChainResults`, `NixlChainViews`, `ChainTopology`, `NixlAgent` | the relay chain of the NIXL engine for any number of relays, how long the views it yields stay right, its topology lists, and the agent that sorts messages and notifications |
| `KimiRegistration`, `KimiRounds`, `KimiReceive`, `KimiTransfer` | the kimi engine: the trainers' shares of the tensors and their buckets, the rounds of broadcasts, the staging buffer and the two-half buffer, all ranks together |
| `OffloadWindow`, `OffloadHandler`, `OffloadRuns` | asynchronous activation offloading: the window map, the handler as a class, whole training runs |
| `ReplayBuffer`, `AgentLoopProtocol`, `AgentLoopResults` | the replay buffer, and the agent loop workers, the polling thread, the trainer and the sampler around it |
| `OutputKeys`, `FinalSessions`, `ValidationSamples`, `ReMaxBaselines` | the keys of agent loop outputs, and the choice of a session's last output for the advantages, for the samples of a validation, and as a baseline |
| `PipelineShards`, `QkvLayout`, `LayerNumbering`, `DistributedMerge`, `SaveFiles`, `ExpertStacking` | resharding checkpoints between Megatron, Hugging Face and VeOmni layouts |
| `BatchAlgebra`, `BatchFutures`, `ShardLoading` | `DataProto` as an algebra on rows, its futures, and loading a checkpoint's files on many ranks |
| `Wrappers`, `Arithmetic`, `Sequences`, `Buffers` | an option type; multiplication and division facts; lists of lists; byte buffers |

Loops and classes of the program are methods and classes here, proved against functions; what the program promises is
then proved about those functions and about all runs of the state machines. `None` stands for a failed assertion, a
missing key or another exception.

## What the proofs found

Where a promised property does not hold of the code on all inputs, the model keeps the code as it is and the exact
condition is proved:

- A weight without elements never produces a chunk, so receivers do not get it (`RoundTripIffNoEmptyWeight`). A stream
  of chunks that stops early is not noticed by the merge: it accepts every initial part and has all weights exactly when
  nothing is missing (`TruncatedStreamIsAccepted`).
- The send loop raises an assertion exactly when two chunks with the same name come into one bucket (`AcceptedIff`); so
  does the relay chain's. The kimi engine asserts nothing: its buckets are dictionaries, and it loses tensors exactly
  when a name occurs twice within a bucket (`NothingIsLostIff`, `NamedTensorBuckets`).
- The chunks a relay yields are views of its buffer. They are right until the relay begins to read the next bucket but
  one (`ViewsStayRight`); when it has read that, they show it instead (`ViewsShowTheNextButOne`).
- A small weight is viewed as its dtype where it lies in the buffer. For a set of dtypes that is possible for all lists
  of weights exactly when every item size that fits into a bucket divides the bucket size and, unless it is the bucket
  size, is the smallest of the set (`AlwaysViewableIff`); in buckets with room for two items that means equal item sizes
  that divide the bucket size (`RoomyBucketsIff`). A given list is safe if the largest item size divides the bucket size
  and the size of every weight (`GuardedListsAreViewable`).
- `build_topology` describes a chain only for two or more rollout workers; with a single one the only relay is told to
  pass the weights on and its process group assertion fails (`TopologyIsChainIff`).
- `get_notification` reassigns the name of the agent it waits for. It answers rightly in all situations exactly when at
  most one agent reads from this one, which is so in the chain (`OneReaderIff`).
- With as many offload groups as model groups only the first group is ever moved: the transfer of each other group
  starts before it has any tensors (`OnlyFirstGroupMovesWhenEqual`). The way the handler is wired up has one group less.
- Offloading keeps one copy per unique key, so it gives tensors back exactly when tensors of a group sharing a key have
  the same contents (`OffloadReloadIff`).
- A queue snapshot taken before outputs are cleared and merged after they are removed brings them back into the replay
  buffer and, in validation, where all batches carry the same step, into the next sample. Samples stay free of removed
  outputs, during a run and in what may follow, exactly when no key is removed while a snapshot that has it waits
  (`FreshIffCalm`, `StaysFreshIffAway`, `RemovedKeyIsSampledIff`); from any moment without a waiting snapshot such a
  removal is within reach (`RemovedOutputsCanBeSampledAgain`).
- The pipeline shard search fails with an `IndexError` for some sizes, for example 5 layers on 4 ranks, although an even
  split exists (`GetDynamicPipelineShards`, `AFlatSplitAlwaysExists`).
- A pipeline piece without layers shifts the numbers of all layers after it, so the merged model has layers 0 to L - 1
  exactly when no such piece comes before one with layers (`MergedModelIsCompleteIff`).
- Experts beyond a multiple of the number of expert-parallel ranks are converted by no rank (`ExpertsTiledIff`).
- Splitting undoes stacking exactly when the checkpoint has no stacked tensors of its own (`SplitUndoesMergeIff`), and
  the two programs are inverse exactly when moreover the config has `num_experts`: the first one also accepts
  `n_routed_experts`, the second one does not (`MergeThenSplit`).
- The kimi engine finds a variable unbound when there are no buckets for anybody (`ReceiveTensors`). Without a staging
  buffer a receiver copies its bucket without naming the owner (`AllRanksYieldTheSame`).
- The part of a batch that a chunked future stands for is forgotten when it is chunked again: asked for its only chunk it
  answers with the whole batch, which is its part exactly when it was not chunked before (`ChunkAgainIff`).
- Chunking with padding enabled fails when all but one of the pieces already cover the batch (`Chunk`).
- A parameter that a later file of another rank has as well, or that none of its own rank's files has, cannot be
  synchronized when a checkpoint is loaded in parallel, and no other listed parameter fails (`SourcesAgreeIff`).

## Model

| member | source | states |
|---|---|---|
| WeightChunks.SplitWeightChunks | verl/checkpoint_engine/base.py:529-543 | the generator's loops produce the specified chunk sequence for every list of weights and every bucket size |
| WeightChunks.ChunksAreTheGrid | verl/checkpoint_engine/base.py:531-543 | a weight's chunks are consecutive ranges that cover it, each but the last exactly one bucket long, each with its bytes and metadata |
| Sequences.NumelOfConcat | verl/checkpoint_engine/base.py:561 | the number of elements is the product of the dimensions: joining two shapes multiplies, a single dimension counts as it is, no dimension as one |
| WeightChunks.SizesInBytes | verl/checkpoint_engine/base.py:561 | sizes in bytes, for one dimension of any length and every dtype, and for shapes of several |
| Buffers.CopyInto | verl/checkpoint_engine/base.py:581 | a chunk is written into its range of the buffer and nothing else changes |
| WeightChunks.MergeWeightChunks | verl/checkpoint_engine/base.py:558-585 | for any chunks the merge loop over a real buffer fails exactly where the specification does, and gives out its weights, each with what was written at the beginning of a buffer of the weight's size |
| WeightChunks.CompleteFills | verl/checkpoint_engine/base.py:569-585 | which are the same weights if each was written completely |
| WeightChunks.MergesIff | verl/checkpoint_engine/base.py:558-585 | the merge accepts a stream if and only if every chunk is a small weight as a whole, the beginning of a large one where none is open, or the range of the open one that follows the chunk before it within the size given by its first chunk |
| WeightChunks.MergeUndoesSplit | verl/checkpoint_engine/base.py:529-585 | merging the chunks of any weights raises no assertion, leaves nothing half merged and yields the non-empty weights in order |
| WeightChunks.RoundTripIffNoEmptyWeight | verl/checkpoint_engine/base.py:529-585 | the round trip is complete if and only if no weight is empty |
| WeightChunks.MergeConservesBytes | verl/checkpoint_engine/base.py:558-585 | every byte of an accepted stream is in a yielded weight or in the unfinished one, in order |
| WeightChunks.TruncatedStreamIsAccepted | verl/checkpoint_engine/base.py:558-585 | the merge accepts any initial part of a stream and yields an initial part of its weights; it has all of them and nothing left over if and only if nothing is missing |
| WeightBuckets.PackIsWellPlaced | verl/checkpoint_engine/nccl_checkpoint_engine.py:254-283 | no bucket overflows, and its chunks lie behind each other without gap or overlap |
| WeightBuckets.PackedBackToBack | verl/checkpoint_engine/nccl_checkpoint_engine.py:254-283 | for all weights: a bucket begins at offset 0, every chunk where the one before it ends, none ends beyond the capacity, and a next bucket begins only with a chunk that would |
| WeightBuckets.UnpackUndoesPack | verl/checkpoint_engine/nccl_checkpoint_engine.py:254-283 | reading the buckets in order gives the chunks in order, once each |
| WeightBuckets.NamesDistinctInBuckets | verl/checkpoint_engine/nccl_checkpoint_engine.py:277-281 | with distinct names of the weights both assertions of the send loop hold at every chunk, and no two chunks of one weight share a bucket |
| WeightBuckets.SendableIff | verl/checkpoint_engine/nccl_checkpoint_engine.py:277-281 | both hold at every chunk of a list that fits chunk by chunk if and only if no bucket has a name twice |
| WeightBuckets.AcceptedIff | verl/checkpoint_engine/nccl_checkpoint_engine.py:277-281 | so the sender raises no assertion for a list of weights if and only if no bucket of its chunks has a name twice |
| WeightBuckets.NeighboursOverflow | verl/checkpoint_engine/nccl_checkpoint_engine.py:256-275 | two neighbouring buckets never fit into one |
| WeightBuckets.BucketCount | verl/checkpoint_engine/nccl_checkpoint_engine.py:254-298 | k buckets of capacity B carry T <= k B bytes, and (k - 1) B < 2 T for k >= 2 |
| WeightBuckets.OffsetsAreAligned | verl/checkpoint_engine/nccl_checkpoint_engine.py:280-283 | the next offset is a multiple of a number if the sizes of all chunks before it are |
| WeightAlignment.AlwaysViewableIff | verl/checkpoint_engine/base.py:564-567 | for every set of dtypes and every bucket size: all lists of such weights can be viewed at the receiver if and only if every item size that fits divides the bucket size and is the smallest one or the bucket size itself |
| WeightAlignment.RoomyBucketsIff | verl/checkpoint_engine/base.py:564-567 | with room for two items of any of the dtypes: if and only if all item sizes are equal and divide the bucket size |
| WeightAlignment.GuardedListsAreViewable | verl/checkpoint_engine/base.py:564-567 | a list can be viewed if the largest item size divides the bucket size and the size of every weight |
| WeightAlignment.MixedTypesCanMisalign | verl/checkpoint_engine/base.py:564-567 | wherever two items of different sizes fit into one bucket, some list of such weights cannot be viewed |
| WeightBuckets.BucketSender.constructor | verl/checkpoint_engine/nccl_checkpoint_engine.py:248-253 | the buffers and the bookkeeping at the start agree with the packing |
| WeightBuckets.BucketSender.WaitForComplete | verl/checkpoint_engine/nccl_checkpoint_engine.py:260-261 | what the receivers have got when the broadcast is complete, read partly at its start and partly from its buffer as it is then, is the bucket that was published |
| WeightBuckets.BucketSender.StartBroadcast | verl/checkpoint_engine/nccl_checkpoint_engine.py:263-275 | the full bucket is being broadcast from one buffer and the next one is filled in the other |
| WeightBuckets.BucketSender.PlaceChunk | verl/checkpoint_engine/nccl_checkpoint_engine.py:280-283 | bookkeeping, buffer and packing agree again after a chunk is placed, and the buffer of the running broadcast is not touched |
| WeightBuckets.BucketSender.SendChunk | verl/checkpoint_engine/nccl_checkpoint_engine.py:255-283 | one turn of the send loop: with a full bucket it waits for the broadcast before, starts the next and swaps; both assertions hold and the packing advances by one chunk |
| WeightBuckets.BucketSender.SendLast | verl/checkpoint_engine/nccl_checkpoint_engine.py:285-298 | in the end the receivers have got the buckets of the packing, the last one marked |
| WeightBuckets.SendWeights | verl/checkpoint_engine/nccl_checkpoint_engine.py:248-298 | whatever part of a buffer each broadcast reads at once and whatever only when it is waited for, the receivers get the packing of the split weights, for every list on which no assertion fails |
| NixlChainSafety.StepKeepsInv | verl/checkpoint_engine/nixl_checkpoint_engine.py:397-526 | the invariant of ranks and links survives every step of every rank, in any interleaving, copies byte by byte included |
| NixlChainSafety.ReachableInv | verl/checkpoint_engine/nixl_checkpoint_engine.py:397-526 | it holds in every reachable state of a chain of any length |
| NixlChainLiveness.StepUsesWork | verl/checkpoint_engine/nixl_checkpoint_engine.py:397-526 | every step uses up some of the work left in the whole chain |
| NixlChainResults.YieldsTheSendersChunks | verl/checkpoint_engine/nixl_checkpoint_engine.py:463-526 | at any moment a relay has yielded an initial part of the sender's chunks, metadata and bytes; once done, all of them |
| NixlChainResults.NothingFails | verl/checkpoint_engine/nixl_checkpoint_engine.py:170-421 | no assertion of the protocol fails: chunks fit and have new names in their bucket, copies stay in bounds, a notice has the awaited key |
| NixlChainResults.BuffersAreStable | verl/checkpoint_engine/nixl_checkpoint_engine.py:475-507 | no rank writes a buffer it has published and not had back, or one it is yielding from |
| NixlChainResults.OnlyWritesChangeBuffers | verl/checkpoint_engine/nixl_checkpoint_engine.py:463-507 | nothing but those writes changes a buffer |
| NixlChainResults.OnePublicationPerLink | verl/checkpoint_engine/nixl_checkpoint_engine.py:402-412 | a link carries at most one publication, as a message, a copy or a notice |
| NixlChainResults.NeverStuck | verl/checkpoint_engine/nixl_checkpoint_engine.py:397-526 | in every reachable state that is not final some step is possible |
| NixlChainResults.EveryRunIsBounded | verl/checkpoint_engine/nixl_checkpoint_engine.py:397-526 | no run is longer than the work there was to do |
| NixlChainResults.CompleteRunsDeliver | verl/checkpoint_engine/nixl_checkpoint_engine.py:397-526 | a run that cannot go on has finished everywhere and delivered every chunk to every relay |
| NixlChainViews.EmitsView | verl/checkpoint_engine/nixl_checkpoint_engine.py:491-494 | what a relay yields is the next slice of its send buffer with the metadata of the chunk |
| NixlChainViews.ViewsStayRight | verl/checkpoint_engine/nixl_checkpoint_engine.py:463-526 | in every reachable state such a slice still shows the chunk, as long as the relay has not begun to read the next bucket but one |
| NixlChainViews.ViewsShowTheNextButOne | verl/checkpoint_engine/nixl_checkpoint_engine.py:463-526 | when that bucket has been read, the slice shows the chunk of it that lies in the same place |
| NixlChainViews.ReadEndsView | verl/checkpoint_engine/nixl_checkpoint_engine.py:475-489 | while it is being read, the slice is wrong from the first byte in it that is copied and differs |
| ChainTopology.TopologyIsChainIff | verl/checkpoint_engine/nixl_checkpoint_engine.py:289-305 | the lists describe a chain, and all rollout workers accept them, if and only if there are two or more of these |
| NixlAgent.NixlAgent.ReadMessage | verl/checkpoint_engine/nixl_checkpoint_engine.py:128-132 | a sender's messages are handed out in its order, others are kept, and the caller waits exactly while there is none |
| NixlAgent.FromAt | verl/checkpoint_engine/nixl_checkpoint_engine.py:128-132 | message i of all is, in its sender's list, at the place that the number of earlier messages of that sender says |
| NixlAgent.NixlAgent.GetNotification | verl/checkpoint_engine/nixl_checkpoint_engine.py:134-140 | which sender's notification is returned, and what is left in all queues |
| NixlAgent.WhoIsAnswered | verl/checkpoint_engine/nixl_checkpoint_engine.py:134-140 | that is the awaited sender if something of it is queued, otherwise the last one in the first answer with anything in it, all of which is queued; nobody while all answers are empty |
| NixlAgent.OneReaderIff | verl/checkpoint_engine/nixl_checkpoint_engine.py:134-140 | it is always the awaited sender's if and only if there is one reader at most |
| WeightTransfer.ChainTransfersWeights | verl/checkpoint_engine/nixl_checkpoint_engine.py:440-450 | at any moment of any run of the chain the merge of what a relay has yielded is free of errors and gives an initial part of the weights; in the end all non-empty ones; for every list on which the send loop raises no assertion |
| WeightTransfer.YieldBucket | verl/checkpoint_engine/nccl_checkpoint_engine.py:352-354 | the slices read from the buffer are the chunks of the published bucket |
| WeightTransfer.YieldWhileReceiving | verl/checkpoint_engine/nccl_checkpoint_engine.py:341-363 | they are so while any part of the next bucket arrives in the other buffer |
| WeightTransfer.ReceiveWeightChunks | verl/checkpoint_engine/nccl_checkpoint_engine.py:320-368 | the receive loop yields the chunks of all published buckets in order |
| WeightTransfer.PublishedIsEnough | verl/checkpoint_engine/nccl_checkpoint_engine.py:311-312 | merging what was published gives exactly the non-empty weights |
| WeightTransfer.TransferByBroadcast | verl/checkpoint_engine/nccl_checkpoint_engine.py:248-368 | end to end over the two buffers of the sender and of a receiver: it gets exactly the sender's non-empty weights, for every bucket size and every list on which the sender raises no assertion, however reading, arriving and yielding overlap |
| KimiRegistration.LastIsKept | verl/checkpoint_engine/kimi_checkpoint_engine.py:59 | a bucket, which is a dictionary, has of every name put into it the last tensor and nothing else |
| KimiRegistration.FirstsAreInOrder | verl/checkpoint_engine/kimi_checkpoint_engine.py:59 | and the names are in the order in which they were put first |
| KimiRegistration.GroupsAreClosed | verl/checkpoint_engine/kimi_checkpoint_engine.py:53-57 | a bucket is only closed for a tensor that would have brought its tensors over the limit |
| KimiRegistration.NothingIsLostIff | verl/checkpoint_engine/kimi_checkpoint_engine.py:44-63 | the buckets have all tensors put into them, in order, if and only if no name was put twice into one of them |
| KimiRegistration.NamedTensorBuckets | verl/checkpoint_engine/kimi_checkpoint_engine.py:44-63 | the buckets are the dictionaries of the groups of a rank's share, each within the limit or a single larger tensor, and closed only where the next tensor would go beyond it; they hold exactly the share if and only if no group has a name twice; a non-positive limit is refused |
| KimiRegistration.SharesPartition | verl/checkpoint_engine/kimi_checkpoint_engine.py:49-51 | tensor i is in the share of rank i % w, at place i / w |
| KimiRegistration.ShareEntriesAreTensors | verl/checkpoint_engine/kimi_checkpoint_engine.py:49-51 | and every entry of a share is such a tensor, so the shares partition the input |
| KimiRounds.GroupBuckets | verl/checkpoint_engine/kimi_checkpoint_engine.py:104-110 | every bucket is in its receiver's list, in order, the receivers are in the order of their first buckets, and max_len is the length of the longest list |
| KimiRounds.ListsAreIndices | verl/checkpoint_engine/kimi_checkpoint_engine.py:98-110 | a receiver's list among the grouped buckets is what is left when the buckets of the others are filtered out |
| KimiRounds.OrderVisitsAll | verl/checkpoint_engine/kimi_checkpoint_engine.py:114-125 | the nested loops visit every bucket exactly once, in the round that is its place in its receiver's list, without looking at the rank |
| KimiRounds.EveryBucketOnce | verl/checkpoint_engine/kimi_checkpoint_engine.py:114-125 | any sequence that goes through the rounds in order is a permutation of the buckets |
| KimiRounds.BroadcastsInOrder | verl/checkpoint_engine/kimi_checkpoint_engine.py:104-125 | of two buckets the one is broadcast first that fewer buckets of its receiver come before; with equally many, the one whose receiver comes first in the list of buckets |
| KimiReceive.Broadcast | verl/checkpoint_engine/kimi_checkpoint_engine.py:126-154 | the half has the bucket that is broadcast, put there by its receiver or arrived from it; the tensors yielded meanwhile are those of the bucket before, one for each item with the bytes from its offset on, whatever of the new one has arrived |
| KimiReceive.TensorReceiver.Stage | verl/checkpoint_engine/kimi_checkpoint_engine.py:115-121 | the staging buffer shows the bucket and the halves stay as they are |
| KimiReceive.TensorReceiver.TakeTurn | verl/checkpoint_engine/kimi_checkpoint_engine.py:122-155 | one turn of the inner loop keeps everything a rank knows about the buckets before, and what it has put into the broadcasts |
| KimiTransfer.OwnBuckets | verl/checkpoint_engine/kimi_checkpoint_engine.py:98-102 | the i-th bucket a rank receives is the one at place i of its list among the grouped ones |
| KimiTransfer.Round | verl/checkpoint_engine/kimi_checkpoint_engine.py:114-155 | the bucket staged for a round is the one that is copied out at the rank's turn |
| KimiTransfer.ReceiveTensors | verl/checkpoint_engine/kimi_checkpoint_engine.py:98-166 | on one rank, from the list of buckets: what it puts into each broadcast, and that it yields one tensor for every item of every bucket in the order of the rounds, with the bytes from the item's offset on of its own copy or of what arrived, and nothing else; it fails exactly when there are no buckets |
| KimiTransfer.AllRanksYieldTheSame | verl/checkpoint_engine/kimi_checkpoint_engine.py:98-166 | with broadcasts that deliver what their receivers put into them, all ranks yield for every item of every bucket the bytes from its offset on as they are at the owner, or without staging at the receiver |
| OffloadWindow.BuildWindowMap | verl/utils/activation_offload.py:250-257 | the loop computes (L // G) (i + 1) - 1 + min(i + 1, L % G) for every group |
| OffloadWindow.WindowsIncrease | verl/utils/activation_offload.py:250-257 | the windows strictly increase |
| OffloadWindow.LastWindow | verl/utils/activation_offload.py:250-257 | the last one is at the last layer |
| OffloadWindow.WindowDelay | verl/utils/activation_offload.py:250-257 | no window is before its own group, and with more layers than groups none before the next |
| OffloadHandler.OffloadReloadIff | verl/utils/activation_offload.py:298-371 | offloading and reloading a group gives back all tensors if and only if tensors sharing a key have the same contents |
| OffloadHandler.BackupIsUnique | verl/utils/activation_offload.py:303-315 | then the copies do not depend on the dictionary's order |
| OffloadHandler.CollectGroup | verl/utils/activation_offload.py:300-315 | the pass over the dictionary, in any order, moves exactly the group and keeps the contents of one of its tensors per key |
| OffloadHandler.AsyncOffloadHandler.constructor | verl/utils/activation_offload.py:228-257 | the initial state |
| OffloadHandler.AsyncOffloadHandler.TensorPush | verl/utils/activation_offload.py:272-283 | the new state and the tag of a push |
| OffloadHandler.AsyncOffloadHandler.TensorPop | verl/utils/activation_offload.py:285-296 | the new state and the tensor of a pop |
| OffloadHandler.AsyncOffloadHandler.BulkOffloadGroup | verl/utils/activation_offload.py:298-317 | the new state after a group's transfer has started, with copies that some order of the dictionary gives |
| OffloadHandler.AsyncOffloadHandler.BulkReloadGroup | verl/utils/activation_offload.py:355-371 | the new state after a group has been brought back |
| OffloadHandler.AsyncOffloadHandler.FreeGroup | verl/utils/activation_offload.py:336-338 | exactly the group's buffers are dropped |
| OffloadHandler.AsyncOffloadHandler.AdvanceWindow | verl/utils/activation_offload.py:330-345 | the new state after the window check, with such copies for the next group |
| OffloadHandler.AsyncOffloadHandler.OnGroupCommitForward | verl/utils/activation_offload.py:319-351 | the new state of the commit, with copies that some order of the dictionary gives |
| OffloadHandler.CommitIsDetermined | verl/utils/activation_offload.py:300-351 | which is one state, whatever the order, if tensors that share a key agree in the groups that move |
| OffloadHandler.AsyncOffloadHandler.OnGroupCommitBackward | verl/utils/activation_offload.py:373-395 | the new state after a backward commit |
| OffloadRuns.StepRefines | verl/utils/activation_offload.py:263-395 | every step the training loop may take succeeds, answers like a reference that never moves a tensor, and keeps the relation to it |
| OffloadRuns.HandlerRefinesReference | verl/utils/activation_offload.py:263-395 | over any number of passes nothing fails, every pop returns what was pushed under its tag, and after each complete pass the handler is exactly as it was created |
| OffloadRuns.RestoresAnswer | verl/utils/activation_offload.py:263-296 | a pop answers with the tensor of the push that returned its tag last, however the groups have moved in between |
| OffloadRuns.WhereTensorsAre | verl/utils/activation_offload.py:298-395 | with fewer groups than layers, in every run: exactly when a tensor is on the CPU, by the windows of its own group and of the one before |
| OffloadRuns.KeysAgreeInRuns | verl/utils/activation_offload.py:303-311 | what the offloading methods ask of their state holds throughout every run |
| OffloadRuns.HeldGroups | verl/utils/activation_offload.py:319-345 | in every run, going forward, a group is referenced on the device at most from its first tensor until its window closes |
| OffloadRuns.AtMostTwoGroupsHeld | verl/utils/activation_offload.py:504-543 | as wired up, at most the current group and the one before it are referenced on the device |
| OffloadRuns.OnlyFirstGroupMovesWhenEqual | verl/utils/activation_offload.py:322-345 | in every run with as many groups as layers, nothing but the first group leaves the device |
| ReplayBuffer.UpdateAll | verl/trainer/main_ppo_sync.py:243-246 | the inner dictionaries are updated key by key, in any order |
| ReplayBuffer.ReplayBuffer.Add | verl/trainer/main_ppo_sync.py:234-246 | the new contents of the named partition, tag by tag: what the items have is theirs and the rest as before; all others unchanged |
| ReplayBuffer.ReplayBuffer.Remove | verl/trainer/main_ppo_sync.py:248-259 | the keys are gone from the named partition and nothing else is |
| ReplayBuffer.ReplayBuffer.TrySample | verl/trainer/main_ppo_sync.py:277-294 | the scan waits exactly while an entry of the step is running, and otherwise returns the step's successes, once each, with their tags |
| AgentLoopProtocol.StepKeepsInv | verl/trainer/main_ppo_sync.py:352-449 | the invariant of queue, snapshot and buffer survives every step of workers, poller and trainer |
| AgentLoopProtocol.ReachableInv | verl/trainer/main_ppo_sync.py:211-495 | it holds after every run |
| AgentLoopResults.SamplesAreComplete | verl/trainer/main_ppo_sync.py:277-294 | when the sampler stops waiting, no prompt of the step is running, every output of every finished prompt that was not cleared is in the batch, and the batch has only outputs of the step, once each |
| AgentLoopResults.LookupsSucceed | verl/trainer/main_ppo_sync.py:284-286 | no lookup of the sampler fails, although the "finished" tag carries no step |
| AgentLoopResults.OnePollIsEnough | verl/trainer/main_ppo_sync.py:211-218 | the sampler goes on after the next poll if and only if every prompt of the step has come to an end |
| AgentLoopResults.RemovedKeyIsSampledIff | verl/trainer/main_ppo_sync.py:211-294 | after a removal under a waiting snapshot and its merge, in any run, a removed key is in the batch of its step if and only if the snapshot has it |
| AgentLoopResults.SamplesAreFreshInCalmRuns | verl/trainer/main_ppo_sync.py:248-294 | if keys are removed only while no snapshot with them waits, no sample ever has a removed key |
| AgentLoopResults.StaysFreshIffAway | verl/trainer/main_ppo_sync.py:211-294 | whatever happens from a state on, as long as no key is removed under a snapshot that has it, no sample has a removed key, if and only if neither the buffer nor a waiting snapshot has one now |
| AgentLoopResults.FreshIffCalm | verl/trainer/main_ppo_sync.py:211-294 | that is so of every state of a run if and only if no key is removed in the run while a snapshot that has it waits |
| AgentLoopResults.RemovedOutputsCanBeSampledAgain | verl/trainer/main_ppo_sync.py:884-966 | from any moment of any run without a waiting snapshot, every output in the buffer that is not cleared can be removed in such a way that a later sample has it again |
| AgentLoopResults.FirstOutputIsSeen | verl/trainer/main_ppo_sync.py:211-259 | a state from which that is so: after one prompt has put an output, and one poll and one merge, the output is in the buffer, not cleared, and no snapshot waits |
| OutputKeys.ParseUndoesDecimal | verl/trainer/main_ppo_sync.py:158 | reading digits undoes decimal formatting |
| OutputKeys.NoLeadingZero | verl/trainer/main_ppo_sync.py:422 | only zero is written with a zero in front |
| OutputKeys.ParseIntUndoesDecimal | verl/trainer/main_ppo_sync.py:158 | and so does int(), which also accepts a sign and surrounding spaces |
| OutputKeys.ParseIntForms | verl/trainer/main_ppo_sync.py:158 | for every number, with a sign or without, and any spaces around it |
| OutputKeys.SplitUndoesFormat | verl/trainer/main_ppo_sync.py:156-159 | rsplit gives back uid, session and index for every uid, with underscores or without |
| OutputKeys.SplitJoins | verl/trainer/main_ppo_sync.py:156 | joining the fields of any rsplit gives back the string |
| OutputKeys.FieldsAreSplit | verl/trainer/main_ppo_sync.py:156 | no field but the first has an underscore, and the first only if there are more than maxsplit |
| OutputKeys.OutputStringsAreDistinct | verl/trainer/main_ppo_sync.py:418-422 | two outputs have the same key only if they are the same |
| OutputKeys.SessionKeysAreDistinct | verl/trainer/main_ppo_sync.py:159 | so do two sessions |
| OutputKeys.IsOutputStringIff | verl/trainer/main_ppo_sync.py:156-158 | a string is the key of an output if and only if its last two fields are decimal numbers |
| OutputKeys.KeysDoNotCollide | verl/trainer/main_ppo_sync.py:374-422 | prompts and outputs never share a key if no uid looks like an output's key |
| OutputKeys.OtherUidsCollide | verl/trainer/main_ppo_sync.py:374-422 | a uid that does is also the key of an output of another uid |
| FinalSessions.RowOfOutput | verl/trainer/main_ppo_sync.py:155-160 | what the scan reads out of an output's key |
| FinalSessions.ParseRowIs | verl/trainer/main_ppo_sync.py:155-160 | what it reads out of any key with two underscores, and where int() fails |
| FinalSessions.ShortKeysFail | verl/trainer/main_ppo_sync.py:155-157 | a key with fewer fails |
| FinalSessions.FinalIsUnique | verl/trainer/main_ppo_sync.py:161-162 | a session has one final row |
| FinalSessions.FinalIsOrderIndependent | verl/trainer/main_ppo_sync.py:155-162 | its final output does not depend on the order of the rows |
| FinalSessions.ScanKey | verl/trainer/main_ppo_sync.py:155-162 | one turn of the scan keeps the highest index and the first row that has it |
| FinalSessions.Scan | verl/trainer/main_ppo_sync.py:153-162 | the scan fails exactly on malformed keys and otherwise knows every session's final row |
| FinalSessions.NumberFinals | verl/trainer/main_ppo_sync.py:165-169 | the final rows in dictionary order, and each session's place among them |
| FinalSessions.SelectFinalRows | verl/trainer/main_ppo_sync.py:153-170 | one final row for every session, in the order in which the sessions come first, and for every row the place of its session's |
| FinalSessions.ScatterScores | verl/trainer/main_ppo_sync.py:185-190 | every row has as many positions as its mask, with the score of its session's final row where the mask is set and zero elsewhere |
| FinalSessions.BroadcastAdvantages | verl/trainer/main_ppo_sync.py:153-191 | the whole branch, for any computation of scores on the selected rows: position by position, the score of the session's final row where the mask is set and zero elsewhere |
| ValidationSamples.ReadIs | verl/trainer/main_ppo_sync.py:898-904 | what the scan of a validation batch reads out of a key with three fields, and where int() fails |
| ValidationSamples.ShortKeyIsRead | verl/trainer/main_ppo_sync.py:898-906 | a key with fewer is its own session, with index 0 |
| ValidationSamples.SampleIsUnique | verl/trainer/main_ppo_sync.py:897-906 | a session has one row in a batch that takes part in it as its sample, whatever mixture of three-field and other keys there is |
| ValidationSamples.SampleIsFinal | verl/trainer/main_ppo_sync.py:897-906 | without other keys in the session it is its first row with the highest index |
| ValidationSamples.ScanBatch | verl/trainer/main_ppo_sync.py:895-906 | the scan finds that row of every session of a batch |
| ValidationSamples.AddBatch | verl/trainer/main_ppo_sync.py:907-913 | one batch: those rows are appended in their order, its sessions get their samples in the dictionary, and the other sessions keep theirs |
| ValidationSamples.Validate | verl/trainer/main_ppo_sync.py:895-913 | all batches: it fails exactly where an index does not parse; the list has exactly those rows of all batches in order, and every session is mapped to the one in the last batch it comes in |
| ValidationSamples.LookUpSucceeds | verl/trainer/main_ppo_sync.py:985-991 | the dump finds a sample for the session of every key, one of its own rows |
| ValidationSamples.SampleIsLastOutput | verl/trainer/main_ppo_sync.py:985-991 | for a session of outputs in one batch it is the output with the highest index in all batches |
| ReMaxBaselines.SampledIsRead | verl/trainer/main_ppo_sync.py:1219-1229 | an output counts as sampled if its uid does not have the prefix |
| ReMaxBaselines.BaselineIsRead | verl/trainer/main_ppo_sync.py:1219-1225 | and as a baseline, for the uid behind the prefix, if it does |
| ReMaxBaselines.ReadIs | verl/trainer/main_ppo_sync.py:1219-1223 | any key with three fields: int() is asked of the index of a baseline only, and where it fails |
| ReMaxBaselines.ShortKeysFail | verl/trainer/main_ppo_sync.py:1220 | a key with fewer fails |
| ReMaxBaselines.Partition | verl/trainer/main_ppo_sync.py:1219-1229 | the loop fails exactly on malformed keys and otherwise takes sampled outputs and baselines apart, in order, and knows every prompt's last baseline |
| ReMaxBaselines.FinalIsBaseline | verl/trainer/main_ppo_sync.py:1224-1232 | what is kept for a prompt is the first of its baselines with the highest index, and there is one if and only if there are any |
| ReMaxBaselines.AddBaselines | verl/trainer/main_ppo_sync.py:1212-1260 | it succeeds if and only if all keys are well formed, something was sampled and every sampled output's prompt has a baseline; each sampled output then has the score of its prompt's last baseline, and exactly the baselines are cleared |
| PipelineShards.Search | verl/model_merger/megatron_model_merger.py:80-93 | the loop collects exactly the candidates that fit |
| PipelineShards.UnevennessGrows | verl/model_merger/megatron_model_merger.py:87-92 | a candidate with a larger middle is less even |
| PipelineShards.SearchFinds | verl/model_merger/megatron_model_merger.py:80-96 | there is a candidate if and only if ceil(L / p) (p - 2) + 2 <= L, and the one chosen has the middle ceil(L / p) |
| PipelineShards.GetDynamicPipelineShards | verl/model_merger/megatron_model_merger.py:67-98 | for all integers: which error is raised when, and otherwise the stages: ceil(L / p) between the first and the last, which share the rest with the last at most one longer |
| PipelineShards.ShardsAreASplit | verl/model_merger/megatron_model_merger.py:64-98 | the stages are positive, add up to L, and the largest is ceil(L / p) |
| PipelineShards.NoSplitIsFlatter | verl/model_merger/megatron_model_merger.py:64-65 | no split over p ranks has a smaller largest stage |
| PipelineShards.AFlatSplitAlwaysExists | verl/model_merger/megatron_model_merger.py:67-98 | a split as flat exists whenever there is a layer for every rank |
| QkvLayout.SplitUndoesInterleave | scripts/converter_hf_to_mcore.py:155-161 | taking the groups apart undoes interleaving them |
| QkvLayout.InterleaveUndoesSplit | verl/model_merger/megatron_model_merger.py:342-354 | and the other way round |
| QkvLayout.InterleaveGroup | scripts/converter_hf_to_mcore.py:155-161 | row by row: the i-th group has the i-th query rows, then the i-th key rows, then the i-th value rows |
| QkvLayout.SplitGroups | verl/model_merger/megatron_model_merger.py:342-354 | row by row: where the rows of each group go |
| QkvLayout.SplitChunks | verl/model_merger/megatron_model_merger.py:343-352 | the loop over the chunks of one tensor, failures included |
| QkvLayout.SplitIntoIff | verl/model_merger/megatron_model_merger.py:343-352 | it succeeds if and only if the chunks have the size asked for and come out even, and then takes all groups apart |
| QkvLayout.SplitTensor | verl/model_merger/megatron_model_merger.py:330-354 | the split succeeds if and only if the sizes add up, and then takes every group apart, row by row |
| QkvLayout.MergerUndoesConverter | verl/model_merger/megatron_model_merger.py:330-354 | it reads back what the converter wrote, for all head counts the key-value heads divide |
| QkvLayout.ShardedSplitIsSplit | scripts/legacy_model_merger.py:546-561 | splitting shard by shard is splitting the concatenation |
| QkvLayout.MergeAcrossTp | scripts/legacy_model_merger.py:534-562 | the merge succeeds if and only if its divisions come out even and the chunks of every shard have the size that follows from the first, and then all groups of all shards are taken apart |
| QkvLayout.WholeShardsMerge | scripts/legacy_model_merger.py:534-562 | for any tensor-parallel size dividing the key-value heads, shards of whole groups pass and the merge is the unsharded split of the concatenated shards, row by row |
| QkvLayout.MergedShardsAreTheOriginal | scripts/legacy_model_merger.py:534-562 | which is the original projections if the shards are a converted tensor |
| LayerNumbering.NumbersAreDistinct | scripts/legacy_model_merger.py:634-640 | no two layers of any pieces get the same number |
| LayerNumbering.NumbersAreAllIff | scripts/legacy_model_merger.py:634-661 | the numbers are 0 to L - 1 if and only if no empty piece comes before one with layers |
| LayerNumbering.LayersKeepTheirTensors | scripts/legacy_model_merger.py:613-663 | every layer's tensors are in the merged dictionary under its new number |
| LayerNumbering.TensorsFollow | scripts/legacy_model_merger.py:613-663 | the first piece keeps its numbers, and a later one is numbered behind the piece before it, by that one's highest number plus one |
| LayerNumbering.LayersComeFromPieces | scripts/legacy_model_merger.py:613-663 | and no other layer numbers are |
| LayerNumbering.MergedModelIsCompleteIff | scripts/legacy_model_merger.py:613-663 | the merged dictionary has layers 0 to L - 1 and no others if and only if no empty piece comes before one with layers |
| LayerNumbering.MergePiece | scripts/legacy_model_merger.py:622-661 | the loop over one piece moves its names and finds its highest number |
| LayerNumbering.MergeStateDicts | scripts/legacy_model_merger.py:616-663 | piece v * pp + p in the order of the numbers is stage v of rank p, for all stages and ranks, and there are no others |
| DistributedMerge.MergeRank | verl/model_merger/megatron_model_merger.py:358-421 | a rank's loop from the end of the earlier shards on gives the merge from 0 on, moved by that many layers |
| DistributedMerge.SavedLayersIff | verl/model_merger/megatron_model_merger.py:358-384 | a rank saves exactly the layers of its shard if and only if its pieces have exactly so many layers |
| DistributedMerge.RanksAreDisjoint | verl/model_merger/megatron_model_merger.py:358-421 | then no two ranks save a tensor of the same name |
| DistributedMerge.RanksSaveTheModel | verl/model_merger/megatron_model_merger.py:358-421 | and all ranks together save exactly the layers 0 to L - 1, every tensor of a rank under its new name |
| SaveFiles.RanksTileTheLayers | scripts/converter_hf_to_mcore.py:576-578 | every layer is in exactly one rank's range |
| SaveFiles.RanksAreInOrder | scripts/converter_hf_to_mcore.py:576-578 | layers of a later rank come after those of an earlier one |
| SaveFiles.OneOwnerAtMost | scripts/converter_hf_to_mcore.py:183-192 | no expert is converted by two ranks |
| SaveFiles.OwnedIff | scripts/converter_hf_to_mcore.py:183-192 | an expert is converted by some rank if and only if it is not one of the remainder |
| SaveFiles.ExpertsTiledIff | scripts/converter_hf_to_mcore.py:183-192 | all experts are if and only if the number of ranks divides theirs |
| SaveFiles.ArraySplitJoins | verl/model_merger/megatron_model_merger.py:440 | the chunks joined are the list, and distinct keys are in different chunks; the first |s| % n chunks have one more than |s| / n |
| SaveFiles.WriteFiles | verl/model_merger/megatron_model_merger.py:449-457 | the loop numbers the files and lists each key under the one file it is in |
| SaveFiles.SaveShards | verl/model_merger/megatron_model_merger.py:431-457 | a rank's keys all land in exactly one of its files each; it fails exactly with nothing to split into |
| SaveFiles.FilesTile | verl/model_merger/megatron_model_merger.py:437-453 | a file number is in a rank's range if and only if the layer it belongs to is |
| SaveFiles.EveryFileHasOneRank | verl/model_merger/megatron_model_merger.py:437-453 | a file number is below the total number of files if and only if some rank writes it, and no two ranks do |
| ExpertStacking.StackExperts | scripts/veomni/moe_merge.py:96-100 | one stack: which keys are popped, what is stacked, and when it fails |
| ExpertStacking.MergeExperts | scripts/veomni/moe_merge.py:95-110 | the merged dictionary key by key; it fails exactly where an expert is missing or there is nothing to stack |
| ExpertStacking.SplitStack | scripts/veomni/moe_split.py:78-83 | one stack taken apart, and when it fails |
| ExpertStacking.SplitExperts | scripts/veomni/moe_split.py:73-83 | the split dictionary key by key; it fails exactly where a stack has too few rows |
| ExpertStacking.SplitUndoesMergeIff | scripts/veomni/moe_split.py:73-83 | splitting the merged dictionary gives back the original if and only if that had no stacked tensors in its layers |
| ExpertStacking.MergeModel | scripts/veomni/moe_merge.py:78-110 | when the first program succeeds, from the config's own fields: all experts of all layers from first_k_dense_replace on, num_experts or else n_routed_experts of them; and the stack of every layer, expert by expert |
| ExpertStacking.MergeableIff | scripts/veomni/moe_merge.py:78-94 | which fields of the config decide, and how |
| ExpertStacking.SplitModel | scripts/veomni/moe_split.py:73-83 | the same of the second one, which knows num_experts only: every row of every stack, in its place |
| ExpertStacking.MergeThenSplit | scripts/veomni/moe_split.py:73-83 | one after the other they give back what the first one accepts if and only if the config has num_experts and there were no stacked tensors |
| BatchAlgebra.ConcatOfParts | verl/protocol.py:917-961 | concatenating batches picked from one batch picks the concatenated row numbers, in every column |
| BatchAlgebra.ConcatAt | verl/protocol.py:917-961 | the rows of a batch come behind those of all batches before it, in every column |
| BatchAlgebra.Pad | verl/protocol.py:74-99 | the padded size is divisible and padded row i is row i % n in every column |
| BatchAlgebra.PadTakes | verl/protocol.py:74-99 | the same entry by entry |
| BatchAlgebra.UnpadUndoesPad | verl/protocol.py:102-106 | unpadding gives back the batch |
| BatchAlgebra.EvenChunks | verl/protocol.py:864-903 | a divisible batch makes as many chunks as asked for, of equal size |
| BatchAlgebra.ChunkRangesAt | verl/protocol.py:864-903 | chunk c has the rows from c * ceil(n / chunks) on, that many but for the last |
| BatchAlgebra.Chunk | verl/protocol.py:864-903 | it succeeds if and only if the size is allowed and more than (chunks - 1) ceil(n / chunks), or zero; the rows of every chunk, tensor and other columns alike, and that concatenating undoes it |
| BatchAlgebra.Split | verl/protocol.py:905-914 | the rows of every piece, and that concatenating undoes it for any size |
| BatchAlgebra.PiecesAt | verl/protocol.py:905-914 | piece c has the rows from c * size on, that many but for the last |
| BatchAlgebra.RepeatIsPicked | verl/protocol.py:971-1013 | row i is row i / r if interleaved and row i % n if tiled, in every column |
| BatchAlgebra.RepeatTakes | verl/protocol.py:971-1013 | the same entry by entry |
| BatchAlgebra.UnfoldUndoesFold | verl/protocol.py:202-238 | folding works exactly for divisors, row j of group g is row g * size + j, and unfolding undoes it |
| BatchFutures.Chunk | verl/protocol.py:1192-1208 | chunking a future fetches nothing and makes futures of the same workers that know which part they are |
| BatchFutures.Get | verl/protocol.py:1210-1228 | a future fetches its part of the concatenated batch, and fails exactly where chunking that does |
| BatchFutures.PartsAreTheWhole | verl/protocol.py:1192-1228 | the parts fetched one by one are the chunks of the concatenated batch, and put together they are that batch |
| BatchFutures.PartIsSmaller | verl/protocol.py:1192-1228 | a part has all rows if and only if it is the only one |
| BatchFutures.ChunkAgainIff | verl/protocol.py:1192-1208 | the only chunk of a part is that part if and only if the part is the whole batch, as chunking forgets the part |
| ShardLoading.OneLoader | verl/utils/fsdp_utils.py:316-320 | every file is loaded by exactly one rank |
| ShardLoading.FileOfRank | verl/utils/fsdp_utils.py:319-320 | file f is loaded by rank f / ceil(files / ranks) |
| ShardLoading.FilesPerRank | verl/utils/fsdp_utils.py:319-320 | so no rank loads more files than that |
| ShardLoading.ParallelLoad | verl/utils/fsdp_utils.py:322-335 | the loop over all ranks' files: the entry of a parameter comes from the last file f that gives one, its value if f / ceil(files / ranks) is the rank itself, and that rank's number otherwise |
| ShardLoading.LastFileWins | verl/utils/fsdp_utils.py:322-335 | an entry is the one of the last file that gives one: a rank's own files by their contents, the others by the index |
| ShardLoading.SourcesAgreeIff | verl/utils/fsdp_utils.py:322-376 | a listed parameter can be synchronized if and only if its rank has it in a file and no later file of another rank has it; all ranks then get that rank's last value |
| ShardLoading.UnlistedIff | verl/utils/fsdp_utils.py:322-376 | a parameter that is not listed can be only with a single rank |
| ShardLoading.ConsistentFilesAgree | verl/utils/fsdp_utils.py:322-376 | if every file has what the index lists under it, every parameter can, and all ranks get the checkpoint's value |
| ShardLoading.SyncState | verl/utils/fsdp_utils.py:361-378 | when the collective step succeeds, whose value everybody gets, and what is left |
| ShardLoading.SyncAll | verl/utils/fsdp_utils.py:361-378 | synchronizing parameters in any order fails exactly where one of them cannot be, and gives every one the value its source loaded |

## Left out

- Ray, ZeroMQ, NCCL, NIXL, RDMA and CUDA calls are steps of a model: a link delivers in order, a completion notice comes after the last byte, TransferQueue puts and listings are atomic, streams are synchronized where the program does it.
- WeightTransfer.TransferByBroadcast: one receiver at a time; the receivers of a broadcast do not influence each other.
- The other trainer ranks, which only consume the weights, and the mooncake and HCCL engines.
- WeightChunks.MergeWeightChunks: speaks of bytes; that a view of them as the weight's dtype needs an aligned offset is the subject of `WeightAlignment` alone. A single byte behind the end of a weight's buffer counts as a failure, while torch broadcasts it to nothing; only a stream whose chunks disagree about a weight's size has one.
- WeightBuckets.SendWeights: a broadcast reads its buffer in two parts, at its start and when it is waited for; in between the buffer does not change.
- OffloadHandler.AsyncOffloadHandler.OnGroupCommitForward: requires that no assertion or lookup of the commit fails, which HandlerRefinesReference proves of every run, instead of modelling the failures as outcomes.
- OffloadHandler.AsyncOffloadHandler.TensorPop: the same; so are the other methods of the class.
- Tensors in the offload handler are contiguous; strides, devices, streams and the synchronous handler are not modelled. The reference fixes the order autograd uses: saves going forward, restores of a group once the backward pass has reached it.
- NixlChainViews.ViewsStayRight: when a consumer looks at a view is its own affair; the bucketing of the sglang rollout, for one, clones a weight before it asks for the next (verl/workers/rollout/sglang_rollout/utils.py:104-107).
- ValidationSamples.Validate: the sample lists are lists of places; texts, scores and metrics at these places, and the order in which the dump sorts the rows of a session, are left out.
- ReMaxBaselines.AddBaselines: names outputs by their places in the batch, takes the uid stored with an output to be the one in its key, and sums of token scores as a parameter.
- ReplayBuffer.ReplayBuffer.TrySample: one round of the sampler's loop; that a round comes after each poll interval is not modelled. Sampling by batch size, which compares a missing step and returns an empty batch, is left out, as are the prompt and response lengths in the tags and the order of keys in a batch.
- AgentLoopResults.SamplesAreComplete: speaks of outputs of finished prompts only; sessions of a failed prompt may still be putting outputs when it is sampled.
- The two partitions do not influence each other, so the protocol is modelled for one. Uids of different dispatches differ (they are random).
- OutputKeys.ParseIntUndoesDecimal: int() also accepts digits and spaces beyond ASCII and refuses more than 4300 digits; underscores never reach it.
- FinalSessions.BroadcastAdvantages: the advantage computation itself is a parameter; other estimators are passed through by the program.
- QkvLayout: the gate and up projections, other parameters, biases and the copying into destination tensors with its element counts.
- LayerNumbering: parameters outside the layers, which keep their names, and the renaming itself.
- SaveFiles.SaveShards: file contents are lists of keys; the index files of the ranks are joined by the program, and keys of different ranks differ.
- ExpertStacking: shapes of the stacked tensors; loading and saving of files.
- KimiTransfer.ReceiveTensors: how buckets are made from parameter metadata, and how a bucket is copied from its owner, is external to the repository; names, shapes and dtypes of the tensors are not modelled, only their places and bytes.
- ShardLoading.SyncState: shared parameters, which are synchronized once, and buffers that are not in the checkpoint.
- BatchAlgebra.Chunk: zero rows follow torch.chunk, which gives as many empty chunks as asked for; the chunk method of a TensorDict, which is not part of this model, may give one.
- BatchFutures.ChunkAgainIff: speaks of parts with rows; futures of TensorDicts instead of DataProtos are left out.
- BatchAlgebra: batches without tensors, meta information, and that folding writes into the argument's non-tensor dictionary; reorder, union, sample-level repeat and column chunks.
- Floating-point values and dtype casts, failure of nodes, configuration, logging, user interfaces and everything else not named above.
