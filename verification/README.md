# A model of the LeRobot extension in Dafny

The LeRobot extension reads and writes robot datasets: Parquet rows, MP4 videos and depth images. This
project models its five hand-written components and proves what they promise. Video coding, SQL, Parquet
and the file system appear only through what they answer.

**Video scan.** Producers turn frame rows into decode targets and collect them per video shard
(`VideoQueue`, `VideoProducerState`). Full buffers are sorted, clustered (`VideoBuffers`, `Split`) and
queued; consumers claim them, one consumer per shard at a time. `VideoRuns` has one step per locked
section, `VideoInvariant` and `VideoOrder` what every step keeps, `VideoGuarantees` what follows for whole
runs: nothing is lost or delivered twice, pending targets are bounded, no deadlock, every schedule ends
with everything delivered. `VideoStops` is about runs that fail or are stopped, `VideoRecency` about which
buffers are sent off when. A consumer may be told that the scan has finished while buffers of busy shards
are still ready, so the loss property is one of whole runs. `ShardDecoder` selects the nearest frame for
every target with a two-frame window, which `FrameWindow` describes without the decoder; `DecoderPool` and
`DecoderCache` are the bounded pool of open decoders.

**Timestamp lookup.** `TimestampRows`, `TimestampIndex` and `TimestampScan` show that answering some shards
from an index and the others from a query is the same as one query over all of them. `TimestampSlots` and
`TimestampLookup` are the shared, memory-bounded table of indexes; `TimestampRuns` lets threads, evictions
and file replacements interleave freely. `TimestampUse` and `TimestampMemory` say what the counters of visits
and the reserved bytes stand for in its runs, `TimestampReuse` when an index is used, built or given up for
good, `TimestampRelease` that no memory is kept for nothing. `TimestampCalls` puts whole lookups on top of it.

**Codec executor.** `CodecPool` and `CodecExecutor` are the shared worker pool, `CodecRuns` its
interleavings, `CodecInvariant` and `CodecGuarantees` the accounting, the budgets, the release of borrowed
resources and progress, `CodecErrors` which error a call reports, and `CodecWorkers` how many workers run.

**COPY writer and reader.** `CopyRows` says, on the whole stream of rows, what a dataset of these rows is;
`CopyWriter`, `EpisodeFiles` and `VideoShardWriter` are the objects that write it chunk by chunk, with
`CopyFiles`, `FileSeries` and `VideoShards` the rotation of files. `CopyDataset` states the dataset that is left
behind field by field. `Paths`, `Templates`, `Routes`,
`RouteTable` and `VideoRoutes` are the reader's side, and `CopyRoundTrip` and `CopyReadBack` join the two.
`PairwiseSum`, `PairwiseStats` and `Histogram` are the statistics of one episode, `MergeStats` their merging,
and `FeatureStats` the whole.

**Depth TIFF.** `DepthTiff` says how a file is read (TIFF 6.0, sections 2 and 19), `DepthTiffFile` writes
one, `DepthTiffParser` reads any byte string, `DepthTiffRoundTrip` relates them. `DepthTiffValues` says in
numbers which files are depth images, which byte of the file stands for which pixel, and what is left to
another decoder.

`Sums` and `Collections` are shared helpers. Objects that the program updates in place are classes; each
locked section is a method proved to be a function on the object's state, and the interleavings are built
from those functions. Some proofs pass a definition on as a function value, so that a long proof looks into
it only where it must.

Assumptions, beside the sections of the code that are listed as left out:

- A video yields presentation times in non-decreasing order, and a seek lands at or before its target.
- Times and statistics are exact reals; sizes and counts are unbounded except where the code checks 64-bit
  limits.
- A file's fingerprint is never reused, and a file whose fingerprint is the same before and after a read
  was read as it is.
- A thread that has been notified can go on.

What the proofs found:

- `DecodeImage` refuses files over 64 MiB before it looks at them, while the encoder's header and directory
  take 146 bytes. A depth frame survives encoding and decoding if and only if its pixels are at most
  64 MiB - 146 bytes (`DepthTiffRoundTrip.DepthRoundTrip`, `DepthTiffRoundTrip.LargestFrameIsLost`).
- A decoder goes on without a seek for a first target up to a nanosecond before the last one. It then selects a
  nearest frame if and only if no dropped frame is as near (`FrameWindow.NearestIfReached`); it does so when
  different frames are further apart than twice the step back (`ShardDecoder.Decoder.SafeReaches`). Steps back
  add up over several buffers, so no distance between frames is enough in general
  (`ShardDecoder.StepsBackAddUp`).

## Model

| member | source | states |
|---|---|---|
| VideoBuffers.SortTargets | src/function/video/lerobot_video_frames.cpp:372-390 | the result is sorted by timestamp, episode, frame, route, request and delta, and is a permutation of the targets |
| VideoBuffers.EstimateFrameSpan | src/function/video/lerobot_video_frames.cpp:289-303 | a number of frames from 1 to the largest 64-bit index |
| VideoBuffers.SpanInNumbers | src/function/video/lerobot_video_frames.cpp:289-303 | with c the smallest number that is at least (last - first) * fps, the span is c + 1, or the largest 64-bit index where that is too much |
| VideoBuffers.SortedInColumns | src/function/video/lerobot_video_frames.cpp:372-390 | of two sorted targets the later one is not smaller in the first of timestamp, episode, frame, route, request and delta in which they differ |
| VideoBuffers.SpanIsMonotone | src/function/video/lerobot_video_frames.cpp:289-303 | a shorter stretch of time never spans more frames |
| VideoBuffers.OpensNewCluster | src/function/video/lerobot_video_frames.cpp:392-401 | a target opens a cluster exactly when it is the first or the last cluster could not take it within the gap and span limits |
| VideoBuffers.BuildClusters | src/function/video/lerobot_video_frames.cpp:391-406 | the clusters list, cluster by cluster, the positions between the greedy cuts |
| VideoBuffers.FinalizeDecodeBuffer | src/function/video/lerobot_video_frames.cpp:369-407 | the buffer becomes the sorted permutation of its targets with the greedy clusters |
| VideoBuffers.ClusterFitsIsHereditary | src/function/video/lerobot_video_frames.cpp:396-400 | every consecutive piece of an admissible cluster is admissible |
| VideoBuffers.ClusterInNumbers | src/function/video/lerobot_video_frames.cpp:396-400 | a cluster fits exactly when no two neighbours are further apart than the gap and the first and last target are at most 19999 frames apart |
| VideoBuffers.ClustersAreMinimal | src/function/video/lerobot_video_frames.cpp:369-407 | clusters are consecutive runs within the gap and 20000-frame limits, and no other consecutive split within them has fewer parts |
| Split.GreedyStaysAhead | src/function/video/lerobot_video_frames.cpp:391-406 | cut by cut, the greedy split reaches at least as far as any other admissible one |
| Split.GreedyIsMinimal | src/function/copy/lerobot_copy.cpp:1937-1944 | extending the last part while a hereditary limit allows it uses the fewest parts; shared by clusters and video shards |
| VideoProducerState.ProducerState.TouchPartialBuffer | src/function/video/lerobot_video_frames.cpp:2333-2340 | the shard moves to the front of the list, every other entry keeps its place |
| VideoProducerState.ProducerState.FlushPartialBuffer | src/function/video/lerobot_video_frames.cpp:2342-2356 | a non-empty partial buffer is finalized and becomes the last ready one; nothing else changes |
| VideoProducerState.ProducerState.FlushOldestPartialBuffer | src/function/video/lerobot_video_frames.cpp:2358-2366 | the shard at the back of the list is flushed, if there is one |
| VideoProducerState.ProducerState.FlushAllPartialBuffers | src/function/video/lerobot_video_frames.cpp:2368-2372 | every partial buffer is flushed, in some order |
| VideoProducerState.ProducerState.QueueTarget | src/function/video/lerobot_video_frames.cpp:2251-2261 | one target joins its shard's partial buffer, which is flushed when it reaches its size |
| VideoProducerState.ProducerState.QueueTargets | src/function/video/lerobot_video_frames.cpp:2084-2108 | as many targets as the bound allows are queued in order; a producer that cannot go on publishes the oldest partial buffer and is recorded as blocked |
| VideoProducerState.ProducerState.ProducerFinished | src/function/video/lerobot_video_frames.cpp:2110-2132 | the last producer flushes all partial buffers and marks the source exhausted; after a stop everything pending is dropped |
| VideoProducerState.ProducerState.TryClaimReady | src/function/video/lerobot_video_frames.cpp:2271-2285 | the first ready buffer whose shard no consumer holds is taken, its shard becomes busy and its targets stop counting |
| VideoProducerState.ProducerState.ClaimBuffer | src/function/video/lerobot_video_frames.cpp:2165-2183 | an error is raised first, then a claim is tried and wakes all blocked producers, then the end or a block is reported |
| VideoProducerState.ProducerState.FinishBuffer | src/function/video/lerobot_video_frames.cpp:2185-2190 | the shard is free again and nothing else changes |
| VideoProducerState.ProducerState.RequestStop | src/function/video/lerobot_video_frames.cpp:2151-2163 | the stop flag is set and all blocked producers are woken |
| VideoProducerState.ProducerState.Fail | src/function/video/lerobot_video_frames.cpp:2134-2149 | the error is kept unless there is one already, the state is stopping, and all blocked producers are woken |
| VideoQueue.QueueTargetsKeepsInv | src/function/video/lerobot_video_frames.cpp:2084-2108 | queueing keeps the bound, the count, the list in step with the partial buffers, and leaves a ready buffer whenever it blocks |
| VideoQueue.ProducerFinishedKeepsInv | src/function/video/lerobot_video_frames.cpp:2110-2132 | a finishing producer keeps the same, and the last one leaves no partial buffer |
| VideoQueue.ClaimKeepsInv | src/function/video/lerobot_video_frames.cpp:2165-2183 | a claim keeps the same |
| VideoQueue.QueueAllCounts | src/function/video/lerobot_video_frames.cpp:2090-2092 | queueing n targets adds n to the pending count, whatever is flushed on the way |
| VideoOrder.FlushKeepsOrder | src/function/video/lerobot_video_frames.cpp:2342-2356 | moving a partial buffer to the ready queue keeps, for every shard, claimed then ready then partial targets in queue order |
| VideoOrder.QueueAllKeepsOrder | src/function/video/lerobot_video_frames.cpp:2090-2092 | so does queueing any number of targets |
| VideoOrder.ClaimKeepsOrder | src/function/video/lerobot_video_frames.cpp:2271-2285 | so does claiming past buffers of busy shards |
| VideoOrder.AllClaimed | src/function/video/lerobot_video_frames.cpp:2084-2132 | with nothing ready and nothing partial, the claimed targets are exactly the queued ones |
| VideoInvariant.StridesCoverQueries | src/function/video/lerobot_video_frames.cpp:2438-2442 | the producers' strides visit every query exactly once |
| VideoInvariant.StepKeepsInv | src/function/video/lerobot_video_frames.cpp:2408-2495 | every step of every producer and consumer keeps the whole invariant |
| VideoInvariant.RunKeepsInv | src/function/video/lerobot_video_frames.cpp:2084-2190 | so it holds in every state of every run |
| VideoGuarantees.QueueIsBounded | src/function/video/lerobot_video_frames.cpp:2090-2112 | in every reachable state the pending count is the number of buffered targets and at most the bound, the list lists each non-empty partial buffer once, and a shard is held by at most one consumer |
| VideoGuarantees.CompleteMeansDelivered | src/function/video/lerobot_video_frames.cpp:3080-3146 | when all producers have finished and every consumer has seen the end, nothing is left and the delivered targets are those of all queries |
| VideoGuarantees.NothingIsLost | src/function/video/lerobot_video_frames.cpp:2084-2190 | for whole runs: a complete undisturbed run delivers every target of every query exactly once |
| VideoGuarantees.FinishedWhileReady | src/function/video/lerobot_video_frames.cpp:2165-2183 | a run in which a consumer is told that the scan has finished while a buffer of a busy shard is ready |
| VideoGuarantees.SomeoneCanProceed | src/function/video/lerobot_video_frames.cpp:2084-2132 | no deadlock: unless the run is complete, some productive step can be taken |
| VideoGuarantees.ProductiveDecreases | src/function/video/lerobot_video_frames.cpp:2408-2495 | every productive step strictly decreases a well-founded measure |
| VideoGuarantees.Outcome | src/function/video/lerobot_video_frames.cpp:2084-2190 | whatever the schedule, productive steps end, and then everything has been delivered |
| VideoGuarantees.ClaimsFirstFree | src/function/video/lerobot_video_frames.cpp:2165-2183 | in every reachable state without an error, a claim takes the first ready buffer of a shard that no consumer is decoding, leaves the others in order and wakes all producers; without one the consumer ends if the scan is over or stopped, and otherwise nothing changes |
| VideoStops.ErrorIsTheFirst | src/function/video/lerobot_video_frames.cpp:2134-2149 | in every state of every run the stored error is that of the first producer that failed, and there is none before |
| VideoStops.FailedScanThrows | src/function/video/lerobot_video_frames.cpp:2165-2172 | once a producer has failed, every claim, whatever is ready, takes nothing and raises the first error |
| VideoStops.ThrownIsTheFirstError | src/function/video/lerobot_video_frames.cpp:2134-2172 | an error is raised in a consumer only if a producer failed before, and then it is the error of the first that did |
| VideoStops.NothingAfterAStop | src/function/video/lerobot_video_frames.cpp:2084-2163 | after a stop, a failure or an abandoned producer no target is queued any more |
| VideoRecency.RunIsTidy | src/function/video/lerobot_video_frames.cpp:2333-2340 | in every state of every run the list has the shards in the order in which targets were last queued for them, and buffers have their sizes |
| VideoRecency.BuffersAreSized | src/function/video/lerobot_video_frames.cpp:2251-2261 | in every reachable state partial buffers are below the buffer size, and ready and claimed ones hold at least one target and at most that size |
| VideoRecency.SleepersSendOffTheOldest | src/function/video/lerobot_video_frames.cpp:2099-2103 | a producer goes to sleep only at the bound of pending targets, and what it publishes before is waiting longest: every partial buffer left got its last target later |
| FrameWindow.NearestIsUnique | src/function/video/lerobot_video_frames.cpp:1009-1014 | what is nearest to a target is one timestamp: two decoders that both yield a nearest frame, one going on and one seeking, yield the same |
| FrameWindow.SelectedIsNearestFrom | src/function/video/lerobot_video_frames.cpp:1008-1014 | for every stream and target, the frame the window ends up with is nearest, the earlier on a tie, among the frames from the oldest retained one on |
| FrameWindow.NearestIfReached | src/function/video/lerobot_video_frames.cpp:951-954 | it is nearest in the whole stream if and only if every earlier frame has the timestamp of the oldest retained one or lies with it around a middle before the target |
| FrameWindow.ReachesLater | src/function/video/lerobot_video_frames.cpp:951-954 | that is so for every target not before the oldest retained frame |
| FrameWindow.ReachesBack | src/function/video/lerobot_video_frames.cpp:951-954 | and for a target some way before the latest one if different frames are more than twice as far apart |
| FrameWindow.DecodedMeans | src/function/video/lerobot_video_frames.cpp:1001-1043 | a target is refused for lack of frames, for the budget or for the tolerance exactly when there are none, when more have to be read since the seek than the budget allows, or when every selectable frame is out of tolerance; otherwise it gets a nearest one |
| FrameWindow.DecodedLater | src/function/video/lerobot_video_frames.cpp:1001-1043 | decoding a target after an earlier one has the outcome of decoding it at once, and leaves the same window |
| FrameWindow.OverBudgetLater | src/function/video/lerobot_video_frames.cpp:1163-1173 | a cluster stays within its budget if its last target does |
| ShardDecoder.FinalizedIsDecodable | src/function/video/lerobot_video_frames.cpp:940-960 | buffers as the queue finalizes them meet what BeginBuffer relies on |
| ShardDecoder.BudgetInNumbers | src/function/video/lerobot_video_frames.cpp:306-313 | a need for frames exceeds the budget exactly when it is more than 20001 above the frames between first and last target |
| ShardDecoder.Decoder.ContinuesInNumbers | src/function/video/lerobot_video_frames.cpp:951-954 | decoding goes on without a seek exactly when there was one, the buffer is of the same shard, its first target is at most a nanosecond before and at most the gap behind the last one, the stream has not ended, and its first cluster ends less than 20000 frames behind the seek |
| ShardDecoder.Decoder.NearSeekIsInReach | src/function/video/lerobot_video_frames.cpp:1117-1173 | a cluster whose seek lands at most 20000 frames before the first frame it needs, with no more frames from there to its last target than its rate has it, is never refused for its budget |
| ShardDecoder.Decoder.StartCluster | src/function/video/lerobot_video_frames.cpp:1102-1139 | after the seek the decoder is where the plan of a fresh cluster has it, with that cluster's frame budget |
| ShardDecoder.Decoder.BeginBuffer | src/function/video/lerobot_video_frames.cpp:940-960 | a usable buffer is begun at its first target, by seeking or, exactly under the program's conditions, by going on from the window and the seek before |
| ShardDecoder.Decoder.Next | src/function/video/lerobot_video_frames.cpp:989-1045 | the next target of the buffer, in order: yielded with the frame its plan selects or refused for the reason its plan gives; the end exactly after the last target |
| ShardDecoder.Decoder.SafeReaches | src/function/video/lerobot_video_frames.cpp:951-954 | no nearer frame is missed unless decoding goes on to a target before the latest one since the seek, nor then if different frames are more than twice as far apart as the step back |
| ShardDecoder.Decoder.DecodeAll | src/function/video/lerobot_video_frames.cpp:989-1045 | every target of a buffer is yielded exactly once, in order, if and only if there are frames, no cluster needs more than 20001 frames from its seek beyond those between its start and its last target, and every target has a selectable frame within the tolerance; each is nearest among the selectable frames, and nearest of all if and only if its plan reaches it |
| ShardDecoder.StepsBackAddUp | src/function/video/lerobot_video_frames.cpp:951-954 | however far apart frames are, buffers that each step back by the slack lead the decoder to yield the second of three frames for a target at the first one |
| DecoderPool.NewestIsBack | src/function/video/lerobot_video_frames.cpp:1494-1501 | the most recently released decoder of a shard is at the back of its deque |
| DecoderPool.OldestIsFront | src/function/video/lerobot_video_frames.cpp:1518-1524 | the least recently released decoder of all is at the front of its shard's deque |
| DecoderPool.AcquireIsFair | src/function/video/lerobot_video_frames.cpp:1493-1531 | a hit is an idle decoder of the requested shard, leased to nobody, the newest; an eviction takes the least recently released decoder of all and only at full capacity; waiting means that all capacity is with other users |
| DecoderPool.StepKeepsInv | src/function/video/lerobot_video_frames.cpp:1489-1579 | every interleaving keeps open count = idle + leased + being opened, at most the limit, and every decoder opened so far in exactly one place: idle, leased, or evicted or discarded |
| DecoderPool.RunKeepsInv | src/function/video/lerobot_video_frames.cpp:1489-1579 | so it holds in every run, failed opens and discards included |
| DecoderPool.WaitersHaveSomeoneToWaitFor | src/function/video/lerobot_video_frames.cpp:1514-1517 | a waiter waits for a decoder that is leased or being opened |
| DecoderPool.WaitersAreServed | src/function/video/lerobot_video_frames.cpp:1540-1570 | a release, a discard or a failed open lets a waiter proceed |
| DecoderCache.Cache.TakeBack | src/function/video/lerobot_video_frames.cpp:1494-1507 | taking the newest decoder of a shard keeps the shard list and the deques in step with the release order |
| DecoderCache.Cache.TakeOldest | src/function/video/lerobot_video_frames.cpp:1518-1526 | so does taking the oldest of all |
| DecoderCache.Cache.Acquire | src/function/video/lerobot_video_frames.cpp:1491-1531 | one pass under the lock: hit, reserve, wait or evict, with the exact new state |
| DecoderCache.Cache.OpenFailed | src/function/video/lerobot_video_frames.cpp:1539-1544 | a failed open gives its capacity back |
| DecoderCache.Cache.Release | src/function/video/lerobot_video_frames.cpp:1547-1556 | the decoder becomes the most recently released one |
| DecoderCache.Cache.Discard | src/function/video/lerobot_video_frames.cpp:1558-1569 | a discarded decoder gives its capacity back |
| TimestampRows.IndexAgreesWithQuery | src/storage/lerobot_timestamp_lookup.cpp:78-96 | for every shard and key, what the sorted index finds and what the filtered query answers agree: equal counts, and the same timestamp and presence when the count is 1 |
| TimestampRows.BlockMatches | src/storage/lerobot_timestamp_lookup.cpp:84-90 | the rows between lower and upper bound are exactly the rows with the key |
| TimestampRows.MergeTracks | src/storage/lerobot_timestamp_lookup.cpp:113-122 | merging two partial answers is an answer for both row sets, and fails exactly when the count would overflow |
| TimestampRows.TracksReordered | src/storage/lerobot_timestamp_lookup.cpp:368-396 | the order in which shards are combined does not show in the answer |
| TimestampIndex.Insert | src/storage/lerobot_timestamp_lookup.cpp:242-247 | insertion keeps key order and the multiset of rows |
| TimestampIndex.Sort | src/storage/lerobot_timestamp_lookup.cpp:240-248 | the rows in key order, the same multiset |
| TimestampIndex.LowerBound | src/storage/lerobot_timestamp_lookup.cpp:84-86 | the boundary between keys below and not below the wanted one |
| TimestampIndex.UpperBound | src/storage/lerobot_timestamp_lookup.cpp:87-89 | the boundary between keys not above and above the wanted one |
| TimestampIndex.Find | src/storage/lerobot_timestamp_lookup.cpp:78-96 | the number of rows with the key, with a timestamp only for a single row |
| TimestampIndex.FillRows | src/storage/lerobot_timestamp_lookup.cpp:212-238 | rows with NULL keys are skipped, the rest are written in order into a buffer of the promised size, and one row too many is refused before it is written |
| TimestampIndex.LoadRows | src/storage/lerobot_timestamp_lookup.cpp:177-251 | the index is None exactly when the file holds more keyed rows than its footer promised; otherwise it is sorted and holds exactly the keyed rows |
| TimestampScan.MergeAllTracks | src/storage/lerobot_timestamp_lookup.cpp:113-122 | merging one answer per key is an answer for the rows of both, and fails exactly when a key has too many |
| TimestampScan.MergeIndex | src/storage/lerobot_timestamp_lookup.cpp:369-371 | what one index finds is merged for every key, unless one is too much |
| TimestampScan.KeyIndex | src/storage/lerobot_timestamp_lookup.cpp:387-388 | the position of a requested key |
| TimestampScan.MergeAnswers | src/storage/lerobot_timestamp_lookup.cpp:374-399 | so is what the filtered query answers, in whatever order its rows arrive |
| TimestampScan.PartsMakeUpAll | src/storage/lerobot_timestamp_lookup.cpp:361-368 | indexed and queried shards together hold the rows of all shards, whatever the split |
| TimestampScan.LookupIndexed | src/storage/lerobot_timestamp_lookup.cpp:360-373 | all indexed shards are merged, in order |
| TimestampScan.Lookup | src/storage/lerobot_timestamp_lookup.cpp:349-401 | for every split into indexed and queried shards the result agrees with one plain query over all of them, and fails exactly when that query has too many rows for a key |
| TimestampLookup.Lookup.Reserve | src/storage/lerobot_timestamp_lookup.cpp:151-175 | indexes are evicted least recently used first and only while the reservation does not fit; it fails only when no slot has an index left |
| TimestampLookup.Lookup.OldestIndexed | src/storage/lerobot_timestamp_lookup.cpp:156-161 | the least recently used slot that has an index |
| TimestampLookup.Lookup.Evict | src/storage/lerobot_timestamp_lookup.cpp:165-168 | the slot gives up its index and is marked not to be built again |
| TimestampLookup.Lookup.EraseOldest | src/storage/lerobot_timestamp_lookup.cpp:263-270 | the least recently used slot leaves the full table |
| TimestampLookup.Lookup.Visit | src/storage/lerobot_timestamp_lookup.cpp:258-280 | the shard is tracked and touched; it is eligible from its third visit on, with enough requests and no load under way |
| TimestampLookup.Lookup.Compare | src/storage/lerobot_timestamp_lookup.cpp:284-307 | reuse, replace the slot of a replaced file, skip, or start the only load |
| TimestampLookup.Lookup.Publish | src/storage/lerobot_timestamp_lookup.cpp:328-341 | the index is published exactly for an unchanged file whose slot is still in place |
| TimestampLookup.Lookup.StopLoading | src/storage/lerobot_timestamp_lookup.cpp:342-346 | after a failed load the slot may be loaded again and nothing else changes |
| TimestampLookup.Lookup.Unpin | src/storage/lerobot_timestamp_lookup.cpp:73-76 | an index that nobody refers to any more gives its bytes back |
| TimestampInvariant.EvictAllOk | src/storage/lerobot_timestamp_lookup.cpp:155-170 | evictions free no index that another thread uses and keep the byte count exact |
| TimestampInvariant.AllocateOk | src/storage/lerobot_timestamp_lookup.cpp:171-174 | a reservation that fits keeps sum and peak within the limit |
| TimestampInvariant.CompareOk | src/storage/lerobot_timestamp_lookup.cpp:284-307 | a reused index is that of the file with this fingerprint; a load starts only where none is under way |
| TimestampInvariant.PublishOk | src/storage/lerobot_timestamp_lookup.cpp:328-341 | a published index is that of the file with the slot's fingerprint |
| TimestampRuns.StepKeepsInv | src/storage/lerobot_timestamp_lookup.cpp:253-347 | every section of every thread, failures, evictions and file replacements included, keeps the invariant |
| TimestampRuns.RunKeepsInv | src/storage/lerobot_timestamp_lookup.cpp:253-347 | so it holds in every run |
| TimestampRuns.UsedIndexIsTheFile | src/storage/lerobot_timestamp_lookup.cpp:283-300 | an index in use holds the rows of its file as of a moment of the call; if the file has not been replaced since the call began, its current rows |
| TimestampRuns.UsedIndexStays | src/storage/lerobot_timestamp_lookup.cpp:151-170 | it stays that and stays allocated while it is used, whatever other threads do |
| TimestampRuns.OneLoaderPerSlot | src/storage/lerobot_timestamp_lookup.cpp:284-307 | a slot has at most one loader |
| TimestampRuns.MemoryIsBounded | src/storage/lerobot_timestamp_lookup.cpp:62-76 | the reservations of all live indexes, evicted but pinned and loading ones included, are the counted bytes and never exceed the limit; neither does the peak |
| TimestampMemory.RowsFitMemory | src/storage/lerobot_timestamp_lookup.cpp:151-238 | in every state of every run, the rows of all live indexes together, at 32 bytes each, fit the limit |
| TimestampMemory.PeakIsTheMost | src/storage/lerobot_timestamp_lookup.cpp:171-174 | in every run the peak is the most bytes of all states so far |
| TimestampRelease.RunKeepsNoLeak | src/storage/lerobot_timestamp_lookup.cpp:62-76 | in every state of every run all live indexes are held by threads or by slots, and all slots with an index are tracked or in the hands of threads |
| TimestampRelease.LiveIndexHasAUser | src/storage/lerobot_timestamp_lookup.cpp:62-76 | so no memory is kept for nothing: a live index is in use by a thread or is the index of its slot, which is tracked or in the hands of a thread |
| TimestampReuse.UsesOrBuilds | src/storage/lerobot_timestamp_lookup.cpp:284-307 | in every reachable state a call uses the index of its shard exactly when there is one for the version of the file it has found, and builds one exactly when there is none, nobody else builds it and it was neither evicted nor refused |
| TimestampReuse.OutForGood | src/storage/lerobot_timestamp_lookup.cpp:165-168 | a slot that was evicted or could not get an index stays so, whatever anybody does |
| TimestampReuse.EvictedIsNotRebuilt | src/storage/lerobot_timestamp_lookup.cpp:151-170 | in every run, once an index had to make room, no call that holds its slot uses or builds one again |
| TimestampUse.IndexedFromThirdVisit | src/storage/lerobot_timestamp_lookup.cpp:258-280 | in every run a call goes on to look for an index exactly from the third visit since the shard has been tracked on, with enough requests and no load under way |
| TimestampUse.SixtyFourAreTracked | src/storage/lerobot_timestamp_lookup.cpp:263-270 | at most 64 shards are tracked, and a further one takes the place of the shard whose last visit is the earliest |
| TimestampUse.UsedInOrderOfVisits | src/storage/lerobot_timestamp_lookup.cpp:275-277 | in every run slots are in the order of the last visits of their shards |
| TimestampUse.EvictedIsLeastRecentlyVisited | src/storage/lerobot_timestamp_lookup.cpp:156-161 | the index to be evicted next is that of the shard whose last visit is the earliest |
| TimestampCalls.FileMerged | src/storage/lerobot_timestamp_lookup.cpp:365-372 | merging the index of one file: the matches stay those of the rows seen so far, or there are too many |
| TimestampCalls.StepKeepsInv | src/storage/lerobot_timestamp_lookup.cpp:253-401 | every step of every call, of loading, evicting and replacing keeps: the matches of a call are those of the indexed files gone through, each as at some version it had during the call |
| TimestampCalls.RunKeepsInv | src/storage/lerobot_timestamp_lookup.cpp:253-401 | so it holds in every state of every run |
| TimestampCalls.LookupIsAScan | src/storage/lerobot_timestamp_lookup.cpp:349-401 | in every run, a call that returns gives what one plain scan of all its files would, each file as at some moment between the call's beginning and its end |
| TimestampCalls.LookupAgreesWithScan | src/storage/lerobot_timestamp_lookup.cpp:349-401 | if none of its files is replaced meanwhile, that is a scan of their current contents: too many rows exactly when the scan has too many, otherwise for every key the same count, and the same timestamp for a single row |
| CodecPool.SharesMakeUpBudget | src/function/copy/lerobot_codec_executor.cpp:253-269 | the thread shares of the slots sum exactly to the budget and every job gets at least one thread and at most the budget |
| CodecPool.FirstTakeable | src/function/copy/lerobot_codec_executor.cpp:130-142 | the first job that is cancelled or fits all budgets; none before it does |
| CodecPool.CapacityIsUnique | src/function/copy/lerobot_codec_executor.cpp:74-88 | the smallest live host budget, 1 without live batches, is well defined |
| CodecPool.OthersAreLeft | src/function/copy/lerobot_codec_executor.cpp:159-166 | discarding removes exactly the batch's own jobs |
| CodecExecutor.Executor.GlobalCodecCapacityLocked | src/function/copy/lerobot_codec_executor.cpp:74-88 | finished batches are dropped and the capacity is the smallest host budget of the others, 1 without any |
| CodecExecutor.Executor.DesiredWorkerCountLocked | src/function/copy/lerobot_codec_executor.cpp:90-115 | as many workers as the live batches can use, up to the largest of their host budgets |
| CodecExecutor.Executor.EnsureWorkersLocked | src/function/copy/lerobot_codec_executor.cpp:117-126 | exactly the workers missing from the desired number are started |
| CodecExecutor.Executor.TryTakeJobLocked | src/function/copy/lerobot_codec_executor.cpp:128-152 | the first takeable job is taken, with its budget counted unless its batch is cancelled |
| CodecExecutor.Executor.DiscardQueuedJobs | src/function/copy/lerobot_codec_executor.cpp:157-169 | exactly the batch's queued jobs are dropped and counted down |
| CodecExecutor.Executor.CountDiscardedJobs | src/function/copy/lerobot_codec_executor.cpp:170-173 | the dropped jobs count as completed |
| CodecExecutor.Executor.ExchangeCancelled | src/function/copy/lerobot_codec_executor.cpp:181 | only the first failure of a batch gets to set its error |
| CodecExecutor.Executor.SetError | src/function/copy/lerobot_codec_executor.cpp:182-183 | the batch has the given error and nothing else changes |
| CodecExecutor.Executor.ReleaseBudget | src/function/copy/lerobot_codec_executor.cpp:185-197 | a reserved job gives back its worker and threads; any job counts down the remaining ones |
| CodecExecutor.Executor.PublishResult | src/function/copy/lerobot_codec_executor.cpp:198-208 | the result is stored at the job's own position unless the batch is cancelled, and the job counts as completed |
| CodecExecutor.Executor.Enqueue | src/function/copy/lerobot_codec_executor.cpp:243-296 | the batch and its jobs are queued with their thread shares and the missing workers are started, or an invalid budget is refused |
| CodecInvariant.TakeOk | src/function/copy/lerobot_codec_executor.cpp:128-152 | taking a job keeps the invariant: budgets, counts, one place per job |
| CodecInvariant.ReleaseOk | src/function/copy/lerobot_codec_executor.cpp:185-197 | so does giving back the budget |
| CodecInvariant.PublishOk | src/function/copy/lerobot_codec_executor.cpp:198-208 | so does publishing |
| CodecInvariant.DiscardOk | src/function/copy/lerobot_codec_executor.cpp:154-176 | so does discarding queued jobs while others are in flight |
| CodecInvariant.SubmitOk | src/function/copy/lerobot_codec_executor.cpp:242-293 | so does the arrival of a batch beside others |
| CodecInvariant.StepKeepsInv | src/function/copy/lerobot_codec_executor.cpp:128-325 | every step of workers and callers keeps the invariant |
| CodecInvariant.RunKeepsInv | src/function/copy/lerobot_codec_executor.cpp:128-325 | so it holds in every run |
| CodecGuarantees.EachJobIsInOnePlace | src/function/copy/lerobot_codec_executor.cpp:128-211 | each submitted job is queued, with one worker, or settled, exactly once |
| CodecGuarantees.FinishedBatchIsFree | src/function/copy/lerobot_codec_executor.cpp:299-317 | when a call leaves its wait loop, no queue entry and no worker refers to its batch: the borrowed file system is no longer used |
| CodecGuarantees.ResultsAreTheEncodings | src/function/copy/lerobot_codec_executor.cpp:316-324 | on a normal return every result is the encoding of the job at its position, whatever the completion order; otherwise the call was interrupted or reports the batch's error |
| CodecErrors.ReasonsKept | src/function/copy/lerobot_codec_executor.cpp:178-184 | every step keeps: an error of a batch, and one on its way there, is that of the first worker to report a failed job of this batch |
| CodecErrors.ReportedErrorIsTheFirst | src/function/copy/lerobot_codec_executor.cpp:316-323 | in every run, a call that reports an error reports the one with which an earlier encoding of one of its own jobs failed, by the worker that was the first to report a failure of this call |
| CodecGuarantees.BudgetsAreKept | src/function/copy/lerobot_codec_executor.cpp:138-145 | worker and thread use stay within each batch's budgets, and the executor's thread count is the sum over its batches |
| CodecWorkers.BatchIsAsSubmitted | src/function/copy/lerobot_codec_executor.cpp:253-276 | in every state of every run a batch has the jobs, the thread budget and the host budget of the call that queued it, and may have the least of its jobs, its workers and its threads as workers |
| CodecWorkers.CancelledResultsStay | src/function/copy/lerobot_codec_executor.cpp:198-204 | no result of a cancelled batch changes any more |
| CodecGuarantees.AdmissionFitsEveryHostBudget | src/function/copy/lerobot_codec_executor.cpp:129-145 | every admission fits the smallest live host budget |
| CodecGuarantees.IdlePoolTakesAJob | src/function/copy/lerobot_codec_executor.cpp:128-152 | with jobs queued and none in flight a job can always be taken, also with unequal host budgets |
| CodecGuarantees.SomeoneCanProceed | src/function/copy/lerobot_codec_executor.cpp:213-315 | while a call has not returned, some step can be taken |
| CodecGuarantees.ProductiveStepsLess | src/function/copy/lerobot_codec_executor.cpp:213-315 | every such step uses up a bounded amount of work |
| CodecGuarantees.EveryCallReturns | src/function/copy/lerobot_codec_executor.cpp:213-325 | so every schedule ends with every call returned |
| CodecWorkers.WorkersForAllBatches | src/function/copy/lerobot_codec_executor.cpp:90-126 | in every run, once a call has queued its jobs, there are as many workers as all unfinished batches together can use within the largest of their host budgets, or as many as before if that is more |
| CopyRows.EpisodesTile | src/function/copy/lerobot_copy.cpp:2182-2187 | the episodes of an accepted stream are numbered 0, 1, 2, ... and their [from, to) ranges tile 0..total_frames |
| CopyRows.RowsOfEpisode | src/function/copy/lerobot_copy.cpp:1802-1819 | index counts all rows, frame_index the rows of the episode, the timestamp is frame_index / fps, and task number and user value are those of the row |
| CopyRows.TasksAreNumberedAsFirstSeen | src/function/copy/lerobot_copy.cpp:1728-1737 | a task's number is how many other tasks were seen before its first row, and the task list has it at that place for good |
| CopyRows.TasksAreDistinct | src/function/copy/lerobot_copy.cpp:1728-1743 | no task is listed twice and every task is listed |
| CopyRows.TasksAreListed | src/function/copy/lerobot_copy.cpp:1739-1743 | the tasks of a range of rows are listed without repetition, in order of first use, and are exactly those of these rows |
| CopyDataset.DatasetIsWritten | src/function/copy/lerobot_copy.cpp:2098-2112 | row k says episode k, from where row k - 1 ended to the end of the input rows with episode k, its length and its tasks in order of first use; the last one ends with the input; the data file it names holds these rows with index, frame_index, timestamp, episode, task and user columns as they must be |
| CopyWriter.Writer.StartEpisode | src/function/copy/lerobot_copy.cpp:1687-1714 | an episode starts exactly when it is the next one in order |
| CopyWriter.Writer.GetTaskIndex | src/function/copy/lerobot_copy.cpp:1728-1737 | a new task gets the next number, a known one keeps its own |
| CopyWriter.Writer.AppendRun | src/function/copy/lerobot_copy.cpp:1745-1825 | the run's rows get the generated columns of their places in the stream; a NULL task means the stream is not acceptable |
| CopyWriter.Writer.ProcessRun | src/function/copy/lerobot_copy.cpp:1834-1856 | one run of a chunk: the state depends only on how many rows have been seen |
| CopyWriter.Writer.Process | src/function/copy/lerobot_copy.cpp:1827-1857 | a chunk is taken exactly when the stream so far stays acceptable, and the state depends on the rows seen, not on the chunks |
| CopyWriter.Writer.FinishEpisode | src/function/copy/lerobot_copy.cpp:2147-2188 | the finished episode with its range, tasks and rows is stored |
| CopyWriter.Writer.Finalize | src/function/copy/lerobot_copy.cpp:2359-2381 | the files hold every episode of the stream and every metadata row |
| CopyWriter.Copy | src/function/copy/lerobot_copy.cpp:1827-2381 | for all chunkings: accepted exactly if the episode column is 0..0 1..1 2..2 without NULLs, and then, field by field, metadata rows, task list and data files are those of the whole stream |
| FileSeries.NthIncreases | src/function/copy/lerobot_copy.cpp:163-170 | file numbers are strictly increasing, so none is used twice |
| FileSeries.NthFillsChunks | src/function/copy/lerobot_copy.cpp:163-170 | every chunk but the last is full |
| FileSeries.OpenNext | src/function/copy/lerobot_copy.cpp:1868-1875 | opening the next file replaces none |
| CopyFiles.DataFullMeans | src/function/copy/lerobot_copy.cpp:1861-1865 | a data file is left exactly when its size, scaled up by the episode to come, reaches the limit |
| CopyFiles.DataFullInNumbers | src/function/copy/lerobot_copy.cpp:1861-1865 | with n > 0 frames in the file, exactly when size * (n + length) reaches limit * n; with none, when the size reaches the limit |
| CopyFiles.MetaFullInNumbers | src/function/copy/lerobot_copy.cpp:2080-2092 | for a metadata file the same with the number of the episode before in the place of n |
| CopyFiles.StoreFollows | src/function/copy/lerobot_copy.cpp:1859-1876 | an episode goes to the open data file, or to the next one exactly when that is full by the frames since its own first episode; metadata files likewise by the number of the episode |
| CopyFiles.BufferStaysSmall | src/function/copy/lerobot_copy.cpp:2140-2144 | fewer rows are buffered than the buffer may have |
| CopyFiles.StoreOk | src/function/copy/lerobot_copy.cpp:2167-2187 | storing an episode keeps every earlier row and file in place and puts data and row where the row says |
| CopyFiles.EverythingIsWhereItsRowSays | src/function/copy/lerobot_copy.cpp:2098-2145 | after the last flush there is one row per episode, in order, in the file it names, with the episode's number, from, to, length and tasks, and the data file it names holds the episode |
| EpisodeFiles.FileWriters.EnsureDataWriter | src/function/copy/lerobot_copy.cpp:1859-1876 | a full data file is closed and the next one opened; a file is open afterwards |
| EpisodeFiles.FileWriters.MaybeRotateEpisodesWriter | src/function/copy/lerobot_copy.cpp:2080-2096 | buffered rows are flushed to the file they name before its number advances; a writer that is not open is left alone |
| EpisodeFiles.FileWriters.AppendEpisodeMetadata | src/function/copy/lerobot_copy.cpp:2098-2145 | the row names the file current after rotation, and a full buffer is flushed |
| EpisodeFiles.FileWriters.FlushMetadataBuffer | src/function/copy/lerobot_copy.cpp:2190-2204 | buffered rows go to the current file, which is opened if necessary |
| EpisodeFiles.FileWriters.StoreEpisode | src/function/copy/lerobot_copy.cpp:2167-2184 | all file invariants hold again with one episode more, and data and metadata file are the open ones or the next, by their sizes |
| EpisodeFiles.FileWriters.Finish | src/function/copy/lerobot_copy.cpp:2365-2367 | no row stays in the buffer |
| VideoShards.ShardFitsIsHereditary | src/function/copy/lerobot_copy.cpp:1937-1939 | every consecutive piece of an admissible shard is admissible |
| VideoShards.ShardsAreMinimal | src/function/copy/lerobot_copy.cpp:1937-1944 | the greedy shards are single episodes or runs below the size limit, and no other consecutive split within the limit has fewer |
| VideoShards.ShardsAreFull | src/function/copy/lerobot_copy.cpp:1937-1944 | a shard of several clips is below the limit, and with the next clip it would not be |
| VideoShards.RoutesTileTheirShard | src/function/copy/lerobot_copy.cpp:1948-1956 | the routes of a shard tile 0..its duration in episode order, and its file is made of exactly these episodes' fragments |
| VideoShardWriter.ShardWriter.Materialize | src/function/copy/lerobot_copy.cpp:1883-1912 | the collected fragments become a new file and the collection is empty |
| VideoShardWriter.ShardWriter.Register | src/function/copy/lerobot_copy.cpp:1929-1957 | the clip joins the shard exactly when it fits, its route is its place there; refused exactly when the bytes of the shard it goes to would exceed 64 bits |
| VideoShardWriter.WriteShards | src/function/copy/lerobot_copy.cpp:1914-1957 | all clips of a feature end up in shards with matching files and routes, and no other consecutive split within the limit has fewer shards; fails exactly when a shard would exceed 64 bits |
| VideoShardWriter.AddTimestamp | src/function/copy/lerobot_video_writer.cpp:563-569 | the sum, or a failure exactly when it leaves the 64-bit range |
| VideoShardWriter.Concatenate | src/function/copy/lerobot_video_writer.cpp:570-648 | every fragment's packets are moved behind the fragments before it; fails exactly on overflow |
| VideoShardWriter.PacketsStayInTheirPart | src/function/copy/lerobot_video_writer.cpp:613-645 | a packet within its fragment lies between the fragment's offset and the next one's |
| Paths.ValueOfDecimal | src/storage/lerobot_metadata_cache.cpp:77 | the decimal digits of a number stand for it |
| Paths.PadIndexIsInjective | src/function/copy/lerobot_copy.cpp:137-142 | padding keeps different indices apart |
| Paths.ChunkPathIsInjective | src/function/copy/lerobot_copy.cpp:144-154 | data, episode and video paths determine chunk and file |
| Paths.FormatDecimal | src/storage/lerobot_metadata_cache.cpp:72-108 | any specifier is accepted and padded, or refused, as defined |
| Paths.FormattedMeans | src/storage/lerobot_metadata_cache.cpp:72-108 | refused exactly for negative numbers and for anything but an optional width up to 1000 and the letter d; otherwise the digits, filled up in front to the width, with zeros if the specifier starts with one and with blanks if not |
| Paths.ThreeDigitsPad | src/storage/lerobot_metadata_cache.cpp:72-108 | the specifier 03d pads as COPY does, for all indices |
| Templates.FormatPathTemplate | src/storage/lerobot_metadata_cache.cpp:110-157 | the whole template is expanded, or refused |
| Templates.ExpandedWritten | src/storage/lerobot_metadata_cache.cpp:110-157 | expansion undoes writing: any template written from text and placeholders, braces doubled, expands to their values |
| Templates.AcceptedIsWritten | src/storage/lerobot_metadata_cache.cpp:110-157 | and nothing else is expanded: every template that is accepted is written from text and placeholders that have values |
| Templates.PlaceholderMeans | src/storage/lerobot_metadata_cache.cpp:123-148 | a placeholder is chunk_index or file_index with an optional specifier, or video_key without one where there is a key, and anything else is refused |
| Templates.DataPathRoundTrip | src/function/copy/lerobot_copy.cpp:42-146 | the data template of info.json expands to the path COPY wrote, for all indices |
| Templates.VideoPathRoundTrip | src/function/copy/lerobot_copy.cpp:43-154 | so does the video template, for all keys and indices |
| RouteTable.Intern | src/storage/lerobot_metadata_cache.cpp:735-744 | a path gets one position, known paths keep theirs |
| RouteTable.ReadRoutes | src/storage/lerobot_metadata_cache.cpp:708-747 | one route per row, leading to the file the row's template names; refused exactly when a row is not acceptable |
| RouteTable.NoDuplicates | src/storage/lerobot_metadata_cache.cpp:752-757 | adjacent comparison of the sorted routes finds every duplicate episode |
| RouteTable.CountsFrames | src/storage/lerobot_metadata_cache.cpp:762-772 | the lengths add up to the declared total, without overflow |
| RouteTable.Load | src/storage/lerobot_metadata_cache.cpp:673-776 | loading succeeds exactly when every row has an episode from 0 on, a positive length and a data file that its template names, no episode occurs twice and the declared totals match; it then represents the rows in episode order |
| RouteTable.FindEpisodeRoute | src/storage/lerobot_metadata_cache.cpp:848-856 | the route of the episode, or none exactly when there is none |
| RouteTable.ResolveDataFiles | src/storage/lerobot_metadata_cache.cpp:829-846 | sorted, without duplicates, exactly the files of the requested episodes that exist |
| VideoRoutes.FindRoute | src/storage/lerobot_metadata_cache.cpp:1141-1160 | the route of the episode and key, or none exactly when there is none |
| CopyRoundTrip.WrittenMetadataLoads | src/storage/lerobot_metadata_cache.cpp:708-772 | what COPY wrote is loaded, with the totals COPY declares |
| CopyRoundTrip.RowNamesTheFile | src/function/copy/lerobot_copy.cpp:2167-2184 | an episode is in one file, and its row names it |
| CopyRoundTrip.ResolvesExactlyTheFiles | src/storage/lerobot_metadata_cache.cpp:829-846 | of the files COPY wrote exactly those with a requested episode are resolved, and nothing else is |
| CopyReadBack.SameFrames | src/storage/lerobot_metadata_cache.cpp:762-772 | the total of the episode lengths does not depend on the order in which the metadata rows are read |
| CopyReadBack.LoadRead | src/storage/lerobot_metadata_cache.cpp:673-776 | what COPY wrote is loaded in whatever order the query returns its rows, and represents the written rows |
| CopyReadBack.CopyThenResolve | src/storage/lerobot_metadata_cache.cpp:829-846 | for all rows however chunked: COPY accepts exactly episodes 0, 1, 2, ..., and then a reader asking for some episodes gets the paths of exactly the written data files that hold one of them, sorted and each once |
| PairwiseSum.PairwiseIsExact | src/function/copy/lerobot_copy.cpp:732-828 | in exact arithmetic the eight-accumulator recursion gives the plain sum, for every count |
| PairwiseSum.PairwiseDepth | src/function/copy/lerobot_copy.cpp:732-828 | a sample goes through at most 25 additions plus one per doubling of the count |
| PairwiseSum.PairwiseSplits | src/function/copy/lerobot_copy.cpp:815-827 | more than 128 samples are split in two at a multiple of eight, at most seven below the middle |
| PairwiseStats.Reduction.Next | src/function/copy/lerobot_copy.cpp:685-729 | samples are read one after the other and the extrema follow |
| PairwiseStats.Reduction.AddBlock | src/function/copy/lerobot_copy.cpp:752-813 | a block of 8 to 128 samples is summed in eight accumulators, collapsed pairwise, and finished one by one |
| PairwiseStats.Reduction.NumpyPairwiseStats | src/function/copy/lerobot_copy.cpp:732-828 | exactly count samples are read, and sum and square sum associate as in the pairwise tree, for any addition whatever |
| PairwiseStats.Reduce | src/function/copy/lerobot_copy.cpp:991-992 | all samples in one pass, with their extrema |
| PairwiseStats.ExtremaBound | src/function/copy/lerobot_copy.cpp:720-729 | the extrema bound every sample |
| PairwiseStats.ExtremaOccur | src/function/copy/lerobot_copy.cpp:720-729 | the extrema are samples |
| Histogram.LinSpace | src/function/copy/lerobot_copy.cpp:834-846 | equally spaced edges, the last one exact |
| Histogram.BinOf | src/function/copy/lerobot_copy.cpp:872-881 | the bin with the value between its edges; values outside go to the outer bins |
| Histogram.BuildHistogram | src/function/copy/lerobot_copy.cpp:854-886 | below each edge as many samples are counted as lie below it |
| Histogram.BinsHoldAllSamples | src/function/copy/lerobot_copy.cpp:865-884 | the bin counts sum to the number of samples |
| Histogram.HistogramQuantile | src/function/copy/lerobot_copy.cpp:888-918 | the value interpolated in the first bin that reaches the target count |
| Histogram.QuantileIsWithinABin | src/function/copy/lerobot_copy.cpp:888-918 | for every sample set the value for a target count is within one bin width of the sample of that rank |
| Histogram.QuantileIsMonotone | src/function/copy/lerobot_copy.cpp:888-918 | it grows with the target count |
| Histogram.TargetIsOnCurve | src/function/copy/lerobot_copy.cpp:888-918 | for every sample set the value is where the number of samples below it, taken to grow evenly within each bin, reaches the target; in the first bin it is the lower edge |
| FeatureStats.Totals | src/function/copy/lerobot_copy.cpp:991-992 | the reduction gives the plain sum, square sum and extrema of the samples |
| FeatureStats.RankExists | src/function/copy/lerobot_copy.cpp:888-918 | every rank from 1 to the number of samples has a sample |
| FeatureStats.ComputeStats | src/function/copy/lerobot_copy.cpp:921-1039 | for every non-empty sample set: count, least, greatest, mean and population variance; each of the five quantiles is where the count of samples, even within 5000 bins from 0.0000000001 below the least to as much above the greatest, reaches q * n, is within one bin of the ceil(q * n)-th smallest sample, and they ascend; a single sample is all of them; an empty set is refused |
| FeatureStats.DatasetStats | src/function/copy/lerobot_copy.cpp:2174-2181 | computed episode by episode and merged, the dataset's statistics are count, extrema, mean and population variance of all samples together, the lower three quantiles are the least of the episodes' and the upper two the greatest |
| MergeStats.VarianceFromSums | src/function/copy/lerobot_copy.cpp:994-999 | mean of squares minus square of mean, at least zero, is the population variance |
| MergeStats.Aggregate.MergeStats | src/function/copy/lerobot_copy.cpp:1049-1132 | the target becomes the merged statistics |
| MergeStats.MergedDescribes | src/function/copy/lerobot_copy.cpp:1077-1128 | merging the statistics of two sample sets gives count, extrema, mean and population variance of all their samples |
| MergeStats.FoldedDescribes | src/function/copy/lerobot_copy.cpp:2174-2181 | so does folding over any list of episodes |
| MergeStats.FoldedQuantiles | src/function/copy/lerobot_copy.cpp:1086-1131 | over any list of episodes the quantiles 0.01, 0.10 and 0.50 are the least and 0.90 and 0.99 the greatest of theirs |
| DepthTiffFile.AppendUInt16 | src/function/copy/lerobot_video_writer.cpp:235-238 | two bytes, least significant first |
| DepthTiffFile.AppendUInt32 | src/function/copy/lerobot_video_writer.cpp:240-244 | four bytes, least significant first |
| DepthTiffFile.AppendTiffEntry | src/function/copy/lerobot_video_writer.cpp:246-251 | one 12-byte directory entry |
| DepthTiffFile.EncodeDepthTiff | src/function/copy/lerobot_video_writer.cpp:253-282 | header, eleven entries and pixels, or a refusal exactly when a dimension or the size exceeds 32 bits |
| DepthTiffParser.ReadNumber | src/function/image/lerobot_decode_image.cpp:43-52 | the unsigned number at an offset in either byte order, or a refusal exactly beyond the data |
| DepthTiffParser.ReadEntry | src/function/image/lerobot_decode_image.cpp:69-86 | the values of an entry, inline or elsewhere, or a refusal |
| DepthTiffParser.ReadDirectory | src/function/image/lerobot_decode_image.cpp:58-87 | the fields of the directory, refused at a malformed or repeated one, and the entries another decoder may see |
| DepthTiffParser.ReadUniform | src/function/image/lerobot_decode_image.cpp:93-108 | the common value of a per-channel field |
| DepthTiffParser.CheckStrips | src/function/image/lerobot_decode_image.cpp:126-130 | whether every strip lies in the file |
| DepthTiffParser.ReadStrips | src/function/image/lerobot_decode_image.cpp:151-165 | the strips' samples in order, byte order adjusted; no write leaves the pixel buffer |
| DepthTiffParser.Interpret | src/function/image/lerobot_decode_image.cpp:88-168 | the image the fields describe, another decoder's image, or an error |
| DepthTiffParser.DecodeDepthTiff | src/function/image/lerobot_decode_image.cpp:39-169 | what any byte string with a TIFF signature decodes to, and the directory entries that another decoder is given |
| DepthTiffParser.DecodeImage | src/function/image/lerobot_decode_image.cpp:205-223 | what any byte string decodes to, up to the hand-over to another decoder with its entries |
| DepthTiff.ImageHasItsPixels | src/function/image/lerobot_decode_image.cpp:143-168 | for every byte string: an image has exactly width * height samples of two or four bytes, at least one, at most 64 MiB |
| DepthTiffRoundTrip.DirectoryRead | src/function/image/lerobot_decode_image.cpp:58-87 | a directory of inline entries is read as its entries |
| DepthTiffRoundTrip.DepthRoundTrip | src/function/image/lerobot_decode_image.cpp:39-223 | decoding a frame written in either byte order, header, directory and samples, gives pixels, width, height and sample type back if and only if the frame and its 146 bytes of header fit 64 MiB |
| DepthTiffRoundTrip.LargestFrameIsLost | src/function/image/lerobot_decode_image.cpp:205-210 | a concrete frame of 64 MiB that the encoder accepts and the decoder refuses |
| DepthTiffRoundTrip.EncodedIsLittle | src/function/copy/lerobot_video_writer.cpp:253-282 | what the encoder writes is the least-significant-first file of the round trip |
| DepthTiffValues.NumberInOrder | src/function/image/lerobot_decode_image.cpp:43-52 | two or four bytes are read as 256 * a + b and so on for MM, and in the opposite order for II |
| DepthTiffValues.EntryMeans | src/function/image/lerobot_decode_image.cpp:69-86 | an entry yields exactly the values that stand in its last four bytes if they fit there and at its pointer otherwise, of type 3 or 4, with a count of at most size / 4, 4 or 1 by tag; it is refused if it holds none |
| DepthTiffValues.DirectoryMeans | src/function/image/lerobot_decode_image.cpp:58-87 | a directory is read exactly when every entry of a known tag holds values and no known tag is repeated, and its fields are those it holds |
| DepthTiffValues.KeptEntries | src/function/image/lerobot_decode_image.cpp:59-64 | another decoder sees all entries but those of tags 338 and 339, in the order of the file |
| DepthTiffValues.StripsAt | src/function/image/lerobot_decode_image.cpp:151-165 | byte b of sample j of strip i is byte b of it in the file, from the other end in a big-endian one |
| DepthTiffValues.DecodedIsDepthTiff | src/function/image/lerobot_decode_image.cpp:39-223 | for all bytes: an image comes only out of an II or MM file within 64 MiB whose directory holds the fields of an uncompressed single-channel 16-bit or float image with matching strips, and every pixel, least significant byte first, is the number at its place in its strip in the file's byte order |
| DepthTiffValues.DepthTiffIsDecoded | src/function/image/lerobot_decode_image.cpp:39-223 | and every such file is decoded to that image |
| DepthTiffValues.OtherMeans | src/function/image/lerobot_decode_image.cpp:109-142 | exactly PNG files and TIFF files of one to four unsigned samples of one width up to 16 bits, with strips in the file, are left to another decoder: float samples never are |

## Left out

- ShardDecoder.Decoder.StartCluster: takes every seek to succeed; a timestamp too large for the stream's time base and errors of the codec or of the file abort the decoder.
- ShardDecoder.Decoder.Next: says nothing about the window of a decoder that has refused a target, which is not used again.
- VideoShardWriter.ShardWriter.Register: does not model the comparison of encoder, codec and pixel format between episodes, and takes durations and sizes from the encoder as given.
- VideoRoutes.FindRoute: takes the routes as sorted by episode and key; loading video routes repeats the loop of the episode routes for every feature and is not modelled.
- RouteTable.Load: does not model datasets stored as Lance tables, whose routes all lead to one table.
- CopyWriter.Copy: takes encoding, statistics and Parquet writing to succeed; every failure of these aborts the whole COPY. User-defined features are one representative column, and an episode's video routes are those of its clip in `VideoShardWriter`.
- MergeStats.Aggregate.MergeStats: keeps the variance instead of its square root and one dimension. Merged quantiles are the minimum or maximum of the episodes' quantiles, as in the code, and not quantiles of all samples.
- FeatureStats.ComputeStats: counts samples; for images the program declares the number of sampled frames as the count, and merges by it. One dimension, in exact arithmetic.
- Histogram.HistogramQuantile: is in exact arithmetic; the float32 result flag and IEEE rounding of edges and interpolation are not modelled.
- PairwiseStats.Reduction.NumpyPairwiseStats: is for one dimension; batches of dimensions do the same side by side. Refusal of NaN and infinity, exact integer extrema and width checks are not modelled.
- TimestampScan.Lookup: takes the indexes as they were obtained and the rows of the nested query as given, one per key in any order; `TimestampCalls` is about whole calls.
- TimestampCalls.LookupIsAScan: reads all files left to the query at one moment, and says nothing about a call that is aborted.
- CodecExecutor.Executor.Enqueue: does not model thread creation failing, the stopping flag or the destructor, which runs only when no call is in progress.
- DepthTiffParser.DecodeImage: stops where another decoder takes over, and does not model the rewritten directory it is given.
- FFmpeg decoding, encoding, scaling and muxing, AVIO adapters and pixel conversion.
- SQL text, JSON output, Parquet writing, option parsing, schema types and bind-time checks.
- Task rescheduling, condition variables, interrupts inside nested queries, and metrics counters.
- Windows of frames, resize index tables and logarithmic depth quantization.
- Retrying metadata loads, cache keys, secrets and transaction views.
- The order of targets that compare equal and of rows with equal keys after an unstable sort, which no property depends on.
- The counter of requests that has to be reached before indexes are built is a flag of each visit.
