# Verified model of the CSD worker

The worker is a small query engine inside a computational storage device. This project models its
four hard parts in Dafny and proves what they promise.

- **The scan, filter, projection and return pipeline.** `RowData` is the row container, `KeyRange` and
  `Scan` the two full scans, `Where` and `FilterStage` the filter, and `Projection*` the completion
  protocol: any number of workers, each with its own merge buffers, a shared countdown per snippet, and
  a release of all buffers when it reaches 0. Every mutex-protected body and every row append is one
  step; schedules are arbitrary. `ProjectionLayer` and `Scan` hold the classes that run the source's
  statements, proved to perform these steps. `ScanEnds` and `ProjectionBounds` say when the containers
  hold what is copied into them, `ProjectionFlushes` and `ProjectionPackets` how many packets there are,
  `ProjectionOrder` in which order things happen. `Pipeline` puts the stages together, `Device` does so with the objects
  and their bytes, and `WorkQueue` is the queue between them.
- **The expression engine.** `Values` is the typed arithmetic, `Postfix` the stack evaluator, `Operations`
  what they answer, `CaseWhen` the CASE interpreter, `CaseTruth` its meaning in plain logic,
  `CaseSpelling` the literals it mistakes for keywords, `Like` the LIKE operator.
- **The Tmax block filter.** `CharCompare` compares columns, `TmaxFilter` filters a block into chunks,
  `TmaxConditions` says what the conditions read,
  `Framing` writes chunks through bounded buffers, `TmaxPipeline` is a whole snippet and `TmaxRows`
  reads its rows back.
- **Codecs.** `Base64` (section 4 of RFC 4648), `RowLayout` and `ValueCodec`.

`dafny verify dfyconfig.toml` checks everything.

## Results

Where the code does not do what one would want of it on all inputs, the model follows the code, and a
theorem says exactly when it does:

| property | holds if and only if |
|---|---|
| a snippet with batches is released exactly once under every schedule, and so in every complete run | its batches together add up to its block count, and no proper, non-empty part of them does |
| a data-block scan is released exactly once under every schedule | some block accounts for the block count and no earlier one does, and the blocks behind it neither reach a key beyond the table nor fill a batch |
| every complete run over a data-block scan delivers the table's rows, and no container is overrun | in addition no row of the table lies behind that block, the blocks of each batch fit a container, and every projected row does |
| an SST scan is released exactly once under every schedule | the block count is not a multiple of 100 that the flushes alone can reach |
| every complete run over an SST scan delivers the table's rows, and no container is overrun | in addition the table number is not -1 or the table has no row, and no scanned and no projected row is longer than a container |
| the SST key range selects the table's rows | the table number is not -1, or there are no such rows |
| the WHERE loop gives AND precedence over OR | no AND stands before an OR |
| CASE WHEN a = b THEN r ELSE e END over leaves has its meaning on every row | a, b, r and e are not spelled like the keywords that matter where they stand, as far as the values of a and b let the interpreter get there |
| LIKE accepts exactly the matching values | the pattern has no '%', or ends in '%' and has at most two parts |
| a decimal sum of two 64-bit operands is exact | both scales are 0; or the one operand with a scale is 0; or the scales are equal and the sum is 0; or the scales differ, the finer operand has no finer digits, and the two errors cancel |
| = on two 64-bit operands is equality of the numbers | their scales are the same, or both fields are 0, or the fields differ and the one with more digits is not the other one scaled up |
| a scale-tracked expression has a value | every result on the way fits its field |
| a decimal reads back from its encoding | 0 <= v < 100*2^47 |
| character comparison is the blank-padded order | no control byte follows the common prefix first |
| no result chunk overflows | no selected row is larger than a chunk |
| the framing loop ends | every chunk fits an empty buffer |
| the framer's chunk index is in bounds | the result list or the chained list is empty |

Two comments in the source say otherwise than the code. The comment at
CSD-Worker-Module/opencsd/filter.cc:31 assumes that AND and OR are not mixed; the loop accepts mixed
lists, and the model covers them. The comment at CSD-Worker-Module/opencsd/worker.cc:117-119 asks for
one chunk list for all blocks; the code makes one per block, and so does the model.

## Model

| member | source | states |
|---|---|---|
| RowData.AppendLayout | CSD-Worker-Module/opencsd/projection.cc:68-73 | pushing the offset and copying the bytes of a row keeps a container in the layout of its row list |
| RowData.ReadBack | CSD-Worker-Module/opencsd/filter.cc:17-19 | in a closed container row i is exactly the bytes between offset i and offset i+1, the first offset is 0 and the last one is the data length |
| Projection.ExecConcat | CSD-Worker-Module/opencsd/projection.cc:7-11 | a run of one schedule followed by another is the run of their concatenation, so every prefix of a run is a run |
| ProjectionSafety.StepStruct | CSD-Worker-Module/opencsd/projection.cc:16-117 | every step of any worker keeps the bookkeeping: queue, jobs and batch stages describe one another, and no batch is held twice |
| ProjectionSafety.StepKey | CSD-Worker-Module/opencsd/projection.cc:87-117 | for a snippet whose batches together add up to its total while no proper, non-empty part of them does, every step keeps the countdown equal to the total minus the blocks counted so far, and its buffers alive only while it counts |
| ProjectionSafety.StepBalance | CSD-Worker-Module/opencsd/projection.cc:62-117 | every step keeps, for each snippet and each measure (copies of any row, blocks, scanned, filtered), returned + buffered = merged |
| ProjectionSafety.CountDownEffect | CSD-Worker-Module/opencsd/projection.cc:95-117 | a countdown that reaches 0 returns one flagged packet, drops every worker's buffer and the counter; any other one touches no buffer |
| ProjectionSafety.ReleaseElsewhere | CSD-Worker-Module/opencsd/projection.cc:107-115 | releasing one snippet changes nothing of another |
| ProjectionRuns.Conservation | CSD-Worker-Module/opencsd/projection.cc:16-117 | in every reachable state, for any number of workers and any counts: what was returned plus what is buffered is exactly what has been merged |
| ProjectionRuns.ReleasedExactlyOnce | CSD-Worker-Module/opencsd/projection.cc:95-117 | if a snippet's batches together add up to its total and no proper, non-empty part of them does, every run releases it at most once, exactly when its last batch is counted, with all projected rows (as a multiset) and all counts returned and nothing left in any buffer |
| ProjectionRuns.Progress | CSD-Worker-Module/opencsd/projection.cc:3-14 | no deadlock: while a batch is unfinished some step is enabled |
| ProjectionRuns.EveryRunCompletes | CSD-Worker-Module/opencsd/projection.cc:3-85 | no run is longer than the work there is, a shorter one can go on, and a run of that length has counted every batch |
| ProjectionRuns.BuffersWithinSize | CSD-Worker-Module/opencsd/projection.cc:62-73 | no merge buffer and no returned packet ever exceeds the buffer size, unless a single row does |
| ProjectionCounts.PositiveCountsSuffice | CSD-Worker-Module/opencsd/projection.cc:98-115 | positive block counts that add up to the total meet the release condition |
| ProjectionCounts.ServeAll | CSD-Worker-Module/opencsd/projection.cc:16-117 | a one-worker schedule exists that serves any chosen part of the batches, and releases as soon as the counter hits 0 |
| ProjectionCounts.ExactCondition | CSD-Worker-Module/opencsd/projection.cc:95-117 | with any workers at all: released exactly once under every schedule if and only if the snippet has batches, they together add up to the total, and no proper, non-empty part of them does |
| ProjectionEnds.Completion | CSD-Worker-Module/opencsd/projection.cc:3-14 | every run can be continued to a complete one |
| ProjectionEnds.RunLate | CSD-Worker-Module/opencsd/projection.cc:87-117 | once a snippet has been released with batches still to come, every run ends with a second release or with a countdown that never reaches 0 |
| ProjectionEnds.SettledExactly | CSD-Worker-Module/opencsd/projection.cc:16-117 | every complete run releases the snippet once, with its whole block count and nothing left in a buffer or in the count map, if and only if its batches together add up to the total and no proper, non-empty part of them does |
| ProjectionBounds.LongRowOverruns | CSD-Worker-Module/opencsd/projection.cc:68-73 | a projected row longer than the buffer size is copied past the end of a merge buffer in some run |
| ProjectionBounds.MergeBuffersExactly | CSD-Worker-Module/opencsd/projection.cc:62-73 | no run fills a merge buffer or a returned packet beyond the buffer size if and only if every projected row fits an empty buffer |
| ProjectionFlushes.MergeRowReturns | CSD-Worker-Module/opencsd/projection.cc:62-73 | one row: if buffer and row together are within the buffer size nothing is returned and the row is appended, otherwise the buffer is returned unflagged and the row stands alone |
| ProjectionFlushes.FlushCount | CSD-Worker-Module/opencsd/projection.cc:62-73 | under every schedule, until the release: each worker's buffer holds its rows since its last overflow, and there are as many packets as overflows, counted from the lengths of the merged rows and the buffer size |
| ProjectionPackets.PacketCount | CSD-Worker-Module/opencsd/projection.cc:62-117 | under every schedule, once a snippet that meets the release condition is released: its packets are one per overflow and one per worker that opened a buffer for it, one of them flagged |
| ProjectionOrder.TakenInOrder | CSD-Worker-Module/opencsd/projection.cc:7-14 | under every schedule the batches are taken in the order in which they arrived |
| ProjectionOrder.ReleaseOrder | CSD-Worker-Module/opencsd/projection.cc:106-113 | a release returns the buffer of every worker that has one, in the order of the worker list, and flags the first |
| ProjectionOrder.RowsInArrivalOrder | CSD-Worker-Module/opencsd/projection.cc:16-117 | with one worker, every complete run returns, and then holds, a snippet's projected rows in the order in which its batches arrived, not only as a multiset |
| ProjectionLayer.FrontMirrors | CSD-Worker-Module/opencsd/projection.cc:3-21 | in every reachable state the queue and each worker's local variables hold the bytes of the batches the protocol says they hold |
| ProjectionLayer.Layer.constructor | CSD-Worker-Module/opencsd/projection.cc:3-5 | an empty layer is the initial protocol state |
| ProjectionLayer.Layer.EnqueueProjection | CSD-Worker-Module/opencsd/projection.h:19-21 | a batch joins the queue, as the protocol step says |
| ProjectionLayer.Layer.PopResult | CSD-Worker-Module/opencsd/projection.cc:7-14 | a worker takes the front batch into its local variable, as the protocol step says |
| ProjectionLayer.Layer.MakeBlockCountMap | CSD-Worker-Module/opencsd/projection.cc:87-93 | registers a snippet's total once, as the protocol step says |
| ProjectionLayer.Layer.CheckIdBuffer | CSD-Worker-Module/opencsd/include/data_structure.h:150-157 | creates a worker's buffer once, as the protocol step says |
| ProjectionLayer.Layer.MergeRow | CSD-Worker-Module/opencsd/projection.cc:62-73 | reads one row back, returns and clears the buffer when the row would not fit, then appends it, as the protocol step says (ProjectionFlushes.MergeRowReturns says what that is) |
| ProjectionLayer.Layer.MergeRows | CSD-Worker-Module/opencsd/projection.cc:23-75 | the row loop is the run of one merge step per row, in row order |
| ProjectionLayer.Layer.AddCounts | CSD-Worker-Module/opencsd/projection.cc:79-81 | adds the three counters, as the protocol step says |
| ProjectionLayer.Layer.ReleaseBuffers | CSD-Worker-Module/opencsd/projection.cc:106-113 | the loop over all workers returns each existing buffer, flags only the first, and drops them all |
| ProjectionLayer.Layer.BlockCountDownAndReleaseBuffer | CSD-Worker-Module/opencsd/projection.cc:95-117 | counts down and releases at 0, as the protocol step says |
| ProjectionLayer.Layer.Projectioning | CSD-Worker-Module/opencsd/projection.cc:16-85 | uninterrupted, the whole body is the run of its protocol steps in order |
| ProjectionLayer.Layer.Perform | CSD-Worker-Module/opencsd/projection.cc:7-117 | in any reachable state, an arriving batch or any step of any worker, done with what that worker has in its local variables, is the protocol step |
| ProjectionLayer.Layer.Run | CSD-Worker-Module/opencsd/projection.cc:3-117 | the object goes through every interleaving the protocol allows |
| ProjectionLayer.RunSchedule | CSD-Worker-Module/opencsd/projection.cc:3-117 | from a new object, under every schedule: the packets handed to the return layer are, byte for byte, those of the protocol |
| ProjectionLayer.PacketsReleasedOnce | CSD-Worker-Module/opencsd/projection.cc:62-117 | under every schedule, for a snippet that meets the release condition: the packets carry one flag once all its batches are counted and none before, and then the rows read off their bytes are, as a multiset, its projected rows |
| KeyRange.IntBytesRoundTrip | CSD-Worker-Module/opencsd/scan.cc:528-530 | the four bytes of an int read back as that int |
| KeyRange.SeekKeyRoundTrip | CSD-Worker-Module/opencsd/scan.cc:528-538 | the table number reads back from the seek key |
| KeyRange.LessIsPrefixLess | CSD-Worker-Module/opencsd/scan.cc:440-458 | against a four-byte bound, key order is the order of the big-endian prefixes |
| KeyRange.LessIs | CSD-Worker-Module/opencsd/scan.cc:440-458 | a key comes first if and only if it is smaller in the first byte that differs, or ends there |
| KeyRange.LessTotal | CSD-Worker-Module/opencsd/scan.cc:440-458 | key order is a strict total order |
| KeyRange.BlockRowsIsSelect | CSD-Worker-Module/opencsd/scan.cc:84-119 | seek, then stop at the first other table number, yields exactly the block's keys with that number |
| KeyRange.CrossesIsLaterKey | CSD-Worker-Module/opencsd/scan.cc:93-100 | a block ends its table's run exactly when it holds a key of a later table |
| KeyRange.RangeIsSelect | CSD-Worker-Module/opencsd/scan.cc:440-458 | the range between two seek keys holds exactly the keys whose prefix is the table number, unless the number is -1 |
| KeyRange.StrategiesAgree | CSD-Worker-Module/opencsd/scan.cc:84-119 | on any sorted keys cut into blocks in any way, the block path and the range select the same rows in the same order, namely the table's; the range alone fails, and only for number -1 with rows present |
| KeyRange.CrossingStays | CSD-Worker-Module/opencsd/scan.cc:93-100 | once a block ends the run, every later block ends it at once and yields no row |
| Scan.BlockScanConserves | CSD-Worker-Module/opencsd/scan.cc:122-168 | after every block of a block scan: emitted + held + left blocks are the total, and the rows read so far lie in the batches in order |
| Scan.InsideBlockConserves | CSD-Worker-Module/opencsd/scan.cc:102-118 | the same inside a block, after any of its rows |
| Scan.AddRowsConserves | CSD-Worker-Module/opencsd/scan.cc:464-507 | the same in every state of an SST scan |
| Scan.SstScanConserves | CSD-Worker-Module/opencsd/scan.cc:434-522 | an SST scan ends with nothing held and nothing left, every row in exactly one batch, in order |
| Scan.SstFlushCounts | CSD-Worker-Module/opencsd/scan.cc:471-479 | every flush of an SST scan counts 100 blocks, and the rest is still to be accounted for |
| Scan.FlushesAre | CSD-Worker-Module/opencsd/scan.cc:471-479 | how many batches an SST scan has flushed follows from the row lengths and the buffer size alone |
| Scan.SstScanCounts | CSD-Worker-Module/opencsd/scan.cc:508-520 | a finished SST scan has one batch of 100 blocks per flush and a last one with whatever is left, positive or not |
| Scan.SstBatchesFit | CSD-Worker-Module/opencsd/scan.cc:471-507 | no batch of an SST scan exceeds the buffer size unless a single row does |
| Scan.CleanBlockScan | CSD-Worker-Module/opencsd/scan.cc:122-168 | a block scan that accounts for csd_block_count in its last block and not before holds nothing back; its batches are full ones and a last one with the rest, all positive if the count is |
| Scan.QuietScan | CSD-Worker-Module/opencsd/scan.cc:121-132 | as long as no block ends the run and the count has not run out, batches leave exactly when full |
| Scan.EarlyEndSplits | CSD-Worker-Module/opencsd/scan.cc:93-132 | a scan that ends early and holds nothing back at the end has emitted a proper part of its batches that adds up to csd_block_count |
| Scan.HeldBack | CSD-Worker-Module/opencsd/scan.cc:121-132 | blocks read after everything was accounted for, fewer than a batch takes, are emitted by nobody |
| Scan.LastEmission | CSD-Worker-Module/opencsd/scan.cc:121-132 | the blocks read since the last emission are all held, fewer than a batch takes |
| Scan.EarlyEndEmitsZero | CSD-Worker-Module/opencsd/scan.cc:93-100 | a run that ends before the last block makes the next block emit an empty batch that counts no block |
| ScanEnds.EndsAtHolds | CSD-Worker-Module/opencsd/scan.cc:121-132 | when the count is accounted for in block e, nothing is emitted behind it and all later blocks are held |
| ScanEnds.LastEmissionSettles | CSD-Worker-Module/opencsd/scan.cc:93-132 | a scan whose batches add up to the block count had nothing left and nothing held at its last emission |
| ScanEnds.FilledInside | CSD-Worker-Module/opencsd/scan.cc:104-118 | inside a block raw_data is filled no further than at its end |
| ScanEnds.WindowsExactly | CSD-Worker-Module/opencsd/scan.cc:104-132 | a scan that accounts for its count in the last block never copies past raw_data if and only if no NUM_OF_BLOCKS consecutive blocks that make up a batch, nor the last ones, hold more bytes than it has |
| ScanEnds.EndsAtExactly | CSD-Worker-Module/opencsd/scan.cc:104-132 | the same when blocks follow: they make up a batch of their own |
| ScanEnds.EmittedWithin | CSD-Worker-Module/opencsd/scan.cc:121-132 | a scan that never copies past raw_data emits no longer batch |
| ScanEnds.SstWithinExactly | CSD-Worker-Module/opencsd/scan.cc:467-507 | an SST scan never copies past raw_data if and only if no row is longer than that |
| Scan.Scanner.constructor | CSD-Worker-Module/opencsd/scan.cc:135-142 | a scan starts with an empty batch and all blocks left |
| Scan.Scanner.EnqueueScanResult | CSD-Worker-Module/opencsd/scan.cc:129-131 | closes the batch with its last offset, hands it on and starts an empty one |
| Scan.Scanner.AppendScanned | CSD-Worker-Module/opencsd/scan.cc:104-118 | appends one row and counts it |
| Scan.Scanner.AppendRun | CSD-Worker-Module/opencsd/scan.cc:84-119 | the iterator loop appends exactly the table's rows of a block and says whether the run ended |
| Scan.Scanner.ReadDataBlock | CSD-Worker-Module/opencsd/scan.cc:83-133 | one block: append, account, and emit when full, at the end, or when the run ends |
| Scan.Scanner.ReadBlocks | CSD-Worker-Module/opencsd/scan.cc:144-167 | the loop over the blocks goes through the states of the specification |
| Scan.Scanner.DataBlockFullScan | CSD-Worker-Module/opencsd/scan.cc:135-168 | the loop over all blocks is the scan of the specification |
| Scan.Scanner.AddSstRow | CSD-Worker-Module/opencsd/scan.cc:467-507 | flushes when the row would not fit, then appends it |
| Scan.Scanner.SstFileFullScan | CSD-Worker-Module/opencsd/scan.cc:434-522 | the loop over all rows and the final batch are the scan of the specification |
| Where.EvalWhere | CSD-Worker-Module/opencsd/filter.cc:26-83 | the short-circuit loop over any list cond, op, cond, ... computes the right-nested boolean value; an empty list passes |
| Where.AllAnd | CSD-Worker-Module/opencsd/filter.cc:71-73 | a list with AND only is the conjunction of its conditions |
| Where.AllOr | CSD-Worker-Module/opencsd/filter.cc:74-76 | a list with OR only is the disjunction of its conditions |
| Where.ChainIsNested | CSD-Worker-Module/opencsd/filter.cc:26-83 | the list value is the value of the right-nested expression tree |
| Where.PrecedenceExact | CSD-Worker-Module/opencsd/filter.cc:31-76 | the loop agrees with AND binding tighter than OR, for all truth values, if and only if no AND stands before an OR |
| FilterStage.Filtering | CSD-Worker-Module/opencsd/filter.cc:11-98 | the output batch is exactly the passing rows, byte for byte and in order, with correct offsets, the block and scanned counts carried through and the passing rows counted |
| FilterStage.FilteredLength | CSD-Worker-Module/opencsd/filter.cc:84-91 | what passes is no longer than what was scanned, so it fits the same buffer |
| FilterStage.RouteResult | CSD-Worker-Module/opencsd/scan.cc:568-575 | on the bytes: past the filter stage with the filtered count set, or through it |
| FilterStage.RouteIsFilter | CSD-Worker-Module/opencsd/scan.cc:568-575 | skipping the filter stage for an empty batch or an empty list gives what the stage would have given |
| Pipeline.RoutedFeeds | CSD-Worker-Module/opencsd/scan.cc:568-575 | the batches of a scan, sent past the filter stage or through it as the code decides, reach the projection as the batches of passing rows |
| Pipeline.DeliveredAtTheEnd | CSD-Worker-Module/opencsd/projection.cc:16-117 | a complete run over a conserving scan returns, as a multiset, the projected passing rows, and totals equal to the rows scanned and the rows passing |
| Pipeline.UniformCondition | CSD-Worker-Module/opencsd/projection.cc:95-117 | when all batches but the last count the same, the release condition is that full batches alone cannot add up to the total |
| Pipeline.DeliveryNeeds | CSD-Worker-Module/opencsd/projection.cc:16-117 | complete runs that all deliver need batches that together and only together add up to the total, and as many emitted rows |
| Pipeline.BlockReleaseExactly | CSD-Worker-Module/opencsd/scan.cc:93-133 | for every csd_block_count: a block scan is released exactly once under every schedule if and only if some block accounts for the count and no earlier one does (no earlier block reaches a key beyond the table, and the count is the number of blocks so far, or this block does reach such a key and the count does not run out before it), and the blocks behind it neither reach such a key nor fill a batch |
| Pipeline.RowsHeldBack | CSD-Worker-Module/opencsd/scan.cc:121-132 | then the blocks behind that one never leave the scan: the rows emitted are those up to it |
| Pipeline.BlockScanCondition | CSD-Worker-Module/opencsd/scan.cc:93-133 | released exactly once with nothing held back, not even a block without rows, if and only if that block is the last |
| Pipeline.BlockDelivery | CSD-Worker-Module/opencsd/scan.cc:93-168 | every complete run delivers the projected passing rows of the table, with exact totals, if and only if there is such a block and no row of the table lies behind it |
| Pipeline.BlockDeliveryExactly | CSD-Worker-Module/opencsd/scan.cc:93-168 | every complete run delivers and neither the scan nor a merge buffer is ever filled beyond raw_data if and only if, besides, the blocks of each batch fit raw_data and every projected row does |
| Pipeline.BlockScanDelivers | CSD-Worker-Module/opencsd/scan.cc:135-168 | end to end, when the last block accounts for the count and the blocks of each batch and the projected rows fit: whatever the cut into blocks, the workers, the arrival order and the interleaving, a complete run returns project(filter(rows of the table)) once, with exact totals, and no buffer of the scan, the filter or the merge is overrun |
| Pipeline.SstScanCondition | CSD-Worker-Module/opencsd/scan.cc:471-520 | an SST scan is released exactly once under every schedule if and only if its block count is not a multiple of 100 that its flushes, counted from the row lengths, alone can reach |
| Pipeline.SstDeliveryExactly | CSD-Worker-Module/opencsd/scan.cc:434-522 | for every table number and block count: every complete run delivers the projected passing rows of the table and neither the scan nor a merge buffer is ever filled beyond raw_data if and only if the number is not -1 or the table has no row, the flushes alone cannot reach the count, and no scanned and no projected row is longer than raw_data |
| Pipeline.SstScanDelivers | CSD-Worker-Module/opencsd/scan.cc:434-522 | end to end under those conditions, for a scan over any SST files |
| Device.RouteAll | CSD-Worker-Module/opencsd/scan.cc:568-575 | the filter stage turns the scanner's sealed batches into those the projection layer is to get, byte for byte |
| Device.RunBlocks | CSD-Worker-Module/opencsd/scan.cc:135-168 | the scanner, the filter stage and the projection layer as objects, one after the other, under any schedule: the packets handed to the return layer are those of the protocol |
| Device.DeliverBlocks | CSD-Worker-Module/opencsd/scan.cc:135-168 | end to end in bytes: for a scan that can be delivered, the packets of a complete run carry one release flag, none is longer than the buffer, and the rows read off their bytes are, as a multiset, the projected passing rows of the table |
| WorkQueue.FirstInFirstOut | CSD-Worker-Module/opencsd/include/internal_queue.h:15-37 | under every interleaving, popped + queued is the sequence of pushes: items leave in push order, each once |
| WorkQueue.NoLostWakeUp | CSD-Worker-Module/opencsd/include/internal_queue.h:15-37 | under every interleaving, with any number of consumers, a non-empty queue has a consumer that is not waiting or a notification still to come |
| WorkQueue.CanTake | CSD-Worker-Module/opencsd/include/internal_queue.h:28-37 | from every such state the threads already there can take the next item without a new push or a spurious wake-up |
| WorkQueue.CanDrain | CSD-Worker-Module/opencsd/include/internal_queue.h:15-37 | and they can empty the queue |
| WorkQueue.RunsAreFinite | CSD-Worker-Module/opencsd/include/internal_queue.h:15-37 | without new pushes and spurious wake-ups, every way of scheduling the threads comes to an end, within a bound read off the state |
| WorkQueue.StoppedMeansEmpty | CSD-Worker-Module/opencsd/include/internal_queue.h:15-37 | where no thread can move any more, the queue is empty |
| WorkQueue.EveryRunDrains | CSD-Worker-Module/opencsd/include/internal_queue.h:15-37 | so from every reachable state every maximal run of the threads already there empties the queue |
| WorkQueue.SleepsBesideWork | CSD-Worker-Module/opencsd/include/internal_queue.h:23-25 | a concrete run in which one of two consumers stays asleep beside an item, because only the push into an empty queue notifies |
| WorkQueue.Queue.constructor | CSD-Worker-Module/opencsd/include/internal_queue.h:10-12 | an empty queue is the initial protocol state |
| WorkQueue.Queue.PushWork | CSD-Worker-Module/opencsd/include/internal_queue.h:15-25 | appends the item and asks for a notification exactly when the queue was empty, as the protocol step says |
| WorkQueue.Queue.TryPop | CSD-Worker-Module/opencsd/include/internal_queue.h:28-37 | takes the front item, or goes to wait when there is none, as the protocol step says |
| Values.ScaledSumExact | CSD-Worker-Module/opencsd/include/raw_data_handler.h:13-17 | int + decimal and int - decimal: a result without overflow is the exact rational |
| Values.OverProduct | CSD-Worker-Module/opencsd/include/raw_data_handler.h:92-101 | decimal * decimal: the product of the units over the sum of the scales is the product of the rationals |
| Values.OperationExact | CSD-Worker-Module/opencsd/include/raw_data_handler.h:8-117 | every operation on operands that keep the scale is exact when it does not overflow |
| Values.WideSumExact | CSD-Worker-Module/opencsd/include/raw_data_handler.h:23-27 | a sum or difference of two 64-bit operands, which forgets both scales, is exact if and only if both scales are 0, or the operand that has a scale is 0 beside one without, or the scales are equal and the sum is 0, or they differ, the finer operand has no digit beyond the scale of the other, and the two errors cancel |
| Values.NothingLostIs | CSD-Worker-Module/opencsd/include/raw_data_handler.h:23-27 | these cases are exactly those in which forgetting the scales changes nothing |
| Values.SameScaleSum | CSD-Worker-Module/opencsd/include/raw_data_handler.h:23-27 | with one scale for both operands: the scale is 0 or the sum is 0 |
| Values.DecimalSumLosesScale | CSD-Worker-Module/opencsd/include/raw_data_handler.h:23-27 | 1.50 + 2.25 is computed as 375 |
| Operations.Ranges | CSD-Worker-Module/opencsd/include/raw_data_handler.h:8-117 | an int field holds what four bytes do, and so does the upper half of a 64-bit field |
| Operations.EqualAnswers | CSD-Worker-Module/opencsd/include/raw_data_handler.h:143-183 | = says whether two ints, two 64-bit fields, or a text and the text on the right (empty if that is no text) are the same; <> says the opposite; other pairs have no answer |
| Operations.EqualExact | CSD-Worker-Module/opencsd/include/raw_data_handler.h:150-153 | = on two 64-bit operands is equality of the numbers if and only if the scales are the same, or both fields are 0, or the fields differ and the one with more digits is not the other one scaled up |
| Operations.QuotientIs | CSD-Worker-Module/opencsd/include/raw_data_handler.h:119-141 | division of ints and of 64-bit fields is rounded toward zero: the one quotient whose rest is smaller than the divisor and has the sign of the dividend |
| Operations.ZeroDivisor | CSD-Worker-Module/opencsd/include/raw_data_handler.h:119-141 | a division by zero has no answer |
| Operations.IntAnswers | CSD-Worker-Module/opencsd/include/raw_data_handler.h:8-117 | +, - and * of two ints give the int result if and only if it fits 32 bits |
| Operations.WideAnswers | CSD-Worker-Module/opencsd/include/raw_data_handler.h:8-117 | +, - and * of two 64-bit operands give the result of the fields if and only if it fits 64 bits; only a product of decimals has a scale |
| Operations.DefinedExactly | CSD-Worker-Module/opencsd/include/raw_data_handler.h:8-117 | a scale-tracked tree has a value if and only if every result on the way, in unbounded integers, fits its field, and then it is that one |
| Operations.AnswerIsTrue | CSD-Worker-Module/opencsd/include/raw_data_handler.h:8-117 | and that value is the tree's value over the rationals |
| Operations.FirstIsLeft | CSD-Worker-Module/opencsd/include/raw_data_handler.h:310-354 | of the two operands on the stack, the one pushed first stands on the left |
| Postfix.PostfixValue | CSD-Worker-Module/opencsd/include/raw_data_handler.h:310-354 | the stack loop computes the top of the machine's run over the tokens |
| Postfix.RunConcat | CSD-Worker-Module/opencsd/include/raw_data_handler.h:314-348 | running two token lists one after the other is running their concatenation |
| Postfix.Framing | CSD-Worker-Module/opencsd/include/raw_data_handler.h:310-354 | for every tree and every initial stack, the tree's postfix tokens leave that stack plus exactly the tree's value |
| Postfix.ExactDecimals | CSD-Worker-Module/opencsd/include/raw_data_handler.h:8-117 | every tree of int+-int, int*int, int+-decimal, decimal*int and decimal*decimal that evaluates without overflow evaluates to its true rational value |
| Postfix.ExactRepresentation | CSD-Worker-Module/opencsd/include/raw_data_handler.h:8-117 | in the engine's fields: int64_ = true value * 100^real_ |
| CaseWhen.FindOffsets | CSD-Worker-Module/opencsd/include/raw_data_handler.h:383-392 | the first pass finds the WHEN / THEN pairs and the ELSE |
| CaseWhen.EvalCondition | CSD-Worker-Module/opencsd/include/raw_data_handler.h:400-432 | the condition loop with its scratch operand computes the specified verdict and leftover |
| CaseWhen.EvalPart | CSD-Worker-Module/opencsd/include/raw_data_handler.h:435-453 | copies the tokens up to the stop word and evaluates them |
| CaseWhen.EvalCase | CSD-Worker-Module/opencsd/include/raw_data_handler.h:376-475 | the whole interpreter computes the specified value, for every token list |
| CaseWhen.StaleIsHarmless | CSD-Worker-Module/opencsd/include/raw_data_handler.h:402-432 | whatever whole expressions are left in the scratch operand, the value on top is the new condition's |
| CaseWhen.ChainCorrect | CSD-Worker-Module/opencsd/include/raw_data_handler.h:402-432 | one branch's AND / OR chain gets its right-nested truth value, starting from any leftover, and leaves only whole expressions |
| CaseWhen.ScanCase | CSD-Worker-Module/opencsd/include/raw_data_handler.h:383-392 | on a flattened CASE the first pass finds every branch and the ELSE where they are |
| CaseWhen.BranchesCorrect | CSD-Worker-Module/opencsd/include/raw_data_handler.h:397-475 | the branch loop yields the first branch that holds, else the ELSE, although the scratch operand is not cleared between branches |
| CaseWhen.CaseCorrect | CSD-Worker-Module/opencsd/include/raw_data_handler.h:376-475 | for every CASE tree whose subexpressions are not spelled like keywords: the interpreter on its tokens yields the THEN value of the first WHEN whose chain holds, else the ELSE value |
| CaseSpelling.SpellingExact | CSD-Worker-Module/opencsd/include/raw_data_handler.h:376-475 | CASE WHEN a = b THEN r ELSE e END over any four leaves, literals with a fixed value and columns with any set of values, gets its meaning on every row if and only if: a and b are not spelled WHEN, THEN, AND or OR, unless their values never compare; r is not spelled WHEN, ELSE or END, unless they never compare as equal; and e is not spelled ELSE or END, nor THEN unless r is spelled AND, unless they never compare as different |
| CaseSpelling.SpelledWrong | CSD-Worker-Module/opencsd/include/raw_data_handler.h:376-475 | for every other spelling, a row, with all literals reading as themselves, on which the interpreter has no value although the expression has one |
| CaseSpelling.LiteralsCompare | CSD-Worker-Module/opencsd/include/raw_data_handler.h:268-308 | two literals compare as their values do, on every row |
| CaseSpelling.TextColumn | CSD-Worker-Module/opencsd/include/raw_data_handler.h:245-255 | a column of texts can equal a text literal and differ from it |
| CaseSpelling.ComparedWithKeyword | CSD-Worker-Module/opencsd/include/raw_data_handler.h:402-432 | a text column compared with the literal AND: the interpreter has no value on any row |
| CaseTruth.HoldsIsNested | CSD-Worker-Module/opencsd/include/raw_data_handler.h:402-432 | with boolean conditions a branch's chain is the right-nested formula of its conditions |
| CaseTruth.ChainAnswer | CSD-Worker-Module/opencsd/include/raw_data_handler.h:402-432 | an AND chain answers with its first condition that is not true, an OR chain with its first one that is not false, and asks none behind it |
| CaseTruth.ChainOfOne | CSD-Worker-Module/opencsd/include/raw_data_handler.h:402-432 | an AND chain is true exactly when every condition is, an OR chain false exactly when every condition is |
| CaseTruth.FirstThatHolds | CSD-Worker-Module/opencsd/include/raw_data_handler.h:397-475 | the meaning of a CASE is the result of the branch that holds while none before it does |
| CaseTruth.NoneHolds | CSD-Worker-Module/opencsd/include/raw_data_handler.h:461-475 | and the ELSE value when none holds |
| CaseTruth.InterpreterTakesFirst | CSD-Worker-Module/opencsd/include/raw_data_handler.h:376-475 | end to end: the interpreter on the tokens of a readable CASE yields the result of the first branch whose formula is true, whatever the later branches are |
| CaseTruth.Dispatch | CSD-Worker-Module/opencsd/include/raw_data_handler.h:502-545 | a list that begins with an operator is taken for a CASE exactly when the operator is spelled case, in upper or lower case |
| CaseWhen.KeywordLiteral | CSD-Worker-Module/opencsd/include/raw_data_handler.h:461-463 | a literal spelled END, where the meaning is the literal's value, leaves the interpreter without a value |
| CaseWhen.OperandOfTree | CSD-Worker-Module/opencsd/include/raw_data_handler.h:520-545 | the dispatch, including its single-token shortcut, gives every tree its value |
| CaseWhen.OperandOfCase | CSD-Worker-Module/opencsd/include/raw_data_handler.h:502-545 | the dispatch gives every such CASE its meaning |
| Like.Split | CSD-Worker-Module/opencsd/include/utils.h:7-19 | yields the non-empty pieces between the separators, in order |
| Like.CompareLike | CSD-Worker-Module/opencsd/filter.cc:306-345 | the search loop and the two anchor checks compute the specified acceptance |
| Like.SearchSound | CSD-Worker-Module/opencsd/filter.cc:317-340 | a search that succeeds, with its end check, places all parts in order without overlap |
| Like.LikeSound | CSD-Worker-Module/opencsd/filter.cc:306-345 | acceptance implies that the value matches, for every non-empty pattern |
| Like.CompleteWild | CSD-Worker-Module/opencsd/filter.cc:306-345 | a matching value is accepted when the pattern ends in '%' and has at most two parts |
| Like.PlainPattern | CSD-Worker-Module/opencsd/filter.cc:306-345 | without '%', acceptance is matching is equality |
| Like.EndMissed | CSD-Worker-Module/opencsd/filter.cc:335-339 | a pattern with a '%' but none at the end rejects a value that matches: its own text with the last part twice |
| Like.ThirdMissed | CSD-Worker-Module/opencsd/filter.cc:324-324 | a pattern with three parts or more rejects its own text, which matches |
| Like.LikeExact | CSD-Worker-Module/opencsd/filter.cc:306-345 | acceptance is matching for every value if and only if the pattern has no '%', or ends in '%' and has at most two parts |
| Like.SearchExactly | CSD-Worker-Module/opencsd/filter.cc:317-340 | the search succeeds if and only if each part has a first place from the sum of all earlier places and lengths on |
| Like.AcceptsExactly | CSD-Worker-Module/opencsd/filter.cc:306-345 | for every pattern and value: accepted if and only if there are such places, a pattern without a leading '%' begins the value with its first part, and one without a trailing '%' has the first occurrence of its last part at the end of the value |
| Base64.LetterRoundTrip | CSD-Worker-Module/opencsd/worker.cc:11-20 | the decode table inverts the alphabet, and no letter is white space or padding |
| Base64.SextetsRoundTrip | CSD-Worker-Module/opencsd/worker.cc:34-40 | cutting bytes into sextets and joining them again loses no bit, whatever the length |
| Base64.Wrap32KeepsLow | CSD-Worker-Module/opencsd/worker.cc:34-34 | a wrapping 32-bit accumulator and an unbounded one both keep the low 12 bits, which is all the programs ask for |
| Base64.Encode | CSD-Worker-Module/opencsd/include/httplib.h:2247-2273 | with any accumulator that keeps the low 12 bits, the encoder writes the letters of the sextets and the padding |
| Base64.Decode | CSD-Worker-Module/opencsd/worker.cc:22-43 | with any such accumulator, the decoder yields the whole bytes of the sextets up to '=', skipping white space, or reports an invalid character |
| Base64.RoundTrip | CSD-Worker-Module/opencsd/worker.cc:22-43 | decoding undoes encoding for every byte string, also with white space inserted anywhere |
| Base64.EncodeThenDecode | CSD-Worker-Module/opencsd/worker.cc:10-44 | the two 32-bit programs one after the other give the input back |
| Base64.AlphabetIs | CSD-Worker-Module/opencsd/include/httplib.h:2247-2273 | the letters are those of RFC 4648, in order |
| Base64.DigitOfLetter | CSD-Worker-Module/opencsd/worker.cc:11-20 | the decode table knows exactly these letters |
| Base64.GroupNumber | CSD-Worker-Module/opencsd/include/httplib.h:2247-2273 | four sextets are the 24-bit number that the three bytes are, most significant first |
| Base64.ByteNumber | CSD-Worker-Module/opencsd/worker.cc:34-40 | and three decoded bytes are the number of their four sextets |
| Base64.PaddingIs | CSD-Worker-Module/opencsd/include/httplib.h:2265-2273 | the text has whole groups of four, with one '=' for each byte that the last group lacks and none elsewhere |
| Base64.PaddingEnds | CSD-Worker-Module/opencsd/worker.cc:28-28 | what stands behind the first '=' makes no difference |
| Base64.SpacesAre | CSD-Worker-Module/opencsd/worker.cc:27-27 | white space is tab, newline, vertical tab, form feed, carriage return and blank |
| Base64.SpaceAnywhere | CSD-Worker-Module/opencsd/worker.cc:27-27 | any of the six inserted at any place of an encoded text is skipped |
| Base64.InvalidExactly | CSD-Worker-Module/opencsd/worker.cc:30-32 | decoding fails if and only if a character that is neither a letter nor white space comes before the first '=' |
| CharCompare.CompareValues | CSD-Worker-Module/tmax-lib/ex.cc:150-186 | the comparison with its blank loops computes the specified sign |
| CharCompare.EvalCondition | CSD-Worker-Module/tmax-lib/ex.cc:141-224 | NULL makes every condition false; otherwise the operator decides on the sign |
| CharCompare.CharEqual | CSD-Worker-Module/tmax-lib/ex.cc:163-183 | character values compare equal if and only if they agree after stripping trailing blanks |
| CharCompare.BinaryEqual | CSD-Worker-Module/tmax-lib/ex.cc:160-161 | other values compare equal if and only if they are equal |
| CharCompare.CharOrderExact | CSD-Worker-Module/tmax-lib/ex.cc:163-186 | the sign is the lexicographic order of the blank-padded values if and only if the longer one does not go on, after a common prefix, with a byte below 0x20 before anything but blanks |
| CharCompare.PrintableOrder | CSD-Worker-Module/tmax-lib/ex.cc:163-186 | over bytes from 0x20 on it always is |
| CharCompare.Reversed | CSD-Worker-Module/tmax-lib/ex.cc:150-186 | swapping the operands flips the sign |
| CharCompare.TotalPreorder | CSD-Worker-Module/tmax-lib/ex.cc:163-221 | over such bytes <= is reflexive, total and transitive |
| CharCompare.ControlByteBreaksOrder | CSD-Worker-Module/tmax-lib/ex.cc:163-186 | a control byte breaks transitivity |
| CharCompare.OperatorsConsistent | CSD-Worker-Module/tmax-lib/ex.cc:188-221 | the six operators agree with one another on all non-NULL operands |
| CharCompare.BinaryOrder | CSD-Worker-Module/tmax-lib/ex.cc:158-161 | other values compare as keys do: by the first byte that differs, then by length |
| CharCompare.BinaryTotalOrder | CSD-Worker-Module/tmax-lib/ex.cc:158-221 | so on them the operators are those of a total order |
| CharCompare.PaddedOrderIs | CSD-Worker-Module/tmax-lib/ex.cc:163-186 | the blank-padded order is the byte order of the two values padded with blanks to one length |
| CharCompare.LessIs | CSD-Worker-Module/tmax-lib/ex.cc:150-221 | < holds if and only if neither operand is NULL and the left one comes first, character values over printable bytes after padding |
| CharCompare.NeverTrue | CSD-Worker-Module/tmax-lib/ex.cc:155-156 | a NULL operand makes every condition false, and so does an operator outside the six |
| TmaxFilter.BuildData | CSD-Worker-Module/tmax-lib/ex.cc:124-138 | column i is set exactly when it is used and reached before the count of used columns runs out, to cell i or the last cell; all others keep their old pointer |
| TmaxFilter.ReadOperand | CSD-Worker-Module/tmax-lib/ex.cc:239-252 | the k-th operand numbered -1 reads constant k, any other its column |
| TmaxFilter.CheckTrue | CSD-Worker-Module/tmax-lib/ex.cc:228-263 | true exactly when every condition holds |
| TmaxFilter.SetColOut | CSD-Worker-Module/tmax-lib/ex.cc:444-458 | afterwards every column points to its output bytes, NULL for unused ones, and the total is the sum of the 16-bit lengths |
| TmaxFilter.ChunkList.constructor | CSD-Worker-Module/tmax-lib/ex.cc:299-311 | a new list holds no chunk |
| TmaxFilter.ChunkList.SerializeRow | CSD-Worker-Module/tmax-lib/ex.cc:385-405 | the row goes behind the last chunk if the computed total fits, else into a new one |
| TmaxFilter.CountSuffices | CSD-Worker-Module/tmax-lib/ex.cc:124-138 | a use_col_cnt of at least the number of used columns sets them all |
| TmaxFilter.FilterRow | CSD-Worker-Module/tmax-lib/ex.cc:547-557 | one row piece: appended exactly when it passes, whatever the previous row left in the context |
| TmaxFilter.FilterBlock | CSD-Worker-Module/tmax-lib/ex.cc:519-561 | the loop over the row directory is the chunk list of the specification |
| TmaxFilter.PassesAgrees | CSD-Worker-Module/tmax-lib/ex.cc:228-263 | the conditions read through the pointers are the conditions on the row's columns |
| TmaxFilter.ChunksHoldRows | CSD-Worker-Module/tmax-lib/ex.cc:519-561 | the concatenated chunks are what was there before and then, in row order, the encodings of the rows that satisfy every condition, unused columns replaced by NULL |
| TmaxFilter.EncodingReadsBack | CSD-Worker-Module/tmax-lib/ex.cc:397-404 | walking an encoded row by its column lengths, as a row piece is walked, meets exactly its output columns |
| TmaxFilter.CapacityExact | CSD-Worker-Module/tmax-lib/ex.cc:392-404 | no chunk exceeds its capacity if and only if no selected row does |
| TmaxFilter.ChunkCount | CSD-Worker-Module/tmax-lib/ex.cc:392-404 | a chunk is closed only when the next row does not fit: the number of chunks follows from the lengths of the selected rows |
| TmaxConditions.WrittenReads | CSD-Worker-Module/tmax-lib/include/ex.h:10-23 | a column of up to 250 bytes reads back from behind its length, a longer one from behind a mark and two length bytes; with a mark of 251 or 252 the length bytes are taken for data |
| TmaxConditions.OperandIs | CSD-Worker-Module/tmax-lib/ex.cc:239-252 | a numbered operand reads its column; one numbered -1 reads the constant whose index is the number of operands numbered -1 before it, counted as a set of positions, left before right |
| TmaxConditions.NullIsNotSelected | CSD-Worker-Module/tmax-lib/ex.cc:254-255 | a row with NULL in a column that a condition reads is not selected, whatever the condition |
| TmaxConditions.UnusedIsNull | CSD-Worker-Module/tmax-lib/ex.cc:444-458 | a column that is not used is written out as NULL |
| TmaxConditions.ShortPiece | CSD-Worker-Module/tmax-lib/ex.cc:124-138 | a column that a row piece lacks reads as its last one |
| TmaxConditions.ReachedCount | CSD-Worker-Module/tmax-lib/ex.cc:124-138 | as many used columns are set as use_col_cnt says, or all there are; a used first column is set even when it is 0 or less |
| TmaxConditions.ReachedFirst | CSD-Worker-Module/tmax-lib/ex.cc:124-138 | and they are the first used ones |
| Framing.FramesRoundTrip | CSD-Worker-Module/tmax-lib/ex.cc:370-377 | reading frames back gives exactly the chunks that were framed, in order |
| Framing.WriteFrame | CSD-Worker-Module/tmax-lib/ex.cc:370-377 | one chunk at an offset of the buffer: header, flag and bytes behind what was there |
| Framing.WriteItems | CSD-Worker-Module/tmax-lib/ex.cc:339-382 | writes chunks from the given index until one does not fit, reports that index, and never passes the buffer size |
| Framing.PackWithin | CSD-Worker-Module/tmax-lib/ex.cc:363-368 | no buffer gets larger than its size |
| Framing.PackFlatten | CSD-Worker-Module/tmax-lib/ex.cc:353-378 | the buffers together hold all chunks in order, each whole in one buffer |
| Framing.Sender.constructor | CSD-Worker-Module/opencsd/worker.h:25-31 | an empty result of the given size |
| Framing.Sender.Flush | CSD-Worker-Module/opencsd/worker.h:33-64 | returns a copy of the used bytes and starts over with an empty buffer |
| Framing.Sender.SendBlock | CSD-Worker-Module/opencsd/worker.cc:121-142 | the write / flush loop packs a block's chunks behind what the buffer already holds, and ends when every chunk fits an empty buffer |
| Framing.FramingRoundTrip | CSD-Worker-Module/opencsd/worker.cc:110-142 | over all blocks: no result exceeds the buffer size, each one alone reads back as whole chunks, and all together as the chunks of all blocks in order |
| Framing.DriverEndsExactly | CSD-Worker-Module/opencsd/worker.cc:121-142 | the loop ends if and only if every chunk fits an empty buffer |
| Framing.IndexableExactly | CSD-Worker-Module/tmax-lib/ex.cc:348-361 | the chunk index stays inside the lists if and only if one of the two lists is empty |
| Framing.FrameIs | CSD-Worker-Module/tmax-lib/ex.cc:370-377 | a frame is a big-endian 16-bit length, the flag, and as many bytes |
| Framing.ResultCount | CSD-Worker-Module/opencsd/worker.cc:110-142 | a result is sent off only when the next chunk does not fit: the number of results follows from the lengths of the frames |
| TmaxPipeline.FullChunk | CSD-Worker-Module/tmax-lib/include/ex.h:67 | a full chunk makes a frame of 64 KiB and its length fits the two bytes |
| TmaxPipeline.RunSnippet | CSD-Worker-Module/opencsd/worker.cc:69-161 | all blocks: filter each into its own chunk list and frame the chunks into results |
| TmaxPipeline.SendBlocks | CSD-Worker-Module/opencsd/worker.cc:110-142 | the loop over the blocks goes through the packings of the specification |
| TmaxPipeline.SnippetDelivers | CSD-Worker-Module/opencsd/worker.cc:69-161 | end to end: reading the frames back from all results gives exactly the encodings of the rows that satisfy every condition, in block and row order |
| TmaxRows.TakeRowsBack | CSD-Worker-Module/tmax-lib/ex.cc:397-404 | walking rows back to back by their column lengths gives the rows |
| TmaxRows.SnippetReadsBack | CSD-Worker-Module/opencsd/worker.cc:69-161 | end to end: reading the frames of all results and walking the bytes by the column lengths gives exactly the selected rows, column by column, in block and row order |
| RowLayout.ParseSchema | CSD-Worker-Module/opencsd/input.cc:159-192 | the columns come primary key first, each with the sum of the lengths before it as offset, and a last offset for the end |
| RowLayout.KeysComeFirst | CSD-Worker-Module/opencsd/input.cc:163-182 | in the parsed schema no key column stands behind another one |
| RowLayout.SameColumns | CSD-Worker-Module/opencsd/input.cc:159-192 | the parsed schema has the columns of the schema, each as often as there |
| RowLayout.OrderKept | CSD-Worker-Module/opencsd/input.cc:163-182 | key columns and other columns each keep their order |
| RowLayout.ColumnOffsets | CSD-Worker-Module/opencsd/include/utils.h:45-76 | for every row made of column encodings, the computed offsets are where the columns really start |
| RowLayout.Length16Is | CSD-Worker-Module/opencsd/include/utils.h:66-70 | the two length bytes are read as a little-endian 16-bit number |
| RowLayout.VarCharEncodes | CSD-Worker-Module/opencsd/include/utils.h:59-71 | a varchar value behind one length byte, or behind two when 256 or more bytes are declared, is an encoding that the offsets account for |
| RowLayout.RowOffsets | CSD-Worker-Module/opencsd/filter.cc:14-24 | with the row length as last offset (or the declared offsets when there is no varchar), slice i is column i's encoding |
| ValueCodec.KeyOrder | CSD-Worker-Module/opencsd/scan.cc:551-553 | sign-flipped big-endian keys sort like the numbers in them |
| ValueCodec.KeyListOrder | CSD-Worker-Module/opencsd/scan.cc:540-566 | keys of several columns sort like the lists of their values |
| ValueCodec.ConvertPart | CSD-Worker-Module/opencsd/scan.cc:552-556 | one key part: first byte flipped, bytes reversed |
| ValueCodec.ConvertKey | CSD-Worker-Module/opencsd/scan.cc:540-566 | the loop over the key columns converts part after part |
| ValueCodec.KeyRoundTrip | CSD-Worker-Module/opencsd/include/raw_data_handler.h:198-206 | for every schema with int key columns, any list of as many int32 values, converted and put in front of any value bytes: where the parsed schema puts its p-th key column, the row reads back the p-th value |
| ValueCodec.DecodeDecimal | CSD-Worker-Module/opencsd/include/raw_data_handler.h:213-244 | the decoder computes the specified value of seven bytes |
| ValueCodec.Int8Is | CSD-Worker-Module/opencsd/include/raw_data_handler.h:213-244 | a first byte is read as the signed number with its residue |
| ValueCodec.EncodeDecimal | CSD-Worker-Module/opencsd/include/raw_data_handler.h:559-592 | for every scale whose power of 100 fits an int, writes the bytes of the absolute value at the offset and nothing behind them; a negative value also complements the first seven bytes of the row |
| ValueCodec.ScaledRoundTrip | CSD-Worker-Module/opencsd/include/raw_data_handler.h:559-592 | for every scale, a value from 0 up to 100^scale*2^47 is determined by its encoding |
| ValueCodec.DecimalRoundTrip | CSD-Worker-Module/opencsd/include/raw_data_handler.h:213-244 | for 0 <= v < 100*2^47, v decodes from its encoding, and the bytewise complement decodes to -v |
| ValueCodec.DecimalExact | CSD-Worker-Module/opencsd/include/raw_data_handler.h:559-592 | a value of scale 1 decodes from what the encoder writes for it if and only if 0 <= v < 100*2^47 |
| ValueCodec.DecimalOrder | CSD-Worker-Module/opencsd/include/raw_data_handler.h:559-592 | encoded decimals that are not negative sort like their bytes |

## Left out

- Sockets, HTTP, JSON, log output, environment, file reads and seeks: input and output; a return is an entry of a log.
- RocksDB readers and iterators: a block or file is a sorted sequence of keys and values.
- The unlocked accesses to a worker's buffers and to the worker list at start-up: steps are atomic and all workers are registered first.
- The key of a snippet (query and work number joined by a bar): keys are given and distinct for distinct snippets.
- What a projection computes for a row: any function of the row; the values and offsets it is made of are in Values, Postfix, CaseWhen, RowLayout and ValueCodec.
- What a single WHERE comparison computes: any predicate on the row; LIKE is modelled on its own, the others are case distinctions on two values.
- The scratch row of a projection, which has the length of the scanned row: a projection is any function here, so whether its result is longer is not modelled; the containers it is copied to are.
- Index scans: the code overwrites the held block count when the table changes, and the data-block index scan is test code.
- Chained row pieces that lack columns: their serializer writes every column at the start of the chunk, and the framer's index is wrong for them beside result chunks (see Framing.IndexableExactly).
- TmaxFilter.FilterRow: asks that the columns the conditions read are set by build_data, and for a row that passes all used columns; any other pointer is memory no row ever sets (TmaxFilter.BuildData says which for every use_col_cnt).
- TmaxFilter.FilterBlock: the same, and no chained row piece that lacks columns the snippet asks for.
- A filter without a column list (null use_cols): the deserializer always allocates one.
- Deserializing the filter information: fixed-width fields read in order.
- SUBSTRING and EXTRACT: they enter CaseWhen as a given function of the tokens.
- FLOAT32 and DOUBLE values and decimal literals read through a double: floating point.
- Varchar values as expressions: the offsets are proved, the extraction guesses the prefix width from the slice length.
- compare_not_in, compare_is and string BETWEEN: one calls itself without end, one is a stub, one leaves its result unset.
- CaseWhen.CaseCorrect: asks that no subexpression is spelled like a keyword where it stands. The exact condition is proved for leaf operands (CaseSpelling.SpellingExact); for larger trees a misread condition can still have the same value, and the converse is not stated.
- ValueCodec.EncodeDecimal: scales up to 4, because the power of 100 overflows an int beyond; the decoder reads scale 1 only, so the round trip through it is stated there.
- ValueCodec.ConvertKey: key columns are four-byte ints; the code stops on any other type.
- Counters of the monitoring manager, the metric collector, the visualizer, build scripts and the rest of httplib.
