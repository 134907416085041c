# Verified model of the DTP transport

DTP is a QUIC transport (RFC 9000, RFC 9001) with block deadlines and forward error
correction. This project models the machinery that makes it reliable and proves what that
machinery promises, for every input and over every run:

- **Streams.** `Chunks`, `ChunkHeap` hold what both stream buffers share. `RecvSpec` and
  `RecvBuffer` are the receive buffer, `RecvCompleteness`, `RecvWitness`, `RecvExactness` and
  `RecvHeaps` are the question whether a push keeps all of its bytes, and `ReadableBytes` how much
  can be read at once. `SendSpec` and `SendBuffer` are the send buffer.
  `Delivery` puts both buffers on a network that drops, repeats and reorders frames, with limit
  updates, resets and deadline cancels; `StreamEnds` says how the receiver comes to know the end,
  `Reach` what an acknowledgement is worth, and `DeliveryRuns`, `EndRuns` hold runs that go wrong. `StreamTables`, `StreamMaps` are the stream map:
  concurrency limits and the scheduling step. `FlowControl` is the connection's receive credit,
  `Limits` the rule by which every kind of limit is raised. Whether a peer without credit ever gets
  more is `Announcements` in general, `PeerCredit`, `PeerServed` and `PeerRuns` for the connection
  and for a stream, and `StreamCredit` for the number of streams.
- **Loss recovery with FEC credit.** `RecoverySpec`, `RecoveryRuns`, `Recovery`: sent packets
  that are acknowledged, credited by FEC, declared lost, or dropped with their epoch; `AckRuns` is
  what it remembers of packets and ACK frames, `FecRuns` the credit of FEC groups. `Handover`
  joins it to `Delivery`: the lists of frames it hands to the connection are steps of the stream.
- **Range sets.** `RangeSets`: the sorted ranges under ACK frames and acknowledged bytes.
- **Wire formats.** `OctetCursor`, `FrameTypes`, `FrameSpec`, `FrameRoundTrip`, `FramePayload`,
  `FrameCodec`: integers, frames and payloads. `PacketNumbers`: truncated packet numbers and the
  duplicate-detection window.
- **Windowed minimum.** `WindowedMin`: the three-sample filter of the round-trip time.

Each object that the program updates in place is a class here. Its methods are proved against
functions and relations on values (`Pushed`, `Taken`, `Inserted`, `PacketAcked`, `Encode`,
`Decode`, ...), and the theorems are about those.

## How the model is built

A `BinaryHeap` is a bag of chunks. Iterating over it meets the chunks in an order that the
model leaves open: every statement about `push` holds for every order, one order per pass.
A `BTreeMap` is the sequence of its entries in key order; a `HashMap` or `HashSet` is a map or
a set. 64-bit counters are natural numbers, with saturation and 64-bit bounds written out where
the code depends on them. Clocks, the loss delay, the sub-windows of the minimum filter
and the answers of the block scheduler are parameters. A run is a sequence of states in which
each one follows from the previous by one step.

## What the code does not do

The model follows the code where the code differs from what one would expect of it. Each case is
proved, with the exact condition under which the expectation is met; where that condition does not
show a failing input by itself, a lemma gives one.

- A push can lose bytes: its loop remembers only one remainder of the input, so iterating over
  the heap in an unsorted order can overwrite it (`UnsortedHeapLosesTail`). It keeps every byte
  in every order if and only if no two buffered chunks expose a missing byte
  (`CompleteInEveryOrderIff`), and always in ascending order (`AscendingPushComplete`). That
  condition is exact for arbitrary orders. A heap meets its lowest chunk first, and for orders that
  do so the exact condition is that no two chunks expose a byte to the part of the input that
  begins at that chunk or behind it (`LowestFirstIff`); under it no heap loses anything
  (`HeapKeepsAll`). A heap of two chunks loses bytes if and only if the two touch, with bytes of the
  input on either side (`TwoChunkHeapIff`). The failing run given has the orders of heaps.
- So an acknowledged byte need not be at the receiver: in `AckedButLost` the sender takes the
  stream for complete and a byte is nowhere. It is at the receiver whenever no push of the run
  exposes a byte and only frames that arrived are acknowledged (`AckedIsReached`); for one
  arrival that condition is exact (`ArrivalReachesIff`).
- A complete sender cannot be sure that the receiver knows the end: an empty write with `fin` can
  make it complete before the end was sent (`CompleteWithoutEnd`). The receiver knows the end if and
  only if a frame with `fin` arrived (`EndKnownIff`), and that is sure if no such write came after
  bytes were written (`CompleteKnowsEnd`). And a receiver that knows it may have nothing left that a
  read could return (`EndNeverRead`): when a frame tells it that it has read everything, the end can
  be read if and only if that frame is empty (`EndReadableIff`).
- The send buffer refuses to re-queue a lost frame that ends at the final offset without the
  `fin` flag, and its bytes are dropped (`LateFinFails`), as are the frames behind it in the list of
  lost ones; the connection goes on. A run gets there exactly through an empty write with `fin`
  while the last byte written is in flight (`RefusalArisesIff`, `FailsOnlyAfterLateFin`). What is
  delivered stays a prefix of what was written in those runs too.
- The scheduling step panics if and only if a queued stream was collected (`PeekFlushable`), which
  happens to a stream queued twice (`CollectedWhileQueued`). Otherwise it fails if and only if a
  block that is to be dropped was shut down before, or is queued again further back and dropped
  there. Both happen: `ShutDownWhileQueued`, `EmptyFinQueuedTwice`. The block stays queued, so the
  step fails again whenever the scheduler wants to drop it (`FailsAgain`).
- A packet number can pass the duplicate check twice: a packet is recorded only after all its
  frames, and a frame that answers `Done` gives the packet up and leaves the connection open
  (`AbortedPacketTwice`). The frames before it are then processed twice
  (`GivenUpPacketChargedTwice`). A number in the window is let through if and only if every earlier
  packet with it that was let through was given up (`LetThroughIff`).
- A peer that ran out of credit can stay blocked for good, for two reasons. A limit is committed when
  its frame is built, and a MAX_DATA, MAX_STREAM_DATA or MAX_STREAMS frame that is lost, or dropped
  because it does not fit, is not sent again (`LostLimitBlocks`, `UnsentUpdateBlocks`). And credit is
  given back only for bytes that are read and streams that are collected: what a canceled block was
  charged, what a stream that is not read any more holds, and such a stream itself are never given
  back (`CancelBlocks`, `UnreadStreamBlocks`), without any loss. The exact conditions: on the
  connection a peer can be given credit if and only if it has some, or an announcement of more is
  under way, or an update is due once all that can be read is read (`ConnectionServedIff`); on a
  stream if and only if it has some, or an announcement is under way, or the stream is marked for an
  update, or the stream is read, has no end yet, and less was granted than its first window and what
  was received (`StreamServedIff`); for streams as on the connection, with the streams that can be
  collected instead of the bytes that can be read (`OpeningServedIff`). Otherwise it never gets any
  again. Without loss a peer is stuck if and only if what is never given back makes up its whole
  initial limit, or it used up the limit of a stream on which no update is sent any more
  (`StuckWithoutLossIff`).
- Packet 0 counts as sent from the start: an ACK frame is refused if and only if it lists a number
  other than zero above every number sent (`RefusedIff`, `AckBeforeSending`).
- `largest` of a range set is the maximum if and only if the last range is not empty
  (`LastIsMaximumIff`); acknowledging an empty frame stores an empty range (`EmptyRangeMisleads`).
- A packet number survives encoding if and only if the packet is late by less than half a window
  (`RoundTripIff`, `LatePacketMisread`), and a number not yet recorded is dropped once it is 128 or
  more behind (`FreshAcceptedIff`).
- The minimum filter is not the exact minimum of its window (`MinimumMissed`). It is if and only if
  no sample of the window, up to the estimate that the call promotes, is smaller than that
  estimate (`MinimumIff`).
- Adjacent padding frames come back as one, so a payload comes back unchanged if and only if it
  has no empty and no adjacent padding (`SequenceComesBackIff`). The size computed for a frame is
  the size printed except for path challenges and responses that are not 8 bytes long (`WireLen`).
- The comment on `almost_full` promises an update once the new limit is at least double what is
  left; the code wants two more than that (`UpdateDueMeans`).

## Model

| member | source | states |
|---|---|---|
| `RecvSpec.PassSeparates` | src/stream.rs:892-916 | one pass over the heap, in any order, leaves a piece that overlaps no chunk of the heap |
| `RecvSpec.PassPieces` | src/stream.rs:892-916 | the piece kept and the remainder are pieces of the input, the remainder behind the piece |
| `RecvSpec.FillSound` | src/stream.rs:878-924 | in every visit order the insertion loop keeps the chunks disjoint and within bounds and adds only bytes of the input where nothing was buffered |
| `RecvSpec.PushSound` | src/stream.rs:818-927 | a push that is not refused keeps the buffer well formed, every buffered byte, and at each offset the byte accepted first; it fixes the final size exactly when the frame has `fin`, and one that is refused changes nothing |
| `RecvSpec.PushRefusedIff` | src/stream.rs:819-843 | a frame is refused for flow control exactly when it ends beyond the limit, and otherwise for its final size exactly when no size agrees with it and with all that was received |
| `RecvSpec.PushGrows` | src/stream.rs:818-927 | a push changes only chunks, length and final size; the length grows only to where a chunk stored ends |
| `RecvSpec.EndReadableIff` | src/stream.rs:852-872 | when a frame tells the receiver that it has read everything, a read can return the end if and only if the frame is empty |
| `RecvSpec.PushDetermined` | src/stream.rs:818-927 | the visit orders determine the outcome of a push completely |
| `RecvSpec.LimitsKeepValid` | src/stream.rs:1101-1142 | reset, limit updates and shutdown keep the buffer well formed |
| `RecvSpec.ResetOutcome` | src/stream.rs:1101-1119 | a reset is refused exactly when its final size does not agree with what was received; otherwise that and the credit make up the final size |
| `RecvBuffer.Scan` | src/stream.rs:892-916 | the inner loop computes one pass and stops where the pass says so |
| `RecvBuffer.Fill` | src/stream.rs:878-924 | the insertion loop terminates and performs the passes for the heap orders it met |
| `RecvBuffer.Read` | src/stream.rs:1068-1093 | the loop of `pop` takes exactly the contiguous bytes from the read offset and leaves all others |
| `RecvBuffer.RecvBuf.Push` | src/stream.rs:818-927 | `push` is the specified push and changes nothing on error; exactly when a chunk was stored it books the completion time, and the bytes as good up to the deadline |
| `RecvBuffer.RecvBuf.PushEvaluation` | src/stream.rs:930-1049 | `push_evaluation` has the outcome of `push` on the buffer; it books the same completion time, and the bytes as good up to 200 |
| `RecvBuffer.RecvBuf.Pop` | src/stream.rs:1060-1098 | `pop` returns the longest gap-free run that fits, raises the next limit by its length, and fails exactly when the lowest chunk is not at the read offset |
| `RecvBuffer.RecvBuf.Reset` | src/stream.rs:1101-1119 | `reset` fixes the final size and returns the credit, or reports FinalSize and changes nothing |
| `RecvBuffer.RecvBuf.UpdateMaxData` | src/stream.rs:1122-1126 | commits the next limit |
| `RecvBuffer.RecvBuf.Shutdown` | src/stream.rs:1129-1139 | drops the buffered data once, fails the second time |
| `Limits.UpdateDueMeans` | src/stream.rs:1142-1147 | the local rule for raising a limit: the new limit is larger, exceeds twice what is left by two, is not due again at once, and is due once the limit is used up unless it is below two |
| `RecvCompleteness.AscendingPushComplete` | src/stream.rs:878-924 | with ascending visits every byte of the input from the read offset on is buffered |
| `RecvWitness.UnsortedHeapLosesTail` | src/stream.rs:888-916 | with chunks 3..5, 10..12, 6..8 in that order, pushing 5..15 drops bytes 12..15; both passes have the order of a heap |
| `RecvWitness.WitnessArises` | src/stream.rs:818-927 | that buffer is the result of three pushes |
| `RecvExactness.CompleteInEveryOrderIff` | src/stream.rs:878-924 | a push is complete in all visit orders if and only if no two chunks expose a missing byte |
| `RecvHeaps.LowestFirstIff` | src/stream.rs:878-924 | a push is complete in all orders that begin with the lowest chunk if and only if no two chunks expose a missing byte to what begins at that chunk or behind it |
| `RecvHeaps.HeapKeepsAll` | src/stream.rs:878-924 | under that condition a push is complete in every order a heap can have, for any number of chunks |
| `RecvHeaps.TwoChunkHeapIff` | src/stream.rs:878-924 | for a buffer of two chunks: a push is complete in all orders a heap can have if and only if the two do not touch with bytes of the input on either side |
| `ReadableBytes.ReadItAll` | src/stream.rs:1060-1098 | one read takes exactly the bytes that follow the read offset without a gap |
| `ChunkHeap.ReadingStep` | src/stream.rs:1068-1093 | one turn of the `pop` loop moves the lowest bytes out and keeps the rest |
| `SendSpec.AckOffIsContiguous` | src/stream.rs:1516-1524 | below `ack_off` everything is acknowledged, and `ack_off` itself is not |
| `SendSpec.WriteAppends` | src/stream.rs:1315-1358 | a write queues exactly the bytes it reports, at the end, in pieces that do not overlap; it records the final offset exactly when it ends the stream and all bytes fit |
| `SendSpec.WriteTakes` | src/stream.rs:1315-1358 | a write takes what the limit leaves room for, and all of it after a shutdown; it is refused exactly when the end is fixed and it has bytes there is room for or is empty without `fin` |
| `SendSpec.PiecesShape` | src/stream.rs:1346-1355 | the chunks of a write have 1000 bytes each but the last one, which alone can carry `fin` |
| `SendSpec.QueuedOutcome` | src/stream.rs:1361-1398 | exactly when a chunk is queued, ignored or refused, and that nothing else changes but the length and the final offset |
| `SendSpec.ReadIsTaken` | src/stream.rs:1401-1450 | what the `pop` loop took is the lowest contiguous run within the flow-control limit |
| `SendBuffer.TakeRun` | src/stream.rs:1410-1439 | the loop of `pop` |
| `SendBuffer.QueueChunks` | src/stream.rs:1346-1355 | the loop of `push_slice` |
| `SendBuffer.SendBuf.Push` | src/stream.rs:1361-1398 | queues a new or lost chunk, unless it is acknowledged already, or refuses it |
| `SendBuffer.SendBuf.PushSlice` | src/stream.rs:1315-1358 | a write is the specified write, refused without change when the stream has ended |
| `SendBuffer.SendBuf.Pop` | src/stream.rs:1401-1450 | takes the lowest contiguous bytes within both limits; `len` stays the number of queued bytes |
| `SendBuffer.SendBuf.Ack` | src/stream.rs:1458-1460 | an acknowledgement of any range is a range insertion; within the write offset it keeps the buffer well formed |
| `SendBuffer.SendBuf.Shutdown` | src/stream.rs:1463-1473 | drops the queue once, fails the second time |
| `SendBuffer.SendBuf.IsComplete` | src/stream.rs:1500-1508 | complete exactly when the acknowledged set is the range from 0 to the final offset |
| `Delivery.ReceiverAccepts` | src/stream.rs:818-843 | no frame of this sender violates the receiver's limit or final size |
| `Delivery.StepKeeps` | src/lib.rs:1837-1893 | the invariant over sender, network and receiver survives every step, a refused re-queue included |
| `Delivery.DeliveredIsPrefix` | src/stream.rs:1060-1098 | in every run the bytes handed out are a prefix of the bytes accepted, and all of them once the end is reported |
| `StreamEnds.EndKnownIff` | src/stream.rs:853-855 | in every run, once a frame with `fin` arrived the final size is known and is the number of bytes written; while the stream is read it is known from nothing else, and the receiver is at the end exactly when such a frame arrived and everything was handed out |
| `StreamEnds.CompleteKnowsEnd` | src/stream.rs:1500-1508 | with honest acknowledgements, and if no empty write ended the stream after bytes were written, the receiver of a complete sender knows the end |
| `Delivery.EveryByteInOnePlace` | src/stream.rs:1315-1460 | until shutdown every accepted byte is in at most one of queue, flight and acknowledged set, in exactly one unless a re-queue was refused, and `len` counts the queue |
| `Delivery.NeverRefused` | src/lib.rs:4414-4572 | in no run does a frame or a reset of this sender draw FlowControl or FinalSize |
| `Delivery.CompleteIff` | src/stream.rs:1500-1524 | unless a re-queue was refused, a non-empty stream is complete exactly when its final size is known and no byte is queued or in flight |
| `Delivery.RequeueRefusedIff` | src/stream.rs:1361-1377 | exactly which frames in flight the send buffer would refuse to queue again |
| `Delivery.RefusalArisesIff` | src/stream.rs:1361-1377 | a step makes a frame in flight un-requeueable exactly when it is an empty `fin` write while the last byte is in flight |
| `Delivery.FailsOnlyAfterLateFin` | src/lib.rs:1837-1893 | in a run without such a write, and without a refused frame of another stream that takes one along, no frame is dropped |
| `DeliveryRuns.LateFinFails` | src/stream.rs:1361-1377 | a run of four steps in which a written byte is refused for good and is nowhere any more |
| `DeliveryRuns.AckedButLost` | src/stream.rs:878-924 | a run with honest acknowledgements in which the sender is complete and the last byte is neither handed out nor buffered |
| `EndRuns.CompleteWithoutEnd` | src/stream.rs:1500-1508 | a run of five steps, with honest acknowledgements, in which the sender is complete while the end was not even sent |
| `EndRuns.EndNeverRead` | src/stream.rs:859-872 | a run of eight steps that leaves the receiver at the end with nothing that a read could return |
| `EndRuns.AtEndStays` | src/stream.rs:818-872 | no further frame changes that |
| `Reach.AckedIsReached` | src/stream.rs:1458-1460 | in every run with honest acknowledgements and lossless pushes, every acknowledged byte is handed out, buffered, or no longer wanted |
| `Reach.ArrivalReachesIff` | src/stream.rs:878-924 | one arrival leaves every frame that arrived at the receiver, in all visit orders, if and only if its push exposes no byte |
| `Reach.CompleteIsReadable` | src/stream.rs:1500-1508 | in such a run, once the sender is complete the receiver can read all the rest without another frame, and is then at the end exactly when a frame with `fin` arrived |
| `RangeSets.InsertedIsUnion` | src/ranges.rs:40-76 | insertion is union |
| `RangeSets.InsertedCanonical` | src/ranges.rs:40-76 | insertion keeps the ranges sorted, each end strictly below the next start, empty ranges included |
| `RangeSets.RemovedIsDifference` | src/ranges.rs:78-93 | `remove_until` removes exactly the numbers up to the bound |
| `RangeSets.RemovedCanonical` | src/ranges.rs:78-93 | `remove_until` keeps the ranges sorted and separated |
| `RangeSets.FlatEnumerates` | src/ranges.rs:203-240 | the enumeration lists exactly the members, once each, in increasing order |
| `RangeSets.LastIsMaximumIff` | src/ranges.rs:100-102 | the last range gives the maximum if and only if it is not empty |
| `RangeSets.EmptyRangeMisleads` | src/stream.rs:1458-1460 | acknowledging an empty frame makes the largest number a number that is not in the set |
| `RangeSets.EqualsRangeIff` | src/ranges.rs:144-160 | a set within [0, n) equals that range exactly when it holds every number below n |
| `RangeSets.FrontKeysBelow` | src/ranges.rs:126-138 | the entries in front of the merged range have smaller keys, so the next lookup finds the entry behind it |
| `RangeSets.InsertEntry` | src/ranges.rs:40-76 | the lookups and the merging loop over the entries compute the union |
| `RangeSets.RemoveEntries` | src/ranges.rs:78-93 | the loop over the removed entries computes the difference |
| `RangeSets.RangeSet.Insert` | src/ranges.rs:40-76 | the set that is updated in place becomes the union |
| `RangeSets.RangeSet.RemoveUntil` | src/ranges.rs:78-93 | the set that is updated in place becomes the difference |
| `RangeSets.RangeSet.PushItem` | src/ranges.rs:95-98 | adding one number is inserting the range of that number |
| `RangeSets.RangeSet.Largest` | src/ranges.rs:100-102 | the result is the maximum exactly when the last range is not empty, and none for the empty set |
| `RangeSets.Flatten.Next` | src/ranges.rs:212-224 | forward iteration over non-empty ranges yields the enumeration from its front; what it does with an empty one |
| `RangeSets.Flatten.NextBack` | src/ranges.rs:228-240 | backward iteration over non-empty ranges yields the enumeration from its back; what it does with an empty one |
| `StreamTables.StepKeeps` | src/stream.rs:190-292 | opening, collecting and limit updates keep the accounting of opened and collected streams exact |
| `StreamTables.ConcurrencyBounded` | src/stream.rs:532-562 | in every run the live streams of each kind that a side opened stay within its limit, live and collected IDs stay disjoint, and the streams opened stay within the limit granted |
| `StreamTables.CollectedForever` | src/stream.rs:547-562 | a collected ID is never a live stream again |
| `StreamTables.PeerOpenOutcome` | src/stream.rs:190-292 | exactly when opening for the peer fails, and with which error |
| `StreamTables.LocalOpenOutcome` | src/stream.rs:190-292 | when this endpoint opens a stream, each error with its exact cause in terms of live and collected streams and of the peer's limit |
| `StreamTables.PeerLimitIsLargest` | src/stream.rs:522-529 | in every run the limit for this endpoint's streams is the largest the peer announced |
| `StreamTables.BothEndsAgree` | src/stream.rs:207-227 | what one end of a new stream may send is what the other end accepts, in both directions, and it is the limit announced for that kind of stream |
| `StreamTables.OpenedStarts` | src/stream.rs:190-292 | opening starts a new stream with those limits, leaves all others alone, and lists it as writable exactly when it is |
| `StreamTables.CollectOutcome` | src/stream.rs:532-562 | collecting a stream moves it from the live ones to the collected ones and gives credit for one more of its kind if and only if the peer opened it; nothing else changes |
| `StreamTables.IdBits` | src/stream.rs:717-724 | which IDs are bidirectional and which side opened them; the two ends differ on what is local |
| `StreamTables.WritableIff` | src/stream.rs:678-683 | a stream is writable exactly when every write that is not empty takes a byte that will be sent |
| `StreamTables.CompleteMeans` | src/stream.rs:699-714 | a stream is complete exactly when, in each direction it has, everything up to the end was handed out or acknowledged |
| `StreamMaps.SwapRemoveBackParts` | src/stream.rs:347-369 | removing an entry by swapping disturbs only entries visited already |
| `StreamMaps.DropBlocks` | src/stream.rs:332-373 | the two reverse loops stay in bounds; the first panics exactly when a queued stream is gone; the second asks about each entry once and fails exactly when a block to drop was shut down before or is dropped again further back, and what it has done by then is specified |
| `StreamMaps.CanceledMeans` | src/stream.rs:451-467 | canceling stops the sending side only: what was written and acknowledged stays on record, and the receiving side with all it buffers is left alone |
| `StreamMaps.OfferedAt` | src/stream.rs:330-370 | the order of the offer: each entry that is kept comes right after all kept ones behind it |
| `StreamMaps.FlushableIff` | src/stream.rs:686-697 | a stream is flushable exactly when its next frame carries data |
| `StreamMaps.FailsAgain` | src/stream.rs:451-467 | a step that failed leaves the block queued and announced, and a later step fails at the same entry whenever it is to be dropped |
| `StreamMaps.EmptyFinQueuedTwice` | src/lib.rs:3798-3815 | two empty writes that end a stream queue it twice, and dropping both entries fails |
| `StreamMaps.CollectedWhileQueued` | src/stream.rs:547-562 | such a stream is collected while still queued, and then the scheduling step panics |
| `StreamMaps.ShutDownWhileQueued` | src/lib.rs:3846-3877 | shutting down a queued stream leaves it queued, and dropping it fails |
| `StreamMaps.QueueConserved` | src/stream.rs:323-396 | the queue is exactly the entries kept, which are offered, and the entries dropped, however often an ID is queued; the latter are the dropped blocks, each once, exactly when none is dropped twice |
| `StreamMaps.StreamMap.PeekFlushable` | src/stream.rs:323-396 | the scheduling step: exactly when it panics, exactly when it fails and what it leaves then; what is offered, what is returned, what stays queued, and which blocks end canceled, shut down and non-writable; field by field what it does to the stream of a dropped block, and that it leaves all others alone |
| `StreamMaps.StreamMap.Open` | src/stream.rs:190-292 | `get_or_create` on the map that is updated in place |
| `StreamMaps.StreamMap.CollectStream` | src/stream.rs:547-562 | `collect` on the map that is updated in place |
| `StreamTables.OperationsAreLater` | src/stream.rs:818-1139 | no operation on a receive buffer unreads a byte, moves a final size, or moves the offsets of a stream that is not read any more |
| `StreamCredit.StepWith` | src/stream.rs:532-562 | every step of the stream table, with the MAX_STREAMS frames under way, keeps the invariant and is a step of the peer's account |
| `StreamCredit.StuckOpensNoMore` | src/stream.rs:603-615 | a peer that is stuck never opens a stream of that kind again |
| `StreamCredit.OpeningServedIff` | src/stream.rs:603-615 | exactly when some continuation lets the peer open a stream: it knows it may, or it will hear so, or an update is due once every stream that is not dead is collected |
| `StreamCredit.StuckWithoutLossIff` | src/lib.rs:2093-2118 | as long as no MAX_STREAMS frame is lost, the peer is stuck exactly when it forfeited as many streams as it was allowed at first |
| `StreamCredit.ForfeitedAreDead` | src/lib.rs:3688-3690 | the streams forfeited are those that are not read any more and cannot end where reading stopped |
| `StreamCredit.UnreadStreamBlocks` | src/lib.rs:3688-3690 | a run without loss in which one stream that is not read to its end leaves the peer stuck |
| `StreamCredit.LostLimitBlocks` | src/lib.rs:2093-2118 | a run in which one lost MAX_STREAMS frame leaves the peer stuck |
| `FlowControl.StepKeeps` | src/lib.rs:4414-4532 | every step of the connection keeps the credit accounting |
| `FlowControl.ResetAccounted` | src/lib.rs:4414-4458 | which error a reset draws, and that with it every byte up to the final size has been charged to the connection |
| `FlowControl.UnreadBounded` | src/lib.rs:2121-2137 | against any peer, unread bytes stay within the stream's initial window and within the connection's, and no credit computation underflows |
| `FlowControl.GivenUpPacketChargedTwice` | src/lib.rs:4444-4453 | a packet given up at a RESET_STREAM of a stream no longer read has its data charged again when it is repeated |
| `FlowControl.MarksKept` | src/lib.rs:3680-3682 | in every step a marked stream is due an update, and one that is due an update when all of it was read is marked unless it is not read any more |
| `PeerCredit.ReadableMoves` | src/lib.rs:3670-3672 | only a frame that is charged makes more bytes readable, and reading takes off exactly what it gives back |
| `PeerCredit.StepWith` | src/lib.rs:2121-2169 | every step, with the announcements under way, keeps the invariants and is a step of the peer's account with the connection or with a stream |
| `PeerCredit.StuckSendsNoMore` | src/lib.rs:2121-2169 | a peer that is stuck, on the connection or on a stream, never sends a further byte there |
| `PeerCredit.StuckWithoutLossIff` | src/lib.rs:2121-2169 | when every update is sent and none is lost, a peer is stuck exactly when it forfeited its whole initial window, or used up the limit of a stream that is sent no updates any more |
| `PeerServed.ConnectionServedIff` | src/lib.rs:4660-4663 | exactly when some continuation gives the peer credit on the connection |
| `PeerServed.StreamServedIff` | src/lib.rs:2140-2169 | exactly when some continuation gives the peer credit on a stream, if the connection has room for the missing bytes |
| `PeerRuns.UnsentUpdateBlocks` | src/lib.rs:2140-2169 | a run in which a MAX_STREAM_DATA frame that does not fit leaves the peer stuck |
| `PeerRuns.CancelBlocks` | src/lib.rs:4445-4457 | a run without loss in which a canceled block leaves the peer stuck on the connection |
| `Announcements.ServedIff` | src/lib.rs:2093-2169 | for every account in order, if all that can be given back is: some continuation gives the peer more credit if and only if it is not stuck |
| `Announcements.StuckForever` | src/lib.rs:1891-1892 | in every run a stuck peer stays stuck, since lost announcements are not sent again and forfeited credit is not given back |
| `Announcements.StuckWithoutLossIff` | src/lib.rs:2093-2169 | in a run in which every announcement is sent and arrives, a peer is stuck exactly when it forfeited its whole initial limit, or used up the limit of a closed account |
| `Announcements.LostUpdateBlocks` | src/lib.rs:2140-2169 | one announcement lost or not sent suffices, for every initial limit |
| `RecoverySpec.SentValid` | src/recovery.rs:180-241 | sending keeps the invariant and records the packet's frames |
| `RecoverySpec.AckedKeeps` | src/recovery.rs:565-650 | an acknowledgement with its FEC credit moves frames from outstanding to acknowledged packets and nowhere else, and keeps the bytes in flight exact |
| `RecoverySpec.EarlyExitLosesNothing` | src/recovery.rs:288-315 | walking the ranges from the largest down with the early exit equals acknowledging every number |
| `RecoverySpec.DetectOutcome` | src/recovery.rs:512-563 | after loss detection exactly the packets lost by time or threshold are gone; those kept below the largest acknowledged are above `largest - 3` and newer than the limit |
| `RecoverySpec.DetectLossTime` | src/recovery.rs:512-563 | the loss time is the minimum of send time plus delay over exactly the packets kept there, and in the future |
| `RecoverySpec.DetectKeeps` | src/recovery.rs:661-693 | loss detection moves frames from outstanding to lost or discarded, none twice, in one space only |
| `RecoverySpec.DetectFindsAll` | src/recovery.rs:661-693 | every packet listed as lost is found when it is removed |
| `AckRuns.SendOutcome` | src/recovery.rs:180-241 | a packet sent is outstanding in its space, and nothing else there changes but the largest number and the time of the last packet that wants an answer |
| `AckRuns.AckOutcome` | src/recovery.rs:243-331 | which packets an ACK frame leaves, in terms of the state before it: those it does not list and, if it lists an outstanding one, that are not lost against the new largest number; without a new acknowledgement nothing else changes |
| `AckRuns.LargestAckedOutcome` | src/recovery.rs:252-267 | an ACK frame is refused exactly when it lists a number above the largest sent; otherwise the largest acknowledged number bounds all numbers listed, is one of them or the old one, and never falls |
| `AckRuns.LargestAckedIs` | src/recovery.rs:263-267 | in every run the largest acknowledged number is the maximum over all ACK frames accepted |
| `AckRuns.LargestSentIs` | src/recovery.rs:212-213 | in every run the largest number sent is the maximum over all packets sent, or zero |
| `AckRuns.RefusedIff` | src/recovery.rs:252-261 | in every run an ACK frame is refused exactly when it lists a number other than zero above every number sent |
| `AckRuns.AckBeforeSending` | src/recovery.rs:252-261 | an acknowledgement of packet 0 is accepted before anything was sent |
| `AckRuns.LastElicitingIs` | src/recovery.rs:219-222 | in every run the time kept for probes is that of the last packet that wants an answer since the space was dropped |
| `AckRuns.TimeoutOutcome` | src/recovery.rs:332-360 | a timeout looks for losses in the space whose timer is due first, else asks for two probes where the oldest answer is awaited, and changes nothing else |
| `AckRuns.DropOutcome` | src/recovery.rs:362-381 | a dropped space is as new but for the largest numbers, with no timer left, and its bytes are out of flight |
| `RecoveryRuns.AckRemovesExactly` | src/recovery.rs:243-331 | an ACK frame removes exactly the packets its ranges list |
| `RecoveryRuns.Earliest` | src/recovery.rs:454-477 | the space whose timer is due first, the application space only after the handshake |
| `RecoveryRuns.CreditNeedsEnoughAcks` | src/fec.rs:65-77 | FEC credits a packet only if it was sent in the group and at least m distinct packets of that group were acknowledged |
| `FecRuns.JoinedOutcome` | src/recovery.rs:184-202 | the first packet of a group gives it its numbers of data and repair packets; later ones leave them alone, enter at their index, and touch no other group |
| `FecRuns.GroupsOfRun` | src/fec.rs:43-53 | in every run a group holds exactly the packets sent in it, with the numbers they carry, and the packets outstanding agree with it |
| `FecRuns.CreditIff` | src/fec.rs:65-77 | when a packet of a group is acknowledged, every other outstanding packet of it that has frames is credited if and only if as many distinct packets of it were acknowledged as the packet's own `m`; its frames are then acknowledged |
| `FecRuns.OthersKept` | src/recovery.rs:565-650 | acknowledging a packet leaves the packets of other groups, and those in none, alone |
| `FecRuns.CreditedOnceEnough` | src/fec.rs:65-77 | in every run, from a step that acknowledges a packet of a group until another is sent in it: once enough were acknowledged, no outstanding packet of it has a frame left |
| `FecRuns.LoseOutcome` | src/recovery.rs:671-693 | a lost packet is noted in its group if it counts as in flight, and nothing else changes in any group |
| `RecoveryRuns.StepKeeps` | src/recovery.rs:180-381 | every step keeps the books of frames, bytes and FEC groups |
| `RecoveryRuns.FrameLedger` | src/recovery.rs:565-693 | in every run each frame sent is in exactly one of outstanding, acknowledged, lost, discarded |
| `RecoveryRuns.FrameInOnePlace` | src/recovery.rs:565-693 | in every run each frame of each packet is in exactly one of six places, in one copy |
| `RecoveryRuns.NotAckedAndLost` | src/recovery.rs:565-693 | a frame of a packet is never both acknowledged and lost, and not acknowledged twice |
| `Handover.RecoveryIsDelivery` | src/lib.rs:1663-1697 | every step of loss recovery other than sending is a path of the stream model that takes exactly the frames handed over out of flight, in order; lost ones are queued again up to the first refused, and dropped behind it |
| `Handover.SendIsTransmit` | src/recovery.rs:180-241 | sending a packet with one frame of the stream is the step of the stream model that transmits it |
| `Handover.HandedOnce` | src/lib.rs:1837-1893 | in every run a frame is handed to the connection at most once, as acknowledged or as lost |
| `RecoveryRuns.BytesInFlightExact` | src/recovery.rs:222-238 | in every run the bytes in flight are the sizes of the outstanding in-flight application packets, and every group lookup succeeds |
| `Recovery.CollectRecovered` | src/fec.rs:65-77 | the loop of `get_recovered_pns` |
| `Recovery.ScanLost` | src/recovery.rs:530-558 | the loop of `detect_lost_packets`, stopped at the largest acknowledged packet |
| `Recovery.Recovery.OnPacketSent` | src/recovery.rs:180-241 | `on_packet_sent` is the specified step |
| `Recovery.Recovery.OnPacketAcked` | src/recovery.rs:565-650 | `on_packet_acked` is the specified step; the group is found and the subtraction does not underflow |
| `Recovery.Recovery.OnAckReceived` | src/recovery.rs:243-331 | `on_ack_received` is the specified step, or reports a number never sent and changes nothing |
| `Recovery.Recovery.DetectLostPackets` | src/recovery.rs:512-563 | `detect_lost_packets` is the specified step |
| `Recovery.Recovery.OnPacketsLost` | src/recovery.rs:661-693 | `on_packets_lost` is the specified step |
| `Recovery.Recovery.OnLossDetectionTimeout` | src/recovery.rs:332-360 | `on_loss_detection_timeout` is the specified step |
| `Recovery.Recovery.DropUnackedData` | src/recovery.rs:362-381 | `drop_unacked_data` is the specified step |
| `OctetCursor.ValueOfBigEndian` | src/octets.rs:86-107 | an integer that fits its width is read back as written |
| `OctetCursor.BigEndianOfValue` | src/octets.rs:55-74 | bytes read as an integer are the bytes it is written as |
| `OctetCursor.VarintRoundTrip` | src/octets.rs:205-272 | every variable-length integer comes back and leaves exactly what follows it |
| `OctetCursor.VarintShortest` | src/octets.rs:423-446 | whatever parses is in range, and the printer never needs more bytes for it |
| `OctetCursor.StandardExamples` | src/octets.rs:205-230 | the examples of RFC 9000 parse to the values given there |
| `OctetCursor.Octets.GetUint` | src/octets.rs:139-203 | reads a big-endian integer and advances, or fails without moving |
| `OctetCursor.Octets.GetVarint` | src/octets.rs:205-230 | reads a variable-length integer, or fails without moving |
| `OctetCursor.Octets.GetBytes` | src/octets.rs:276-289 | hands out the next bytes, or fails without moving |
| `OctetCursor.Octets.PutUint` | src/octets.rs:151-203 | appends a big-endian integer, or fails without writing |
| `OctetCursor.Octets.PutVarint` | src/octets.rs:234-272 | appends a variable-length integer, tagged in place, or fails without writing |
| `OctetCursor.Octets.PutBytes` | src/octets.rs:331-347 | appends bytes, or fails without writing |
| `FrameRoundTrip.AckComesBack` | src/frame.rs:339-368 | every canonical set of packet numbers comes back from its ACK frame; no gap or length underflows |
| `FrameRoundTrip.AckAccepted` | src/frame.rs:926-969 | an accepted ACK frame, however forged, has block count + 1 separated non-empty ranges below the announced largest number |
| `FrameRoundTrip.StreamComesBack` | src/frame.rs:971-998 | a stream frame comes back with its offset, data and `fin` |
| `FrameRoundTrip.PaddingRead` | src/frame.rs:168-178 | a run of zero bytes is one padding frame |
| `FrameRoundTrip.FrameComesBack` | src/frame.rs:160-319 | every well-formed frame comes back from its bytes, which are consumed exactly, in every packet type that may carry it, and is refused in the others |
| `FrameSpec.AllowedTypes` | src/frame.rs:283-313 | which frames may arrive in which packets, by their numbers on the wire; the others refuse the packet |
| `FramePayload.PayloadComesBack` | src/lib.rs:1645-1655 | frames printed back to back parse to the same frames, padding merged; one frame that is not allowed refuses the payload |
| `FramePayload.SequenceComesBackIff` | src/frame.rs:160-557 | a short packet gives back exactly the frames printed if and only if no padding is empty or adjacent to another |
| `FramePayload.ParsableIff` | src/frame.rs:160-319 | a frame is the result of parsing some bytes if and only if it is well formed |
| `FramePayload.ParsedPrintsBack` | src/frame.rs:160-557 | whatever a peer sent, the frames parsed can be printed and parsed again to the same frames |
| `FrameCodec.WireLen` | src/frame.rs:559-752 | the size computed is the size printed, exactly when a path challenge or response has 8 bytes |
| `FrameCodec.AckLen` | src/frame.rs:565-595 | the loop of `wire_len` over the ranges |
| `FrameCodec.PutBlocks` | src/frame.rs:357-367 | the loop of `to_bytes` over the ranges |
| `FrameCodec.ToBytes` | src/frame.rs:321-557 | `to_bytes` appends exactly the frame's bytes, or reports that they do not fit |
| `FrameCodec.ParseBlocks` | src/frame.rs:944-962 | the loop of `parse_ack_frame` |
| `FrameCodec.ParseStream` | src/frame.rs:971-998 | `parse_stream_frame` for all eight frame types |
| `FrameCodec.FromBytes` | src/frame.rs:160-319 | `from_bytes` reads the frame the format describes, with every error case |
| `FrameCodec.ParsePayload` | src/lib.rs:1645-1655 | the loop over a payload terminates and yields its frames |
| `PacketNumbers.DecodeExact` | src/packet.rs:510-528 | a truncated number within half a window of the expected one decodes exactly |
| `PacketNumbers.DecodeNearest` | src/packet.rs:510-528 | decoding picks the number with these low bytes that is closest to the expected one |
| `PacketNumbers.DecodeBounded` | src/packet.rs:510-528 | a forged number decodes to less than 2^32 beyond the largest one |
| `PacketNumbers.ShortestLength` | src/packet.rs:438-450 | the length is the smallest of one, two and four bytes in which the number is below the largest value, and none from 2^32 - 1 on |
| `PacketNumbers.StandardExample` | src/packet.rs:510-528 | the example of RFC 9000 decodes to the number given there |
| `PacketNumbers.EncodePktNum` | src/packet.rs:590-606 | the number is written whole in the length its size asks for |
| `PacketNumbers.RoundTripIff` | src/packet.rs:438-450 | what was written decodes to the number if and only if the packet is late by less than half a window |
| `PacketNumbers.LatePacketMisread` | src/packet.rs:510-528 | a packet number that is late by more than half a window and is taken for another |
| `PacketNumbers.PktNumWindow.Record` | src/packet.rs:778-794 | `insert` on the window that is updated in place |
| `PacketNumbers.PktNumWindow.Query` | src/packet.rs:796-809 | `contains` on that window |
| `PacketNumbers.ArrivalKeeps` | src/packet.rs:777-816 | the window answers true exactly for recorded numbers and those below it; truncating the shift count to 32 bits never matters |
| `PacketNumbers.NoNumberTwice` | src/lib.rs:1597-1714 | over a whole session no packet number is processed to its end twice |
| `PacketNumbers.LetThroughIff` | src/lib.rs:1597-1600 | a packet is let through if and only if its number is not below the window and every earlier packet with it that was let through was given up at a frame |
| `PacketNumbers.AbortedPacketTwice` | src/lib.rs:1640-1714 | a packet given up at a frame and repeated by the network is let through twice |
| `PacketNumbers.FreshAcceptedIff` | src/lib.rs:1707-1714 | a number not yet recorded is recorded exactly when it is not below the window and its packet is processed to the end |
| `WindowedMin.RunningMinTracks` | src/minmax.rs:91-109 | one call keeps the estimates ordered lower bounds of all samples since, and the result inside the window |
| `WindowedMin.ResultAgainstWindow` | src/minmax.rs:91-109 | in every run the result is an in-window sample and at most every sample since |
| `WindowedMin.MinimumIff` | src/minmax.rs:91-109 | from the state before a call: which sample it returns, and exactly when that is the window's minimum |
| `WindowedMin.AgeOutcome` | src/minmax.rs:91-168 | exactly which of the three estimates a call replaces, and by what: at a new minimum, within the window after a quarter or half of it, and behind it |
| `WindowedMin.EstimatesOrdered` | src/minmax.rs:133-168 | in every run the three estimates are ordered in time and value |
| `WindowedMin.MinimumMissed` | src/minmax.rs:133-168 | a run in which the result is above the window's minimum |
| `WindowedMin.Minmax.Update` | src/minmax.rs:91-109 | `running_min` on the array that is updated in place |
| `WindowedMin.Minmax.SubwinUpdate` | src/minmax.rs:133-168 | `subwin_update` on that array |

An ACK frame that parses has ranges as `Recovery.OnAckReceived` requires them
(`FrameRoundTrip.AckAccepted`), and a stream frame that parses ends below 2^62.

## Left out

- TLS, key handling, header protection and the C interface (src/tls.rs, src/crypto.rs, src/rand.rs, src/ffi.rs): foreign code.
- Reed-Solomon coding: only the bookkeeping of FEC packet numbers is modelled, not the shards.
- Congestion curves and their thread (src/cc): only the count of bytes in flight is modelled.
- Round-trip-time smoothing, the probe timeout and its back-off: floating point and clocks; the loss delay is a parameter of each call.
- Scheduler implementations: the answers about dropping, one per entry, and selecting are arbitrary functions given to the scheduling step; the hook that first shows the scheduler all queued blocks has no effect on the map.
- The rest of packet assembly and reception: encryption, padding to a minimum size, FEC shards, handshake, Retry, version negotiation.
- Connection steps: the connection's fields are modelled as values that steps relate, not as one object updated in place; the buffers, the stream map and recovery are classes.
- FEC groups: the packet-number sets of a group are values inside the recovery object, not objects of their own; the change of the code rate on loss is not modelled.
- Heap layout: which order iteration meets is left open. That no chunk of the vector lies below its parent is used for buffers of two chunks; for more chunks only that the lowest one comes first.
- RecvExactness.CompleteInEveryOrderIff: the half that loses bytes is about arbitrary orders, not only those of a heap; `RecvHeaps.LowestFirstIff` is about all orders that begin with the lowest chunk.
- `pop` on both buffers returns the bytes; writing them into the caller's slice is not modelled.
- `push_evaluation` reads the clock once per call, as a parameter.
- Fields of a send block that only the scheduler reads (priority, deadline, start time) and the block-information frame that announces them.
- Connection-level credit against an honest sender: retransmitted bytes count twice there, so it holds only without spurious loss; nothing is claimed.
- Repeated RESET_STREAM: the code does not record the credit it returned, so no idempotence is claimed.
- Partial output: when a frame does not fit, `to_bytes` may have written its first fields; only the result is specified then.
- Unsigned values of 2^62 and above are outside the wire format, where the code stops with a panic.
- PacketNumbers.ArrivalKeeps: numbers stay below 2^62, the end of the packet number space.
- Traces, log lines and statistics other than the block completion time and the bytes received in time.
- RangeSets.Flatten.NextBack: requires that the cursor does not stand at zero, where the code's subtraction underflows; and one object is read in one direction only.
- RangeSets.RangeSet.Largest: requires that the last range does not end at zero, for the same reason.
- PacketNumbers.PktNumWindow.Record: requires a number below the largest 64-bit value, where the code's subtraction underflows.
- Recovery.Recovery.OnPacketSent: requires a packet number that is not outstanding and FEC packets in the application space, as the connection sends them.
- Lost frames that a refused one takes along: `Delivery` may drop any frame in flight at any time as taken along by one of another stream; which frames a list of lost ones takes along is said by `Handover`.
- PeerServed.StreamServedIff: the connection must have room for the bytes of the stream that are missing, for the peer to fill the gaps; whether it gets room is the subject of `PeerServed.ConnectionServedIff`.
- StreamCredit.OpeningServedIff: a stream that is not dead is taken to be able to end, which needs the peer to end it and, on a bidirectional one, this side too.
- A mark on a stream that was collected is taken off when updates are built; the model leaves it, since no such stream is opened again.
- FecRuns.GroupsOfRun: packets are numbered once in their space, and in a group each index is used once and all packets carry the same numbers, as the connection does it; so too `FecRuns.CreditedOnceEnough`.
- AckRuns.LargestAckedIs: packet numbers stay below the largest 64-bit value, which marks that none was acknowledged.
- Handover.SendIsTransmit: one frame of the stream per packet, as the connection builds them.
- Frames are tagged with their packet and place in the model of loss recovery; the program keeps no such tag and never compares frames.
