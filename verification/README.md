# SignalForge core: verified model

A Dafny model of the three stateful cores of the repository, with proofs about whole runs.

1. **Event-time windowing** (`WatermarkManager`, `WindowAggregator`, the event path of the realtime pipeline). Classes
   hold the per-key high timestamps, the window states and the index of open windows, and loop as the code does. One
   observation is proved to move every window of its key by an isolated step and to emit exactly what these steps emit.
   Over runs, the incremental, out-of-order, memory-bounded engine is proved equal to a batch group-by-window-and-fold.
2. **TCP reassembly and SIP framing** (`TCPReassembler`, `SessionTracker`, `MessageDecoder`, the loops of
   `ParserPipeline`). What comes out is proved to be the framing of the gap-free bytes of the stream, under loss,
   reordering, duplication, overlap and any chunking, with the observation time of each message's first byte.
3. **Detectors, registry, dashboards and dataset buffers.** State machines whose detections are folded by separate
   views: the views are proved to show the detectors' state, to survive full replay, and the buffers to conserve every
   record.

Instants are integer microseconds from the Unix epoch and may be negative. The two lateness settings stay apart: `lw`
is the watermark manager's, `latenessSeconds` of a `Config` is the aggregator's, both in whole seconds. Each class
ties its fields to functions on values, and the theorems about runs are lemmas about those functions; `RealtimePipeline`
and `MessageDecoder` also carry their history as ghost fields, so that the theorems apply to any reachable object.

Lemmas named `...InSeconds`, `...InNumbers` or `...InBytes` say what the specification functions mean without using them:
constants, byte values, hours and ratios are written out there.

## Where a promise holds only under a condition

- The engine agrees with the batch for all runs if and only if the aggregator's tolerance is at least the manager's
  (`BatchRefinementExactly`); with less, a concrete run loses an accepted event (`ImpatientAggregatorLoses`).
- A key's watermark never goes back, but the minimum over keys can: `GlobalWatermarkRegression` says exactly when, and
  `NewKeyTakesMinimumBack` shows it.
- A byte keeps the time of its first arrival throughout a run if and only if no accepted packet brings it again at another
  time (`FirstTimesKeptExactly`), and then so does the message that starts with it (`MessageTimeProvenance`).
  `RetransmissionMovesTime` and `OverlapMovesTime` are runs in which a waiting byte takes a later packet's time;
  `EmptyPacketDatesNothing` shows that a packet without data counts for nothing.
- A stream arrives whole under every arrival order that starts with its first segment if and only if no segment strictly
  inside it is empty and the first one fixes its start (`DeliveryExactly`): an empty segment buffered at a number
  overwrites the data buffered there. Without such a segment, and whatever comes first, a complete arrival brings the
  whole stream if and only if the packet that fixes the start has the first number, or the stream has no bytes
  (`WholeExactly`).
- The stream starts at the first packet unless that packet is empty and carries the sentinel number zero
  (`FirstPacketPins`, `ZeroDoesNotPin`).
- The count of discarded segments is meant to show that a capture was lossy. For the segments of one stream, none of
  them empty strictly inside it and the start fixed at the first number, the count is zero if and only if none arrived
  beyond a missing one with data (`DiscardShowsHolesExactly`, `ReportIsExact`); a missing end does not show
  (`MissingEndIsSilent`). In general a discarded segment starts behind a gap if and only if no released chunk
  reached past its start (`DiscardedBehindGapsExactly`), which holds when no packet starts strictly inside another
  (`AlignedDiscardsBehindGaps`). `OvertakenIsCounted` counts a segment although nothing was lost, `NewTailIsNotCounted`
  loses a byte that is not counted.
- One decoder serves all sessions. Throughout a run each session gets the messages of its own bytes, and the decoder
  holds what the bytes of the session it was fed last leave over, if and only if all released bytes meet a remainder of
  their own session or none (`KeptApartExactly`). `MixedSessionsFabricate` frames a message that no session sent; in
  `EmptyPacketMixesNothing` another session's packet comes in between and does no harm.
- The offline view agrees with detector and registry throughout a run if and only if no registration moves a device
  while it is offline (`DashboardAgreesExactly`); event by event, if and only if no device comes back under
  another store than it is counted under (`ViewFollowsStateExactly`). `MovedDeviceStaysListed` shows a stale entry.
- Full replay leaves the offline and the outage view unchanged, but one late redelivery does so if and only if it repeats
  the last word about its device or store (both `LateDuplicateExactly`; `StaleOfflineRevives`, `StaleOutageRevives`); the
  module texts promise it for any duplicate.
- Adding up anomaly buckets counts distinct ids if and only if no id lies in two of them (`CountIsDistinctExactly`). The
  detector's own ids never do (`DetectorIdsInOneBucket`); an id that comes with two times is counted twice
  (`SharedIdCountsTwice`).

## Where code and documentation disagree, the model follows the code

- `packages/stream-pipeline/stream_pipeline/streaming/window_aggregator.py:119` says `combine` never mutates;
  `DistinctCountAggregation` adds to its set in place.
- `packages/stream-pipeline/stream_pipeline/detection/detectors/offline_detector.py:36` says a recovery is silent;
  `observe_event` emits `device.online`.
- `packages/telemetry-parser/telemetry_parser/stream/observation.py:12-14` says the observation time does not move when a
  segment is retransmitted. A segment that is still awaited takes the time of the latest packet with its number
  (`packages/telemetry-parser/telemetry_parser/stream/tcp_reassembler.py:91`): `ChunkProvenance`,
  `RetransmissionMovesTime`.
- `packages/telemetry-parser/telemetry_parser/stream/tcp_reassembler.py:131-144` says every dropped segment sits behind
  a gap. One that a longer segment overtook does not: `OvertakenIsCounted`.

## Model

| member | source | states |
|---|---|---|
| WindowSpecs.WindowsContaining | packages/stream-pipeline/stream_pipeline/streaming/window_aggregator.py:456-486 | for every instant, before the epoch included, the ascending list of exactly the aligned starts whose half-open window contains it, `size / slide` of them |
| WindowSpecs.StepsBackCover | packages/stream-pipeline/stream_pipeline/streaming/window_aggregator.py:471-484 | a window covers an instant exactly when it is one of the `size / slide` steps back from the newest aligned start |
| Aggregations.CommutativeAggregations | packages/stream-pipeline/stream_pipeline/streaming/window_aggregator.py:136-250 | count, sum, mean and distinct count (over exact numbers) combine contributions in either order |
| Aggregations.CountIsLength | packages/stream-pipeline/stream_pipeline/streaming/window_aggregator.py:136-152 | the folded count is the number of contributions |
| Aggregations.DistinctCountsKeys | packages/stream-pipeline/stream_pipeline/streaming/window_aggregator.py:178-210 | the folded distinct count is the set of keys of the contributions |
| Aggregations.MeanIsSumOverCount | packages/stream-pipeline/stream_pipeline/streaming/window_aggregator.py:213-250 | the folded mean state is sum and number; finalised it is their quotient |
| Aggregations.AggregationNames | packages/stream-pipeline/stream_pipeline/streaming/window_aggregator.py:136-232 | each aggregation goes by its name, which routes its emissions |
| Aggregations.FoldIgnoresOrder | packages/stream-pipeline/stream_pipeline/streaming/window_aggregator.py:115-133 | a commutative fold gives the same state for equal multisets of contributions |
| Watermarks.WatermarkManager.Observe | packages/stream-pipeline/stream_pipeline/streaming/watermark_manager.py:130-162 | classifies against the watermark before the event, raises the key's high to the maximum, reports the watermark after it; an empty key is refused without a change |
| Watermarks.WatermarkManager.GlobalWatermark | packages/stream-pipeline/stream_pipeline/streaming/watermark_manager.py:181-197 | the least watermark of the tracked keys, or the baseline when there is none |
| Watermarks.ClassificationBands | packages/stream-pipeline/stream_pipeline/streaming/watermark_manager.py:214-233 | dropped, tolerated and on time are three contiguous bands below and above the watermark; zero lateness leaves no tolerated band |
| Watermarks.KeyWatermarkAdvances | packages/stream-pipeline/stream_pipeline/streaming/watermark_manager.py:143-162 | a key's watermark never goes back and a late event leaves it where it is |
| Watermarks.GlobalWatermarkRegression | packages/stream-pipeline/stream_pipeline/streaming/watermark_manager.py:181-197 | one observation keeps the global watermark from going back exactly when its key is tracked, no key is, or it enters at or after the current minimum |
| Watermarks.NewKeyTakesMinimumBack | packages/stream-pipeline/stream_pipeline/streaming/watermark_manager.py:181-197 | a key that enters below the only tracked one takes the global watermark back |
| WindowAggregators.WindowAggregator.Observe | packages/stream-pipeline/stream_pipeline/streaming/window_aggregator.py:345-446 | every window of the key moves by its isolated step, other keys stay, and the result lists exactly the emissions of these steps by strictly ascending start; the index stays sorted, distinct, aligned and in step with the states |
| WindowAggregators.WindowAggregator.Touch | packages/stream-pipeline/stream_pipeline/streaming/window_aggregator.py:385-436 | one covered window is opened if its sealing horizon allows, combined, and re-emitted if it is late and already emitted |
| WindowAggregators.WindowAggregator.CloseEligibleWindows | packages/stream-pipeline/stream_pipeline/streaming/window_aggregator.py:488-543 | exactly the unemitted windows whose end the watermark has reached are emitted, ascending, and exactly those past their horizon are evicted |
| WindowAggregators.WindowAggregator.CloseWindow | packages/stream-pipeline/stream_pipeline/streaming/window_aggregator.py:509-534 | the same for one window |
| WindowAggregators.CombinedEmissions | packages/stream-pipeline/stream_pipeline/streaming/window_aggregator.py:438-446 | repairs and closures never meet on a window, so the sorted concatenation lists each emitting window once |
| WindowAggregators.AscendingListsEqual | packages/stream-pipeline/stream_pipeline/streaming/window_aggregator.py:444-446 | ascending emission lists with the same members are equal, so a call's result is determined |
| WindowAggregators.OpenWindowsCounted | packages/stream-pipeline/stream_pipeline/streaming/window_aggregator.py:448-450 | the open window count is the number of the key's retained windows |
| WindowRuns.BatchRefinement | packages/stream-pipeline/stream_pipeline/streaming/window_aggregator.py:345-446 | for every run and window with `lw <= latenessSeconds`: the retained state is the fold of the accepted events, the window has been emitted exactly when it has one and the watermark reached its end, and the last emission carries the batch value and count, also after eviction |
| WindowRuns.BatchRefinementExactly | packages/stream-pipeline/stream_pipeline/streaming/window_aggregator.py:308-319 | this agreement holds for all runs if and only if the aggregator's tolerance is at least the manager's |
| WindowRuns.ImpatientAggregatorLoses | packages/stream-pipeline/stream_pipeline/streaming/window_aggregator.py:391-396 | with a smaller tolerance a concrete run accepts two events for a window and reports one |
| WindowRuns.AcceptedInTime | packages/stream-pipeline/stream_pipeline/streaming/watermark_manager.py:214-233 | bounds of the watermark after an accepted event relative to the end of a window that covers it |
| WindowRuns.NothingLostOrSilent | packages/stream-pipeline/stream_pipeline/streaming/window_aggregator.py:391-436 | the sealing guard skips no accepted event, an on-time event meets no emitted window, a tolerated one for an emitted window is repaired in the same call with the updated value |
| WindowRuns.ClosureProtocol | packages/stream-pipeline/stream_pipeline/streaming/window_aggregator.py:398-446 | for any observations with monotone watermarks: one closure, first, then repairs; rising counts; a retained window is marked emitted exactly when the watermark has reached its end |
| WindowRuns.SealedForGood | packages/stream-pipeline/stream_pipeline/streaming/window_aggregator.py:391-396 | a window is evicted only after it was emitted, and then never reopens or emits again |
| WindowRuns.ManagerIsMonotone | packages/stream-pipeline/stream_pipeline/streaming/watermark_manager.py:151-162 | the watermarks handed to the aggregator never go back |
| WindowRuns.ClassInSeconds | packages/stream-pipeline/stream_pipeline/streaming/watermark_manager.py:214-233 | an event is dropped if and only if an earlier one of its key lies more than twice the tolerance ahead of it, on time if and only if none lies more than the tolerance ahead |
| WindowRuns.AcceptedInSeconds | packages/stream-pipeline/stream_pipeline/streaming/window_aggregator.py:381-396 | the accepted events of a window are those not dropped that lie in the aligned window, in arrival order, with seconds and microseconds written out |
| WindowRuns.ArrivalOrderInsensitive | packages/stream-pipeline/stream_pipeline/streaming/window_aggregator.py:381-446 | for a commutative aggregation two arrival orders of the same events, nothing dropped in either, give the same emitted windows, states, last values and counts |
| WindowRuns.RetainedBand | packages/stream-pipeline/stream_pipeline/streaming/window_aggregator.py:528-534 | a retained window starts between the sealing bound and the highest event time |
| RealtimePipelines.RealtimePipeline.Process | packages/stream-pipeline/stream_pipeline/streaming/realtime_pipeline.py:448-529 | watermark first, then aggregation; the result is the one the key's own past prescribes; a failed extraction changes nothing |
| RealtimePipelines.RealtimePipeline.ProcessBatch | packages/stream-pipeline/stream_pipeline/streaming/realtime_pipeline.py:664-715 | one result per event, in order |
| RealtimePipelines.LogIsRun | packages/stream-pipeline/stream_pipeline/streaming/realtime_pipeline.py:502-529 | reading a window's emissions back from the returned results gives that window's own log |
| RealtimePipelines.PipelineMatchesBatch | packages/stream-pipeline/stream_pipeline/streaming/realtime_pipeline.py:496-529 | any reachable pipeline agrees with the batch for every key and window, read from its results alone |
| RealtimePipelines.EveryEmissionIsBatch | packages/stream-pipeline/stream_pipeline/streaming/window_aggregator.py:398-446 | every emission, at the moment it is returned, carries the batch value and count of its window |
| RealtimePipelines.EmissionFields | packages/stream-pipeline/stream_pipeline/streaming/window_aggregator.py:425-436 | every field of every returned emission: key, aggregation name, window end, final value over the accepted events, their number, and the trace id of the last of them |
| RealtimePipelines.RepairFlag | packages/stream-pipeline/stream_pipeline/streaming/window_aggregator.py:434-434 | an emission is marked as a repair if and only if its window was emitted before |
| RealtimePipelines.RepairedAtOnce | packages/stream-pipeline/stream_pipeline/streaming/window_aggregator.py:409-437 | an event that was not dropped and lies in an emitted window is repaired in the same call with the count that includes it |
| RealtimePipelines.EmittedInSeconds | packages/stream-pipeline/stream_pipeline/streaming/window_aggregator.py:507-526 | a window has been emitted if and only if it accepted an event and some event of the key lies the tolerance beyond its end |
| RealtimePipelines.RetainedInSeconds | packages/stream-pipeline/stream_pipeline/streaming/window_aggregator.py:528-543 | a window is retained if and only if it accepted an event and no event of the key lies further than both tolerances beyond its end |
| RealtimePipelines.PipelineClosesOnce | packages/stream-pipeline/stream_pipeline/streaming/window_aggregator.py:398-446 | in any reachable pipeline, whatever the two tolerances, a window's first returned emission is its only closure and counts rise along its emissions |
| RealtimePipelines.DistinctDevicesReported | packages/stream-pipeline/stream_pipeline/streaming/window_aggregator.py:178-210 | the last value of an emitted distinct-count window is the number of distinct devices among its accepted events |
| RealtimePipelines.PipelineIgnoresArrivalOrder | packages/stream-pipeline/stream_pipeline/streaming/realtime_pipeline.py:496-529 | two pipelines that got the same events of a key in different orders, none dropped, report the same windows and last values |
| RealtimePipelines.MemoryBound | packages/stream-pipeline/stream_pipeline/streaming/window_aggregator.py:448-450 | the retained windows of a key, which the open window count counts, number at most `(aggregator lateness + manager lateness + size) / slide + 1` |
| RealtimePipelines.KeyNonInterference | packages/stream-pipeline/stream_pipeline/streaming/window_aggregator.py:335-339 | results, watermarks and windows of any set of keys equal those of a pipeline that saw only their arrivals |
| RealtimePipelines.FaithfulIsUnique | packages/stream-pipeline/stream_pipeline/streaming/realtime_pipeline.py:448-529 | a history has one list of results: replay is deterministic |
| Framing.FindTerminator | packages/telemetry-parser/telemetry_parser/protocol/message_decoder.py:60-63 | the first occurrence of the empty line, or none |
| Framing.TerminatorInBytes | packages/telemetry-parser/telemetry_parser/protocol/message_decoder.py:60-63 | the position found is the first of the bytes 13, 10, 13, 10, and none is found if and only if they are nowhere |
| Framing.FrameIsFraming | packages/telemetry-parser/telemetry_parser/protocol/message_decoder.py:57-79 | messages followed by the remainder rebuild the stream, each message ends at its first terminator, the remainder has none |
| Framing.FramesInBytes | packages/telemetry-parser/telemetry_parser/protocol/message_decoder.py:57-79 | every framed message ends with the bytes 13, 10, 13, 10 and has them nowhere earlier, the remainder has them nowhere |
| Framing.FramingIsUnique | packages/telemetry-parser/telemetry_parser/protocol/message_decoder.py:57-79 | these facts determine the framing |
| Framing.FrameAppend | packages/telemetry-parser/telemetry_parser/protocol/message_decoder.py:53-79 | framing may be resumed from the remainder when more bytes arrive |
| Framing.FramePrefix | packages/telemetry-parser/telemetry_parser/protocol/message_decoder.py:53-79 | the messages of a prefix are a prefix of the messages |
| MessageDecoders.MessageDecoder.Feed | packages/telemetry-parser/telemetry_parser/protocol/message_decoder.py:47-79 | after each chunk the messages returned so far are those of all bytes fed, each with the time of its own first byte, and the marks stand for one time per buffered byte |
| MessageDecoders.MessageDecoder.TakeMessage | packages/telemetry-parser/telemetry_parser/protocol/message_decoder.py:60-79 | cutting one message keeps the framing and the marks in step |
| MessageDecoders.MessageDecoder.Flush | packages/telemetry-parser/telemetry_parser/protocol/message_decoder.py:81-101 | gives the remainder with the time of its first byte, or nothing, and starts over |
| MessageDecoders.MessageDecoder.AdvanceMarks | packages/telemetry-parser/telemetry_parser/protocol/message_decoder.py:118-142 | the rebased marks stand for the times of the bytes that are left |
| MessageDecoders.MarksCoverBytes | packages/telemetry-parser/telemetry_parser/protocol/message_decoder.py:42-45 | marks ascend, the first is at offset zero while data is buffered, and each byte has the time of its mark |
| MessageDecoders.RebasedRepresents | packages/telemetry-parser/telemetry_parser/protocol/message_decoder.py:118-142 | collapsing the marks at or before the cut into the last of them refines dropping that many per-byte times |
| MessageDecoders.FirstByteTimesAt | packages/telemetry-parser/telemetry_parser/protocol/message_decoder.py:103-116 | each message's timestamp is the time of the stream byte at its start |
| MessageDecoders.ChunkingInvariance | packages/telemetry-parser/telemetry_parser/protocol/message_decoder.py:47-79 | decoders fed the same bytes in any chunks returned the same messages and hold the same remainder, a framing of these bytes |
| TcpReassembly.ReassemblySafety | packages/telemetry-parser/telemetry_parser/stream/tcp_reassembler.py:69-128 | if every packet is a slice of one stream, the released chunks concatenate to the slice from the origin to the expected number |
| TcpReassembly.ChunkProvenance | packages/telemetry-parser/telemetry_parser/stream/tcp_reassembler.py:69-128 | for any packets, each chunk is the packet that arrived last with its number before the chunk came out, with that packet's data and time |
| TcpReassembly.RunSettles | packages/telemetry-parser/telemetry_parser/stream/tcp_reassembler.py:69-128 | for any packets, chunks come out back to back from the origin; between packets nothing releasable is held, and what is awaited is the latest arrival with its number |
| ObservationTimes.FirstTimesKeptExactly | packages/telemetry-parser/telemetry_parser/stream/observation.py:12-14 | byte by byte: at every moment of a run each released chunk or awaited segment that holds the byte has the time of its first arrival if and only if no accepted packet brought it after it had arrived at another time |
| ObservationTimes.WaitingMovesExactly | packages/telemetry-parser/telemetry_parser/stream/tcp_reassembler.py:90-95 | a packet changes a waiting segment if and only if it has its number, the segment is still awaited, and they differ |
| ObservationTimes.RetransmissionMovesTime | packages/telemetry-parser/telemetry_parser/stream/tcp_reassembler.py:90-95 | four packets: a segment behind a gap arrives twice and comes out with the time of the second arrival |
| ObservationTimes.OverlapMovesTime | packages/telemetry-parser/telemetry_parser/stream/tcp_reassembler.py:90-105 | three packets with different numbers: a waiting byte comes out with the time of a longer segment that brings it again |
| ObservationTimes.EmptyPacketDatesNothing | packages/telemetry-parser/telemetry_parser/stream/tcp_reassembler.py:97-98 | an ignored empty packet fixes no time: the data that follows under its number keeps its own |
| TcpReassembly.FirstPacketPins | packages/telemetry-parser/telemetry_parser/stream/tcp_reassembler.py:77-80 | the first packet fixes the start unless it is empty with number zero |
| TcpReassembly.ZeroDoesNotPin | packages/telemetry-parser/telemetry_parser/stream/tcp_reassembler.py:77-80 | after an empty packet numbered zero the stream starts at the next packet |
| SegmentDelivery.EveryOrderDelivers | packages/telemetry-parser/telemetry_parser/stream/tcp_reassembler.py:69-128 | without interior empty segments any order with duplicates that brings every segment and starts at the first number releases the whole stream and leaves the buffer empty |
| SegmentDelivery.WholeExactly | packages/telemetry-parser/telemetry_parser/stream/tcp_reassembler.py:77-88 | a complete arrival brings the whole stream if and only if the packet that fixes its start has the first number, or there is nothing to bring |
| SegmentDelivery.LateStartLoses | packages/telemetry-parser/telemetry_parser/stream/tcp_reassembler.py:77-80 | if the first segment is empty at number zero and another starts later, an order beginning with the first segment loses data |
| SegmentDelivery.DiscardIsLoss | packages/telemetry-parser/telemetry_parser/stream/tcp_reassembler.py:131-157 | for a capture of segments with some missing, every discarded segment starts behind a gap, and none is discarded if and only if all that arrived came out |
| SegmentDelivery.DiscardShowsHolesExactly | packages/telemetry-parser/telemetry_parser/stream/tcp_reassembler.py:131-157 | for such a capture nothing is discarded if and only if no segment arrived beyond a missing one with data |
| SegmentConservation.BytesAreConserved | packages/telemetry-parser/telemetry_parser/stream/tcp_reassembler.py:69-157 | for a capture of segments with some missing, the bytes that came out and the bytes that wait are together those of all segments that arrived, each once |
| SegmentDelivery.MissingEndIsSilent | packages/telemetry-parser/telemetry_parser/stream/tcp_reassembler.py:131-157 | a capture of exactly the first segments discards nothing, although the stream ends early |
| SegmentDelivery.InteriorEmptyLoses | packages/telemetry-parser/telemetry_parser/stream/tcp_reassembler.py:90-95 | an interior empty segment lets the descending order lose data |
| SegmentDelivery.DeliveryExactly | packages/telemetry-parser/telemetry_parser/stream/tcp_reassembler.py:69-128 | every order that starts with the first segment delivers the stream if and only if no interior segment is empty and the first segment fixes the start (or none starts later) |
| SegmentOvertaking.DiscardedBehindGapsExactly | packages/telemetry-parser/telemetry_parser/stream/tcp_reassembler.py:131-157 | for any packets, every discarded segment starts behind a gap if and only if no released chunk reaches past the start of a segment that was waiting |
| SegmentOvertaking.AlignedDiscardsBehindGaps | packages/telemetry-parser/telemetry_parser/stream/tcp_reassembler.py:131-157 | told from the packets alone: if none starts strictly inside another, every discarded segment starts behind a gap |
| SegmentOvertaking.OvertakenCameOut | packages/telemetry-parser/telemetry_parser/stream/tcp_reassembler.py:131-157 | over slices, the bytes of an overtaken segment below the expected number are among the released bytes |
| SegmentOvertaking.OvertakenIsCounted | packages/telemetry-parser/telemetry_parser/pipeline/parser_pipeline.py:121-132 | three packets that lose nothing leave one segment to be discarded and counted |
| SegmentOvertaking.NewTailIsNotCounted | packages/telemetry-parser/telemetry_parser/stream/tcp_reassembler.py:80-88 | two packets: a new byte at the end of a retransmission never comes out and is not counted |
| Sessions.SessionIgnoresDirection | packages/telemetry-parser/telemetry_parser/stream/session_tracker.py:53-66 | packets share a session exactly when they have the same two endpoints in either direction |
| Sessions.SessionIsolation | packages/telemetry-parser/telemetry_parser/stream/session_tracker.py:68-113 | interleaved sessions reach the states their own packets lead to |
| Sessions.SingleSession | packages/telemetry-parser/telemetry_parser/stream/tcp_reassembler.py:45-67 | with one active session the reassembler releases what that session releases |
| TcpReassemblers.TCPReassembler.ProcessPacket | packages/telemetry-parser/telemetry_parser/stream/tcp_reassembler.py:45-67 | the packet's session, created if missing, takes the packet; others stay; a final packet closes it |
| TcpReassemblers.TCPReassembler.HandlePacket | packages/telemetry-parser/telemetry_parser/stream/tcp_reassembler.py:69-107 | drops, buffers or releases as the run theorems assume |
| TcpReassemblers.TCPReassembler.FlushBuffer | packages/telemetry-parser/telemetry_parser/stream/tcp_reassembler.py:110-128 | releases the contiguous buffered segments and terminates on the shrinking buffer |
| TcpReassemblers.TCPReassembler.DiscardIncomplete | packages/telemetry-parser/telemetry_parser/stream/tcp_reassembler.py:131-157 | clears every session's buffer and reports the exact numbers of segments and bytes held |
| TcpReassemblers.SessionTracker.GetOrCreateSession | packages/telemetry-parser/telemetry_parser/stream/session_tracker.py:68-113 | returns the session of the key, fresh and uninitialised if new, with its last activity set to the given time, without touching any other |
| ParserPipelines.ParserPipeline.ParseStream | packages/telemetry-parser/telemetry_parser/pipeline/parser_pipeline.py:62-105 | yields the framing of the released bytes with first-byte times, and reports exactly the segments still buffered and the unframed remainder |
| ParserPipelines.ParserPipeline.DiscardIncompleteBuffers | packages/telemetry-parser/telemetry_parser/pipeline/parser_pipeline.py:107-148 | both leftovers are dropped and reported, nothing is emitted from them |
| ParserPipelines.NothingFabricated | packages/telemetry-parser/telemetry_parser/pipeline/parser_pipeline.py:107-126 | under loss, reordering, duplication and overlap the messages are the first ones of the stream as sent |
| SharedDecoder.KeptApartExactly | packages/telemetry-parser/telemetry_parser/pipeline/parser_pipeline.py:48-49 | with several sessions, at every moment each has got the messages of its own bytes, and the decoder holds what the last fed session left over, if and only if all released bytes meet a remainder of their own session or none |
| SharedDecoder.EmptyPacketMixesNothing | packages/telemetry-parser/telemetry_parser/pipeline/parser_pipeline.py:77-81 | a packet of another session that releases nothing, in the middle of a message, leaves the message whole |
| SharedDecoder.FramedSnoc | packages/telemetry-parser/telemetry_parser/pipeline/parser_pipeline.py:77-81 | the pipeline's messages are those that come out packet by packet |
| SharedDecoder.MixedSessionsFabricate | packages/telemetry-parser/telemetry_parser/pipeline/parser_pipeline.py:48-49 | two packets of two sessions are framed into a message that neither sent |
| ParserPipelines.FramesGapFreeBytes | packages/telemetry-parser/telemetry_parser/pipeline/parser_pipeline.py:77-126 | under the same faults messages and remainder are a framing of exactly the bytes received without a gap |
| ParserPipelines.AnyOrderParsesTheStream | packages/telemetry-parser/telemetry_parser/pipeline/parser_pipeline.py:77-81 | a complete arrival order yields the messages and remainder of framing the stream in order if and only if it starts at the first number |
| ParserPipelines.CompleteReportsNothing | packages/telemetry-parser/telemetry_parser/pipeline/parser_pipeline.py:121-138 | a complete arrival is not reported as lossy: zero segments and bytes |
| ParserPipelines.NothingUnaccounted | packages/telemetry-parser/telemetry_parser/pipeline/parser_pipeline.py:107-148 | messages and reported remainder rebuild the released bytes, and the remainder is dated by its first byte |
| ParserPipelines.ReportIsExact | packages/telemetry-parser/telemetry_parser/pipeline/parser_pipeline.py:121-138 | for a capture of segments with some missing, zero segments are reported if and only if all that arrived came out, that is, if and only if none arrived beyond a missing one with data; bytes that came out and bytes reported are together those of all segments that arrived, each once |
| ParserPipelines.MessageTimeProvenance | packages/telemetry-parser/telemetry_parser/pipeline/parser_pipeline.py:77-100 | a message has the time of the last arrival, before its release, of the segment with its first byte; unless an accepted packet redates that one byte, it is the time at which that byte arrived first |
| DeviceRegistries.DeviceRegistry.ObserveRegistration | packages/stream-pipeline/stream_pipeline/detection/device_registry.py:64-96 | rebinds one device; the two mappings stay exact inverses without empty stores, and no device becomes unregistered |
| DeviceRegistries.DeviceRegistry.DeviceCount | packages/stream-pipeline/stream_pipeline/detection/device_registry.py:106-114 | the number of devices bound to the store |
| DeviceRegistries.DeviceRegistry.KnownStores | packages/stream-pipeline/stream_pipeline/detection/device_registry.py:120-126 | exactly the stores some device is bound to |
| DeviceRegistries.StoreForIsListed | packages/stream-pipeline/stream_pipeline/detection/device_registry.py:98-104 | the store of a device is the one that lists it |
| DeviceRegistries.BindingIsLatest | packages/stream-pipeline/stream_pipeline/detection/device_registry.py:64-96 | after a run a device is bound to the store of its latest registration |
| DeviceRegistries.UnlistKeepsInverse | packages/stream-pipeline/stream_pipeline/detection/device_registry.py:89-93 | taking a device off its store, and the store off the mapping when empty, keeps the mappings inverse |
| OfflineDetectors.OfflineDetector.ObserveEvent | packages/stream-pipeline/stream_pipeline/detection/detectors/offline_detector.py:85-142 | the new state and the detections, recovery first, then one per breaching device in order of first appearance; each is dated by the event and names the registered device and its store |
| OfflineDetectors.ObservedInNumbers | packages/stream-pipeline/stream_pipeline/detection/detectors/offline_detector.py:97-142 | one event makes its device seen, and another known device is offline afterwards if and only if it was, or its last event lies more than the threshold back and it is registered |
| OfflineDetectors.ObservedSays | packages/stream-pipeline/stream_pipeline/detection/detectors/offline_detector.py:144-212 | every detection carries the event's time, its device's store and an identifier of these coordinates |
| OfflineDetectors.HeldFollowsState | packages/stream-pipeline/stream_pipeline/detection/detectors/offline_detector.py:97-142 | the devices counted under a store are exactly the offline ones |
| OfflineDetectors.ViewFollowsStateExactly | packages/stream-pipeline/stream_pipeline/detection/detectors/offline_detector.py:107-142 | folding an event's detections keeps the view in step with the detector if and only if the event does not bring back a device under another store than it is counted under |
| OfflineMonitoring.OfflineMeansNoticedSilence | packages/stream-pipeline/stream_pipeline/detection/detectors/offline_detector.py:119-141 | a device is offline exactly when, since its latest own event, some device reported more than the threshold later while it was registered |
| OfflineMonitoring.OfflineViewIsDetectorState | packages/stream-pipeline/stream_pipeline/dashboards/offline_count_projection.py:77-105 | if no device is moved while counted offline, each store's stored set is exactly the offline devices registered there |
| OfflineMonitoring.DashboardAgreesExactly | packages/stream-pipeline/stream_pipeline/dashboards/offline_count_projection.py:77-105 | at every moment of a run each store's stored set is exactly the offline devices registered there, if and only if no registration moves a device while it is offline |
| OfflineMonitoring.MovedDeviceStaysListed | packages/stream-pipeline/stream_pipeline/detection/detectors/offline_detector.py:107-117 | a device moved while offline stays listed under the old store after it reports again |
| OfflineMonitoring.DetectionsAlternate | packages/stream-pipeline/stream_pipeline/detection/detectors/offline_detector.py:97-142 | under any interleaving of registrations and events each device's detections alternate, offline first |
| OfflineCountProjections.OfflineCountProjection.Observe | packages/stream-pipeline/stream_pipeline/dashboards/offline_count_projection.py:77-105 | adds or removes the device under its store and drops a store that empties; other views stay |
| OfflineCountProjections.FoldIsLastWord | packages/stream-pipeline/stream_pipeline/dashboards/offline_count_projection.py:77-105 | the folded view in closed form: the last word about each device decides, and a mentioned store is present exactly when not empty |
| OfflineCountProjections.ReplayIsIdempotent | packages/stream-pipeline/stream_pipeline/dashboards/offline_count_projection.py:87-136 | a second fold of the same detections changes nothing |
| OfflineCountProjections.LateDuplicateExactly | packages/stream-pipeline/stream_pipeline/dashboards/offline_count_projection.py:87-105 | one late redelivery is harmless if and only if it repeats the last word about its device |
| OfflineCountProjections.StaleOfflineRevives | packages/stream-pipeline/stream_pipeline/dashboards/offline_count_projection.py:87-105 | an offline detection redelivered after the recovery lists the device again |
| OutageDetectors.OutageDetector.ObserveEmission | packages/stream-pipeline/stream_pipeline/detection/detectors/outage_detector.py:101-156 | a store with registered devices is left in outage if and only if fewer than the share `1 - threshold` of them report; without registered devices nothing changes; one detection per change, dated by the window end |
| OutageDetectors.VerdictInNumbers | packages/stream-pipeline/stream_pipeline/detection/detectors/outage_detector.py:105-124 | the clamped offline ratio is above the threshold if and only if fewer than the share `1 - threshold` of the registered devices report |
| OutageDetectors.InOutageIsLastVerdict | packages/stream-pipeline/stream_pipeline/detection/detectors/outage_detector.py:101-156 | a store is in outage exactly when its latest evaluated window breached |
| OutageDetectors.ViewIsDetectorState | packages/stream-pipeline/stream_pipeline/dashboards/active_outage_projection.py:84-103 | after any readings the view lists exactly the stores the detector holds in outage |
| OutageDetectors.DashboardShowsLastVerdict | packages/stream-pipeline/stream_pipeline/dashboards/active_outage_projection.py:84-103 | the dashboard shows a store exactly when its latest evaluated window breached |
| OutageDetectors.DashboardShowsLastCounted | packages/stream-pipeline/stream_pipeline/dashboards/active_outage_projection.py:84-103 | the dashboard shows a store if and only if its last reading with registered devices breached |
| OutageMonitoring.DashboardShowsBatchVerdict | packages/stream-pipeline/stream_pipeline/streaming/realtime_pipeline.py:563-570 | from events and registrations to dashboard: a store is shown if and only if, at its last report that met registered devices, the distinct devices heard in the window were fewer than the share `1 - threshold` of them |
| OutageMonitoring.ReportsSnoc | packages/stream-pipeline/stream_pipeline/streaming/realtime_pipeline.py:563-570 | the detector is given every emission once, call by call and in order |
| OutageDetectors.OutagesAlternate | packages/stream-pipeline/stream_pipeline/detection/detectors/outage_detector.py:122-156 | each store's detections alternate, outage first |
| ActiveOutageProjections.ActiveOutageProjection.Observe | packages/stream-pipeline/stream_pipeline/dashboards/active_outage_projection.py:84-103 | puts or deletes the store's key; other views stay |
| ActiveOutageProjections.ActiveOutageProjection.StoresInOutage | packages/stream-pipeline/stream_pipeline/dashboards/active_outage_projection.py:109-116 | each store in the view once, in ascending order of store ids |
| ActiveOutageProjections.FoldIsLastWord | packages/stream-pipeline/stream_pipeline/dashboards/active_outage_projection.py:84-103 | presence and stored time of each store are decided by its last outage or recovery |
| ActiveOutageProjections.ReplayIsIdempotent | packages/stream-pipeline/stream_pipeline/dashboards/active_outage_projection.py:84-103 | a second fold changes neither the stores nor the stored times |
| ActiveOutageProjections.LateDuplicateExactly | packages/stream-pipeline/stream_pipeline/dashboards/active_outage_projection.py:84-103 | one late redelivery is harmless if and only if it says what the last word about its store says, the stored time included |
| ActiveOutageProjections.StaleOutageRevives | packages/stream-pipeline/stream_pipeline/dashboards/active_outage_projection.py:84-103 | an outage redelivered after the recovery puts the store back |
| ProjectionStores.InMemoryProjectionStore.Put | packages/stream-pipeline/stream_pipeline/dashboards/projection_store.py:87-88 | updates one key of one view; other views stay |
| ProjectionStores.InMemoryProjectionStore.Delete | packages/stream-pipeline/stream_pipeline/dashboards/projection_store.py:90-93 | removes one key of one view, if present; other views stay |
| ProjectionStores.InMemoryProjectionStore.Keys | packages/stream-pipeline/stream_pipeline/dashboards/projection_store.py:95-96 | the keys of the view, each once, in order |
| ProjectionStores.ListingIsUnique | packages/stream-pipeline/stream_pipeline/dashboards/projection_store.py:59-68 | the ordered listing is the only one, so its order is reproducible |
| AnomalyRateProjections.AnomalyRateProjection.Observe | packages/stream-pipeline/stream_pipeline/dashboards/anomaly_rate_projection.py:112-134 | adds the id to the bucket of its signal and time; other views stay |
| AnomalyRateProjections.AnomalyRateProjection.CountInWindow | packages/stream-pipeline/stream_pipeline/dashboards/anomaly_rate_projection.py:136-160 | adds up the bucket sizes from the floor of the window start up to the query instant |
| AnomalyRateProjections.OnlyTheDetectionsMatter | packages/stream-pipeline/stream_pipeline/dashboards/anomaly_rate_projection.py:112-134 | any permutation and duplication of the detections stores the same buckets |
| AnomalyRateProjections.ReplayIsIdempotent | packages/stream-pipeline/stream_pipeline/dashboards/anomaly_rate_projection.py:112-134 | a second fold leaves every bucket unchanged |
| AnomalyRateProjections.CountIsDistinctExactly | packages/stream-pipeline/stream_pipeline/dashboards/anomaly_rate_projection.py:152-160 | the added sizes count distinct ids if and only if no id lies in two visited buckets, and never too few |
| AnomalyRateProjections.DetectorIdsInOneBucket | packages/stream-pipeline/stream_pipeline/detection/detectors/anomaly_detector.py:120-131 | the ids of the anomaly detector never lie in two buckets |
| AnomalyRateProjections.SharedIdCountsTwice | packages/stream-pipeline/stream_pipeline/dashboards/anomaly_rate_projection.py:152-160 | one id with times in two neighbouring buckets is counted twice |
| AnomalyRateProjections.RollingCount | packages/stream-pipeline/stream_pipeline/dashboards/anomaly_rate_projection.py:136-160 | when ids fix times, the count is the number of distinct anomalies in the bucket-rounded hull, at least that of the requested interval, and equal to it on bucket boundaries |
| AnomalyRateProjections.RollingCountInNumbers | packages/stream-pipeline/stream_pipeline/dashboards/anomaly_rate_projection.py:136-160 | the query over the detections alone: the number of distinct ids of anomalies of the signal between the full minutes around the requested interval |
| DatasetWriters.PartitionBufferSet.Absorb | packages/stream-pipeline/stream_pipeline/datasets/writer.py:139-183 | records are conserved per partition and kind; exactly the partitions of this call's emissions are flushed, once each, in first-seen order, each with an emission |
| DatasetWriters.PartitionBufferSet.FlushAll | packages/stream-pipeline/stream_pipeline/datasets/writer.py:157-183 | flushes the whole content of each listed partition and empties it |
| DatasetWriters.PartitionBufferSet.BufferEmissions | packages/stream-pipeline/stream_pipeline/datasets/writer.py:151-155 | buffers each emission under its partition and collects the distinct partitions in first-seen order |
| DatasetWriters.AbsorbConserves | packages/stream-pipeline/stream_pipeline/datasets/writer.py:139-183 | one call keeps: flushed then buffered equals absorbed, in order; what waits arrived since the partition's last emission |
| DatasetWriters.BelongsInNumbers | packages/stream-pipeline/stream_pipeline/datasets/partition.py:69-110 | a partition's records are those of its store whose window start or detection time lies in its hour, in arrival order |
| DatasetWriters.RecordsInPlace | packages/stream-pipeline/stream_pipeline/datasets/writer.py:139-183 | every record that was flushed or is buffered lies in the partition of its own store and hour |
| DatasetWriters.FirstSeenGrows | packages/stream-pipeline/stream_pipeline/datasets/writer.py:151-158 | partitions are flagged in the order in which they are first seen |
| DatasetWriters.FlushesInOrder | packages/stream-pipeline/stream_pipeline/datasets/writer.py:157-183 | the flushes follow the keys, one each, with the buffered content |

## Left out

- Several aggregators on one pipeline: each gets the same classification and watermark and shares no state; the modelled pipeline has one. Router handlers, detector dispatch, alerts and the writer call of `process` are not part of the pipeline model.
- `_bundle_feature_events`: feature vectors are inputs of the dataset writer here.
- `_WindowState` and `_PartitionBuffer` objects are values in their mappings, replaced on update; no code keeps a second reference to them.
- The baseline watermark is "before everything" instead of the least representable datetime; events at that very instant and overflow at the ends of the datetime range are not modelled, nor are naive datetimes.
- Floating point: window arithmetic is on exact integers, sums and means on exact reals, outage ratios on exact reals.
- Exceptions of `combine`, of handlers and of the flush callback, and the state they would leave behind; strict mode.
- Lazy generators: `feed` and `process_packet` are drained at once, as `parse_stream` does.
- Hashed identifiers are their coordinates; JSON texts of stored values are the sets and instants themselves; the anomaly key text is the pair it joins.
- One projection store serves one value type here; the code keeps the three views side by side in one store of strings.
- `PartitionBufferSet` keeps the calls of its callback as a list, which is what `InMemoryDatasetWriter` does; S3, Parquet and DynamoDB back ends are not modelled.
- TCP sequence wrap-around (section 3.4 of RFC 9293), SYN and FIN numbering, two-way flows and reuse of a closed session: the code does not treat them. Several sessions feed one decoder as in the code; `SharedDecoder` says when they stay apart, the other theorems about messages are for one session.
- SIP parsing, extraction and normalisation after framing; Content-Length framing (section 18.3 of RFC 3261), which the code does not do.
- The constructors' checks of their settings (window size and slide, tolerances, thresholds): the model starts from settings that pass them, as `requires` or `nat` parameters.
- `rate_per_minute`, diagnostics, session start and end notices, observers and logging.
- AnomalyRateProjections.RollingCount: requires that an id fixes its time, which `DetectorIdsFixTime` gives for the ids of the anomaly detector; `CountIsDistinctExactly` covers all other ids.
- RealtimePipelines.RealtimePipeline.Process: one aggregator, without the router, the detectors and the writer that the code calls after it.
