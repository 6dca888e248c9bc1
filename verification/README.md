# A verified model of the Loong NVR media and analytics core

The network video recorder takes camera frames through a chain of stages, runs object detection on some of them,
applies analysis rules to the detections, and sends the video out as HLS, FLV, fragmented MP4, RTP and WebSocket
traffic. This project models the parts of that program whose behaviour is plain computation, and proves what they
are for: that a player gets back exactly what was pushed in, that queues and workers neither reorder nor duplicate
frames under any interleaving, that trackers, rules, schedulers and suppression keep their invariants on runs of any
length.

Each module follows one component. Where the source updates fields or buffers in place, the module has a class or a
method with loops that is proved against a function on values; the properties of whole runs are then lemmas about
that function. Readers (a transport stream demuxer, an RTP receiver, a box parser, a tag reader) are written here as
partners of the encoders and follow the named standards: section 2.4.3 of ISO/IEC 13818-1, section 5.8 of RFC 6184,
section 10.12 of RFC 2326, section 5.2 of RFC 6455, section 4.2 of ISO/IEC 14496-12 and section B.1 of ITU-T H.264.

| modules | component |
|---|---|
| `Crc32`, `TsDemux`, `TsMuxer`, `HlsService` | MPEG transport stream packets and HLS segments |
| `AnnexB`, `FlvMuxer`, `Boxes`, `Fmp4Muxer` | start-code scanning, FLV tags, fragmented MP4 |
| `RtpPacketizer`, `WebSocket` | RTP over an interleaved channel, WebSocket frames and the receive loop |
| `StageQueue`, `ChannelPipeline`, `AiStage` | backpressure, stage workers, the asynchronous inference hand-off |
| `Detections`, `IouTracker`, `Rules`, `LineRules`, `Polygon`, `RegionRules`, `RuleEngine` | tracking and analysis rules |
| `AnalysisScheduler`, `Nms` | sharing the GPU budget, non-maximum suppression |
| `Bytes`, `Sequences`, `Options` | shared vocabulary |

## Modelling decisions

- Bytes are integers from 0 to 255, and every cast of the source that cuts a value to 8, 16, 24, 32 or 64 bits is
  written out; other integers are unbounded. Coordinates, confidences and durations are real numbers.
- `std::sort` is any order the comparison allows: results hold for every such order. Hash maps are walked in any order.
- Threads become atomic steps, and all interleavings of them are covered. Everything done under one lock is one step,
  except that waiting on a condition variable is split into looking, falling asleep and being woken.
- Clocks, inference results and incoming chunks are inputs.

## Where code and comments or expectations part

The model follows the code. Each point is a lemma below.

- The tracker's clean-up "to prevent unbounded growth" never removes anything when the missing limit is at least 1,
  because a dead track stays at one past the limit (`IouTracker.CleanUpReach`).
- `Stop` clears the running flag before it shuts the queues, so a worker can leave while a frame is still on its way to
  its queue. With a source that was silenced first, as `Stop` intends with its notification of the stages, all stops
  drain exactly when, as the flag is cleared, no stage but the last holds a frame whose next queue still takes frames.
  With a source that goes on pushing to the public input queue, that queue must not take frames any more either. Both
  are `ChannelPipeline.StopDrainsIff`, for `live` false and true. The guard of `DrainAndStop`, all queues empty, is not
  enough even with a silent source, because a frame may be in a worker's hand (`ChannelPipeline.EmptyQueuesCanStrand`).
- A queue's shutdown flag is never cleared, so a restarted pipeline passes nothing new (`ChannelPipeline.NothingAfterShutdown`).
- Without a start code the RTP scanner sends the last three bytes (`AnnexB.ScannersAgreeIff`, with an input in
  `AnnexB.NoCodeButUnit`). A fragmented unit loses
  its forbidden bit, and units of types 0 and 24 to 31 read as something else than a unit
  (`RtpPacketizer.UnitArrivesIff`, with units in `ForbiddenBitLost` and `AggregationTypeLost`). The marker is missing exactly when the input ends in a start code directly behind
  another, or its first start code is its last three bytes (`RtpPacketizer.MarkerOnLastIff`, with an input in
  `RtpPacketizer.MarkerMissing`).
- A pong of 65536 bytes or more does not read back, its length field having 16 bits (`WebSocket.PongEchoesIff`,
  with a payload in `WebSocket.PongTooLong`).
- A client's 8-byte length that, added to the header, passes 2^64 makes the parser resize beyond memory and throw out of
  the receive loop (`WebSocket.LengthWrapsIff`, with an input in `WebSocket.LargestLengthWraps`).
- An HLS segment that opens with an empty keyframe need not start with a keyframe; it does exactly when the first frame
  with data written to it is one (`HlsService.SegmentIndependentIff`, with a run in `HlsService.EmptyKeyframeRun`).
- The cross-line evaluator's early return loses a crossing when the frame size changes on a frame without detections
  (`LineRules.SizeChangeSeparates`); otherwise it agrees with the counting evaluator (`LineRules.EvaluatorsAgree`).
- The YOLOv5 and YOLOv8 loops differ for negative thresholds (`Nms.VariantsAgreeIff`).
- The engine's cooldown does not hold after an event at a time that is not positive: `RuleEngine.FiresWithin` is a run
  that fires inside it, `RuleEngine.CooldownKeptIff` says for which times every run keeps it.
- A frame submitted for inference is lost if shutdown comes before the worker takes it (`AiStage.PendingFrameIsLost`);
  exactly the frames taken by then are still inferred (`AiStage.InferredAfterShutdownIff`).
- Shutdown stores its flag without the mutex of the condition variable, so its notification is lost on a worker that has
  looked for a frame and is about to fall asleep, and the join does not return (`AiStage.ShutdownCanHang`); that moment is
  the only one (`AiStage.ShutdownEndsIff`). Submissions hold the mutex, so theirs are never lost.

## Model

| member | source | states |
|---|---|---|
| Crc32.Crc32Mpeg2 | src/network/hls_stream/ts_muxer.cc:348-361 | the in-place bit loop computes division by the generator polynomial, byte after byte, from all ones |
| Crc32.ResidueIsZero | src/network/hls_stream/ts_muxer.cc:348-361 | for every section, the CRC over the section followed by its stored CRC is zero |
| TsMuxer.PcrRoundTrip | src/network/hls_stream/ts_muxer.cc:259-271 | the six PCR bytes read back as the clock value modulo 2^33 |
| TsMuxer.PtsRoundTrip | src/network/hls_stream/ts_muxer.cc:197-204 | the five PTS bytes read back as the time stamp modulo 2^33, negative ones included |
| TsMuxer.ClockTicks | src/network/hls_stream/ts_muxer.cc:325 | microseconds become the whole ticks of 100/9 microseconds in them, counted toward zero |
| TsMuxer.ParseAdapted | src/network/hls_stream/ts_muxer.cc:233-283 | a packet with PCR or random access flag, stuffed or exactly full, is located and read back by its adaptation length |
| TsMuxer.ParsePlain | src/network/hls_stream/ts_muxer.cc:285-313 | a packet without them reads back in all three cases: full, one stuffing byte, longer stuffing |
| TsMuxer.PacketsParse | src/network/hls_stream/ts_muxer.cc:211-317 | any payload becomes whole packets on one PID whose payloads concatenate to it, start flag, PCR and random access on the first only, counters stepping by one modulo 16 |
| TsMuxer.PacketsFull | src/network/hls_stream/ts_muxer.cc:211-317 | every packet but the last holds as much payload as its header, flags and PCR leave room for: 184, 182 or 176 bytes |
| TsMuxer.PacketizePayload | src/network/hls_stream/ts_muxer.cc:211-317 | the packet loop appends exactly those packets and leaves the counter advanced by their number |
| TsMuxer.WritePacket | src/network/hls_stream/ts_muxer.cc:218-316 | one round writes one 188-byte packet and takes as much payload as fits |
| TsMuxer.FillAdapted | src/network/hls_stream/ts_muxer.cc:233-283 | in-place writing of header, adaptation field, stuffing and payload |
| TsMuxer.FillPlain | src/network/hls_stream/ts_muxer.cc:285-313 | in-place writing of the packet without flags, with its stuffing cases |
| TsMuxer.PesRoundTrip | src/network/hls_stream/ts_muxer.cc:170-207 | header and frame read back as an access unit with the frame's bytes and its time stamp |
| TsMuxer.DemuxAppendFrame | src/network/hls_stream/ts_muxer.cc:319-344 | appending a written frame to any readable stream with matching counter appends exactly that access unit |
| TsMuxer.PatNamesPmt | src/network/hls_stream/ts_muxer.cc:49-102 | the association table passes its CRC as the only section in force and gives its one program the PID of the program map |
| TsMuxer.PmtNamesVideo | src/network/hls_stream/ts_muxer.cc:106-166 | the program map passes its CRC as the only section in force, has no descriptors and names an H.264 stream, with PCR, on the video PID |
| TsMuxer.TablesLeadToVideo | src/network/hls_stream/ts_muxer.cc:39-166 | following the written tables from PID 0, through the program number both give, leads to the video PID, for all counter values |
| TsMuxer.DemuxTables | src/network/hls_stream/ts_muxer.cc:39-45 | the tables read as a stream without access units and without video packets |
| TsMuxer.Muxer.Reset | src/network/hls_stream/ts_muxer.cc:33-37 | all counters return to zero |
| TsMuxer.Muxer.WritePsiTables | src/network/hls_stream/ts_muxer.cc:39-45 | writes both tables with the current counters and steps those two counters only |
| TsMuxer.Muxer.WriteAccessUnit | src/network/hls_stream/ts_muxer.cc:319-344 | writes the packets of the frame and advances the video counter by their number; nothing for an empty frame |
| TsDemux.DemuxAppendUnit | src/network/hls_stream/ts_muxer.cc:211-344 | reader's law: packets of one unit with continuing counters add one access unit to what a stream reads as |
| HlsService.RunInvariant | src/network/hls_stream/hls_service.cc:40-115 | every run of pushes, configuration changes and stops: all segments ever finalised and the running one, each demuxed on its own, give exactly the non-empty frames since the first keyframe, once, in order, with their time stamps; segment numbers count from 0; without empty keyframes each segment starts with a keyframe |
| HlsService.PushKeepsInvariant | src/network/hls_stream/hls_service.cc:40-89 | one push keeps that, in the waiting, cutting and appending cases |
| HlsService.SegmentsHoldGroups | src/network/hls_stream/hls_service.cc:40-115 | on every run each segment on its own carries exactly the frames written to it, of which the first is a keyframe |
| HlsService.SegmentCarriesNumbered | src/network/hls_stream/hls_service.cc:40-115 | segment number k carries exactly the frames written while k was the running number |
| HlsService.SameSegmentIff | src/network/hls_stream/hls_service.cc:60-88 | on every run of pushes, configuration changes and stops, a written frame is in the same segment as the segment's first frame if and only if no keyframe written since, itself included, came the target duration in milliseconds then configured, times 1000, or more after that first frame, whose time must not be negative for that |
| HlsService.FirstLateOpens | src/network/hls_stream/hls_service.cc:60-74 | the first such keyframe closes the segment and is the first frame of the next |
| HlsService.DurationOfClosed | src/network/hls_stream/hls_service.cc:91-105 | a closed segment stays in the history under its number; its duration is the time between the two first frames, or the target if that is not positive, and never under the target |
| HlsService.SegmentIndependentIff | src/network/hls_stream/hls_service.cc:40-115 | a segment starts with a keyframe if and only if the first frame with data written to it is one |
| HlsService.EmptyKeyframeRun | src/network/hls_stream/hls_service.cc:40-89 | a run of two pushes whose segment has access units and does not start with a keyframe |
| HlsService.WindowServesHistory | src/network/hls_stream/hls_service.cc:149-164 | a segment number is served exactly while it is among the last of the history, with the bytes it was finalised with |
| HlsService.HlsChannel.PushFrame | src/network/hls_stream/hls_service.cc:40-89 | the method makes the channel state of the run model |
| HlsService.HlsChannel.WriteFrame | src/network/hls_stream/hls_service.cc:69-88 | opens a segment with reset counters and tables when none is running, then appends the frame |
| HlsService.HlsChannel.FinalizeSegment | src/network/hls_stream/hls_service.cc:91-115 | closes the running segment with its number and duration and trims the window from the front |
| HlsService.HlsChannel.TrimWindow | src/network/hls_stream/hls_service.cc:108-111 | drops segments from the front down to the configured number and no more |
| HlsService.HlsChannel.GetSegment | src/network/hls_stream/hls_service.cc:149-164 | returns the bytes of a segment with that number, and nothing exactly when the window holds none |
| HlsService.HlsChannel.GeneratePlaylist | src/network/hls_stream/hls_service.cc:117-147 | none exactly for an empty window; entries in order, first number, and the least whole target duration above all entries |
| StageQueue.RunInvariant | src/core/pipeline/stage_queue.cc:11-104 | every run: pushes equal popped plus queued plus dropped plus refused after shutdown; delivered then queued frames are a subsequence of those accepted with every keyframe kept; size is at most the largest limit set |
| StageQueue.Victim | src/core/pipeline/stage_queue.cc:17-41 | the evicted frame is the oldest non-key one of the same channel if there is any, else the first that is not a keyframe, and none exactly when all are keyframes |
| StageQueue.ShutIff | src/core/pipeline/stage_queue.cc:99-104 | on every run the queue is shut down exactly when some operation shut it, and stays so |
| StageQueue.PushOutcome | src/core/pipeline/stage_queue.cc:11-48 | a frame is accepted if and only if the queue is not shut down and has room or holds a frame that is not a keyframe; with room nothing goes; without it exactly one frame is counted as dropped, the one that gives way or the new one |
| StageQueue.StageQueue.EraseOldest | src/core/pipeline/stage_queue.cc:19-38 | the scan erases exactly that frame and counts it, or finds there is none |
| StageQueue.StageQueue.Push | src/core/pipeline/stage_queue.cc:11-48 | the method makes the outcome that PushOutcome describes |
| StageQueue.StageQueue.Pop | src/core/pipeline/stage_queue.cc:50-65 | takes the first frame, none from an empty queue |
| StageQueue.StageQueue.PopBatch | src/core/pipeline/stage_queue.cc:67-83 | takes the first frames up to the limit, in order |
| StageQueue.StageQueue.SetCapacity | src/core/pipeline/stage_queue.cc:95-98 | changes the limit and nothing else; frames over it stay |
| StageQueue.StageQueue.Shutdown | src/core/pipeline/stage_queue.cc:100-104 | sets the flag and keeps the frames |
| ChannelPipeline.StepTotal | src/core/pipeline/channel_pipeline.cc:151-202 | one step of any thread keeps the frames that left, then those inside from end to beginning, a subsequence of what they were plus the frame just pushed |
| ChannelPipeline.RunKeepsOrder | src/core/pipeline/channel_pipeline.cc:151-202 | every interleaving over any number of stages keeps that line a subsequence of source order |
| ChannelPipeline.FramesLeaveInOrder | src/core/pipeline/channel_pipeline.cc:53-202 | from a fresh pipeline, frames leave in source order and never twice |
| ChannelPipeline.FramesConserved | src/core/pipeline/channel_pipeline.cc:53-202 | on every interleaving each frame of the source has left, is inside, was dropped and counted, or was kept by a stage, left in an aborted batch or refused by a queue shut down; with none dropped or lost, those that left and those inside are all of the source's frames in order |
| ChannelPipeline.ShutdownDrains | src/core/pipeline/channel_pipeline.cc:78-110 | after shutdown queues only shrink and each worker step lowers the work left |
| ChannelPipeline.WorkersTerminate | src/core/pipeline/channel_pipeline.cc:151-202 | no run of worker steps after shutdown is longer than the work left |
| ChannelPipeline.WorkersProgress | src/core/pipeline/channel_pipeline.cc:160-199 | a worker that has not left its loop after the stop can always step |
| ChannelPipeline.StrandedIsSettled | src/core/pipeline/channel_pipeline.cc:78-110 | whether a frame is stranded is settled when the last queue is shut and never changes |
| ChannelPipeline.WorkersStayWhileRunning | src/core/pipeline/channel_pipeline.cc:151-202 | while the running flag is set no worker has left its loop |
| ChannelPipeline.RestartedWorkersWait | src/core/pipeline/channel_pipeline.cc:53-76 | on every run, after each restart every worker is in its loop with nothing in hand, waits at its queue even if that is empty, and cannot leave; the frames inside are those from before |
| ChannelPipeline.CanStop | src/core/pipeline/channel_pipeline.cc:78-110 | from every state of the pipeline a stop can be completed |
| ChannelPipeline.StopThenRestart | src/core/pipeline/channel_pipeline.cc:53-110 | every completed stop is part of a run that goes on with a restart, which loses no frame and has every worker back |
| ChannelPipeline.StopDrainsIff | src/core/pipeline/channel_pipeline.cc:78-110 | every completed stop, whatever its interleaving, empties all queues if and only if at the moment the flag is cleared no stage but the last holds a frame, queued or in hand, whose next queue is open and has capacity and, when frames may still be pushed from outside, the first queue is not open with capacity either |
| ChannelPipeline.StrandingStop | src/core/pipeline/channel_pipeline.cc:78-110 | from any state in which that fails, with a silent or a live source, a completed stop that leaves a frame behind |
| ChannelPipeline.EmptyQueuesCanStrand | src/core/pipeline/channel_pipeline.cc:112-132 | a run from a fresh pipeline to a state with all queues empty, from which a stop with a silent source strands a frame, so the guard of DrainAndStop is not enough |
| ChannelPipeline.NothingAfterShutdown | src/core/pipeline/stage_queue.cc:100-104 | once shut, queues stay shut over any further run, restarts included, and no new frame appears inside or at the end |
| AiStage.RunInvariant | src/pipeline_stages/ai_stage/ai_stage.cc:35-160 | every interleaving of the pipeline thread, the worker and shutdown: exactly one of idle, submitting, pending and inferring, tied to the running flag; submitted frames reach the worker once and in order, and a worker asleep while one is pending has its notification coming; frames leave in order of arrival |
| AiStage.StepKeepsValid | src/pipeline_stages/ai_stage/ai_stage.cc:35-160 | each atomic step of either thread keeps that |
| AiStage.SlotFreeAtSubmit | src/pipeline_stages/ai_stage/ai_stage.cc:127-131 | when a frame is stored the slot is empty and the worker idle, so none is overwritten |
| AiStage.AttachedResults | src/pipeline_stages/ai_stage/ai_stage.cc:116-122 | attached results come from strictly earlier submitted frames and never go back |
| AiStage.AttachedIff | src/pipeline_stages/ai_stage/ai_stage.cc:57-122 | on every interleaving a frame leaves with the result of frame f if and only if f was the frame whose inference had found something last when the frame looked for a result |
| AiStage.AttachedOnceFound | src/pipeline_stages/ai_stage/ai_stage.cc:57-122 | once an inference has found something, every frame that looks later leaves with its result or that of a newer frame |
| AiStage.LooksIff | src/pipeline_stages/ai_stage/ai_stage.cc:98-122 | a frame that left had looked for a result if and only if it came in raw while there was an engine |
| AiStage.SubmittedIff | src/pipeline_stages/ai_stage/ai_stage.cc:124-134 | a counted frame is submitted if and only if its number is a multiple of one more than the frames to skip, or none are skipped, and the inference of every frame submitted before has ended |
| AiStage.SubmissionsSpaced | src/pipeline_stages/ai_stage/ai_stage.cc:124-134 | with frames to skip, at least that many analysed frames lie between two submissions |
| AiStage.CanAlwaysFinish | src/pipeline_stages/ai_stage/ai_stage.cc:35-94 | before shutdown a fixed schedule of eight steps brings every reachable state to rest with all submitted frames inferred |
| AiStage.NothingTakenAfterShutdown | src/pipeline_stages/ai_stage/ai_stage.cc:316-327 | once the flag is set the worker takes no further frame, whatever happens |
| AiStage.InferredAfterShutdownIff | src/pipeline_stages/ai_stage/ai_stage.cc:35-94 | in every state reached after the flag is set, a frame can still be inferred if and only if the worker had taken it |
| AiStage.EngineOutlivesWorker | src/pipeline_stages/ai_stage/ai_stage.cc:316-325 | on every interleaving the engine is gone only after the worker was joined or never started |
| AiStage.PassesThroughOnceDown | src/pipeline_stages/ai_stage/ai_stage.cc:103-105 | after that, whatever happens, frames pass without a result and none is submitted |
| AiStage.PendingFrameIsLost | src/pipeline_stages/ai_stage/ai_stage.cc:316-327 | a run of five steps that submits a frame which is then never inferred |
| AiStage.ShutdownEndsIff | src/pipeline_stages/ai_stage/ai_stage.cc:316-327 | with no more frames and no wake-up out of nowhere, the worker can leave after the notification of a shutdown, so that the join returns, if and only if it was not then between looking for a frame and falling asleep |
| AiStage.ShutdownCanHang | src/pipeline_stages/ai_stage/ai_stage.cc:316-323 | for every number of frames to skip, a run in which the join never returns |
| Detections.IouSymmetric | src/rules/evaluators/iou_tracker.cc:129-145 | overlap does not depend on the order of the two boxes |
| Detections.IouIsShareOfCells | src/rules/evaluators/iou_tracker.cc:129-145 | for boxes with whole corners, overlap times the number of unit squares in either box is the number in both |
| Detections.IouIsShare | src/rules/evaluators/iou_tracker.cc:129-145 | for ordered boxes overlap is between 0 and 1, and 1 if and only if the boxes have the same corners and an area |
| Detections.CenterIsMiddle | src/rules/evaluators/iou_tracker.cc:147-150 | the point tracked is as far from one side of the box as from the other |
| Detections.NormalizeInvertsScaling | src/rules/evaluators/iou_tracker.cc:152-156 | a point at given shares of the frame's width and height is normalised to these shares |
| Detections.SideOfLine | src/rules/evaluators/counting_evaluator.cc:110-116 | the sign of the cross product is the side of the line through two different points on which a point lies, given as steps along the line and across it |
| Detections.EveryPointReached | src/rules/evaluators/counting_evaluator.cc:110-116 | every point is reached by such steps |
| IouTracker.MatchingIsStable | src/rules/evaluators/iou_tracker.cc:25-68 | for every sort order the matching is one to one, at or above the threshold, and every qualifying pair left out shares an end with a chosen one of at least its overlap |
| IouTracker.UpdateKeepsInvariant | src/rules/evaluators/iou_tracker.cc:16-105 | an update keeps ids ascending, dead tracks at exactly one past the limit, trajectories ending at the last detection and within their limit |
| IouTracker.RunInvariant | src/rules/evaluators/iou_tracker.cc:16-105 | the same on every run from a fresh tracker; with a limit of at least 1 ids are consecutive and nothing was removed |
| IouTracker.CleanUpReach | src/rules/evaluators/iou_tracker.cc:70-102 | the clean-up spares a track exactly when it is active or the limit is at least 1 |
| IouTracker.DetectionsOwnTracks | src/rules/evaluators/iou_tracker.cc:50-93 | after an update detections and freshly seen active tracks correspond one to one, each track ending at its detection |
| IouTracker.TracksTellTheirPast | src/rules/evaluators/iou_tracker.cc:16-105 | on every run each field of a track is what the list of its frames says: last detection, number of detections, the middles of the newest ones up to the limit, frames without a detection, and active exactly while these do not pass the limit |
| IouTracker.BuildPairs | src/rules/evaluators/iou_tracker.cc:36-44 | the double loop collects exactly the qualifying pairs, none twice |
| IouTracker.SortedPairs | src/rules/evaluators/iou_tracker.cc:25-48 | the pairs in descending overlap, each qualifying pair once |
| IouTracker.IouTracker.Update | src/rules/evaluators/iou_tracker.cc:16-105 | the in-place update equals the functional one for some valid sort order |
| IouTracker.IouTracker.MatchGreedily | src/rules/evaluators/iou_tracker.cc:50-67 | one pass over the sorted pairs with two flag arrays makes the greedy matching and moves the matched tracks |
| IouTracker.IouTracker.AgeUnmatched | src/rules/evaluators/iou_tracker.cc:70-79 | exactly the unmatched active tracks age, and die past the limit |
| IouTracker.IouTracker.CreateTracks | src/rules/evaluators/iou_tracker.cc:81-93 | one new track per unmatched detection, with consecutive ids |
| IouTracker.IouTracker.RemoveDead | src/rules/evaluators/iou_tracker.cc:95-102 | keeps exactly the tracks the clean-up spares, in order |
| IouTracker.IouTracker.GetTrack | src/rules/evaluators/iou_tracker.cc:111-116 | finds a track with the id, none exactly when there is none |
| Rules.FilterDetections | src/rules/evaluators/counting_evaluator.cc:120-135 | keeps, in order, the detections of sufficient confidence and wanted class |
| Rules.EraseStale | src/rules/evaluators/counting_evaluator.cc:92-98 | erases exactly the entries whose track is gone |
| LineRules.EvaluatorsAgree | src/rules/evaluators/cross_line_evaluator.cc:31-117 | on every run with one line, and with frames that change size only when a detection passes the filter, the cross-line evaluator holds the same tracks and sides as the counting one and reports the same crossings in order (A to B only for one-way lines), despite its early return |
| LineRules.ReportsAreCounted | src/rules/evaluators/cross_line_evaluator.cc:70-90 | on such a run the number of cross-line reports is the A-to-B count of the counting evaluator for a one-way line and the sum of both counts for a two-way line |
| LineRules.SideObserved | src/rules/evaluators/counting_evaluator.cc:42-50 | a track is seen on the side of the line on which the middle of its last detection lies, in shares of the frame, once it is active with two points and not on the line |
| LineRules.SizeChangeSeparates | src/rules/evaluators/cross_line_evaluator.cc:35-40 | a run of three frames, the last without detections and of another size, on which the counting evaluator counts a crossing that cross-line does not report |
| LineRules.EmptyScan | src/rules/evaluators/cross_line_evaluator.cc:35-40 | on a frame without detections the skipped pass would have changed nothing |
| LineRules.CountingLaws | src/rules/evaluators/counting_evaluator.cc:42-98 | on every run, with frames of any size, net count times two is the sum over tracks of first side minus last side, each track's crossings alternate, and each event carries the net count at that event |
| LineRules.CountingEvaluator.Evaluate | src/rules/evaluators/counting_evaluator.cc:32-101 | the method makes the state and events of the run model |
| LineRules.CountingEvaluator.Visit | src/rules/evaluators/counting_evaluator.cc:48-89 | one track: side recorded, a change of side counted once in its direction |
| LineRules.CountingEvaluator.ScanTracks | src/rules/evaluators/counting_evaluator.cc:42-90 | the pass counts each crossing found and stamps it with the net count |
| LineRules.CrossLineEvaluator.Evaluate | src/rules/evaluators/cross_line_evaluator.cc:31-117 | likewise, with early return and direction filter |
| Polygon.PointInPolygon | src/rules/evaluators/region_intrusion_evaluator.cc:112-135 | the flag-flipping loop computes the parity of edges met; false below three vertices |
| Polygon.MeetsSymmetric | src/rules/evaluators/region_intrusion_evaluator.cc:127-131 | an edge is met or not whichever of its ends comes first |
| Polygon.InsideReversed | src/rules/evaluators/region_intrusion_evaluator.cc:112-135 | reversing the vertices changes nothing |
| Polygon.InsideRotated | src/rules/evaluators/region_intrusion_evaluator.cc:112-135 | starting from any other vertex changes nothing |
| Polygon.InsideIsFan | src/rules/evaluators/region_intrusion_evaluator.cc:112-135 | the test is the exclusive-or of itself over the fan triangles from vertex 0, for every polygon |
| Polygon.InsideTriangleIff | src/rules/evaluators/region_intrusion_evaluator.cc:112-135 | a point on no edge of a triangle is found inside if and only if it is to the same side of its three edges, walking round; flat triangles included |
| RegionRules.EventsExactlyWhenDue | src/rules/evaluators/loitering_evaluator.cc:36-122 | on every run, with times in any order, the per-track state is what the history of sightings says, and an event is raised exactly where that history makes one due |
| RegionRules.LookRemembers | src/rules/evaluators/loitering_evaluator.cc:58-109 | one look at one track keeps state and history in step |
| RegionRules.EveryActiveTrackPlaced | src/rules/evaluators/loitering_evaluator.cc:48-60 | on every frame both region evaluators look at each active track once, and it is inside exactly if the middle of its last detection, in shares of the frame, is in the polygon |
| RegionRules.LoiteringEvent | src/rules/evaluators/loitering_evaluator.cc:60-101 | an event's track was outside, entered, was inside at every sighting since, for at least the threshold and for the dwell time reported |
| RegionRules.EventsOfStayApart | src/rules/evaluators/loitering_evaluator.cc:72-96 | two events of one stay are at least the cooldown apart, and without a cooldown there are no two |
| RegionRules.LoitererIsReported | src/rules/evaluators/loitering_evaluator.cc:68-100 | a track inside for the threshold has been reported in that stay |
| RegionRules.IntrusionExactlyOnEntry | src/rules/evaluators/region_intrusion_evaluator.cc:38-105 | on every run an intrusion is raised exactly where a track is inside and was outside, or unseen, before |
| RegionRules.IntrusionIsLoitering | src/rules/evaluators/region_intrusion_evaluator.cc:38-105 | without threshold and cooldown the loitering evaluator raises the same events on every run |
| RegionRules.LoiteringEvaluator.Visit | src/rules/evaluators/loitering_evaluator.cc:58-109 | the in-place update of one track's state and its event |
| RegionRules.LoiteringEvaluator.Evaluate | src/rules/evaluators/loitering_evaluator.cc:36-122 | the method makes the state and events of the run model; nothing below three vertices |
| RegionRules.RegionIntrusionEvaluator.Visit | src/rules/evaluators/region_intrusion_evaluator.cc:55-92 | one track: an event on entry, its place recorded |
| RegionRules.RegionIntrusionEvaluator.Evaluate | src/rules/evaluators/region_intrusion_evaluator.cc:38-105 | likewise for intrusion |
| RuleEngine.EventsCarryFrameTime | src/rules/rule_engine/rule_engine.cc:134-136 | whichever of the four evaluators raised it, an event has the time of its frame, so that is what the engine remembers |
| RuleEngine.RunInvariant | src/rules/rule_engine/rule_engine.cc:125-148 | on every run consecutive firings of a rule are its cooldown apart unless the earlier one had no positive time |
| RuleEngine.FiresCooldownApart | src/rules/rule_engine/rule_engine.cc:125-148 | with positive times any two frames on which a rule fires are at least its cooldown apart |
| RuleEngine.CooldownKeptIff | src/rules/rule_engine/rule_engine.cc:125-148 | all rules with a given cooldown keep it between consecutive firings, on all runs of frames with times from a given least one on, if and only if that is positive or not below the cooldown |
| RuleEngine.FiresWithin | src/rules/rule_engine/rule_engine.cc:128-132 | for every cooldown, a run of an intrusion rule that fires on both of its frames, the first at any time that is not positive |
| RuleEngine.NewcomerRaises | src/rules/evaluators/region_intrusion_evaluator.cc:55-71 | a detection inside the region that overlaps no track raises an intrusion |
| RuleEngine.SeenIsSubsequence | src/rules/rule_engine/rule_engine.cc:128-134 | an evaluator is given a subsequence of the frames |
| RuleEngine.SeenIff | src/rules/rule_engine/rule_engine.cc:126-134 | on every run an evaluator is given a frame if and only if the rule's last firing had no positive time or lies at least the cooldown back |
| RuleEngine.EvaluatorUnderEngine | src/rules/rule_engine/rule_engine.cc:125-148 | a rule of any of the four kinds has under the engine the state and the events of its evaluator alone, run on the frames not skipped |
| RuleEngine.LoiteringUnderEngine | src/rules/rule_engine/rule_engine.cc:125-148 | under the engine a loitering evaluator behaves as on its own over the frames not skipped, and each of its events counts as a firing |
| RuleEngine.SlotsIndependent | src/rules/rule_engine/rule_engine.cc:125-148 | each rule's new state is what it makes of the frame alone, and the events are those of the rules one after another |
| RuleEngine.RuleEngine.EvaluateOne | src/rules/rule_engine/rule_engine.cc:126-147 | skips a cooling rule, else evaluates and remembers the last event's time |
| RuleEngine.RuleEngine.Evaluate | src/rules/rule_engine/rule_engine.cc:116-151 | all rules of the channel in order, events concatenated, other channels untouched, none for an unknown channel |
| AnnexB.ParseAnnexB | src/network/flv_stream/flv_muxer.cc:65-119 | the index loop returns the non-empty pieces between start codes of three or four bytes |
| AnnexB.FindNalUnits | src/network/rtsp_server/rtp_packetizer.cc:105-155 | the other scanner returns its pieces, empty ones included |
| AnnexB.ScanInvertsEncode | src/network/media_stream/fmp4_muxer.cc:81-128 | scanning any list of units without inner start codes and trailing zeros, with any mix of start codes, gives back the list |
| AnnexB.ScannersAgreeIff | src/network/rtsp_server/rtp_packetizer.cc:105-155 | the scanners agree on non-empty units if and only if the input is empty or holds a start code |
| AnnexB.NoCodeButUnit | src/network/rtsp_server/rtp_packetizer.cc:110-152 | three bytes that only the RTP scanner takes for a unit |
| AnnexB.LastUnitEmptyIff | src/network/rtsp_server/rtp_packetizer.cc:105-155 | the bytes on which the scanner ends with an empty unit |
| FlvMuxer.ToLengthPrefixed | src/network/media_stream/fmp4_muxer.cc:179-199 | the loop writes the units that are not parameter sets, each behind its length |
| FlvMuxer.SplitInvertsPrefixed | src/network/flv_stream/flv_muxer.cc:143-160 | splitting length-prefixed units gives them back |
| FlvMuxer.ParameterSetBytes | src/network/media_stream/fmp4_muxer.cc:77-79 | the first bytes by which a unit is kept out of the samples, for both codecs and any bits around the type |
| FlvMuxer.AvccCarriesSamples | src/network/flv_stream/flv_muxer.cc:143-160 | from any access unit under 4 GiB a player gets exactly the units that are not parameter sets |
| FlvMuxer.TagRoundTripIff | src/network/flv_stream/flv_muxer.cc:162-191 | a tag reads back, time stamp modulo 2^32, if and only if its data fits 24 bits |
| FlvMuxer.MakeVideoTag | src/network/flv_stream/flv_muxer.cc:235-261 | nothing for an access unit without samples, else a video tag around them |
| FlvMuxer.VideoTagCarriesSamples | src/network/flv_stream/flv_muxer.cc:235-261 | no tag exactly when all units are parameter sets; otherwise, if its body fits 24 bits, the tag reads back as H.264 video with the keyframe flag and time stamp given, and a player gets all other units from it |
| Boxes.BoxRoundTripIff | src/network/media_stream/fmp4_muxer.cc:45-54 | a box tree reads back from its bytes if and only if its size fits 32 bits |
| Boxes.ParseAll | src/network/media_stream/fmp4_muxer.cc:45-71 | a recursive reader consumes any list of boxes exactly and returns their trees |
| Fmp4Muxer.MoovWrites | src/network/media_stream/fmp4_muxer.cc:223-449 | the builders' nested concatenation is the serialisation of one tree, whatever the sample description |
| Fmp4Muxer.InitParses | src/network/media_stream/fmp4_muxer.cc:205-449 | an initialisation segment for either codec reads back as its tree |
| Fmp4Muxer.HeadersRead | src/network/media_stream/fmp4_muxer.cc:223-432 | movie and media headers give one 90 kHz time scale, the handler is for video, and the track declared is the one extended by `trex` and named by every fragment |
| Fmp4Muxer.FrameSizeReads | src/network/media_stream/fmp4_muxer.cc:256-290 | track header and sample entry both give back the frame size at their standard offsets |
| Fmp4Muxer.AvcRecordReadsIff | src/network/media_stream/fmp4_muxer.cc:455-476 | the H.264 record gives back SPS and PPS if and only if both fit 16-bit lengths |
| Fmp4Muxer.HevcRecordReadsIff | src/network/media_stream/fmp4_muxer.cc:527-627 | the H.265 record gives back VPS, SPS and PPS if and only if all fit |
| Fmp4Muxer.H264InitSegment | src/network/media_stream/fmp4_muxer.cc:679-693 | empty for unusable parameter sets, else a player finds the sample entry at its place in the tree and recovers both sets and, from track header and sample entry, the frame size |
| Fmp4Muxer.H265InitSegment | src/network/media_stream/fmp4_muxer.cc:695-709 | likewise for H.265 |
| Fmp4Muxer.Patch | src/network/media_stream/fmp4_muxer.cc:794-799 | four bytes are overwritten in place, all others keep their value |
| Fmp4Muxer.MakeMoof | src/network/media_stream/fmp4_muxer.cc:715-802 | the fix-up changes only the data offset, to the header's size plus eight |
| Fmp4Muxer.MakeMediaSegment | src/network/media_stream/fmp4_muxer.cc:804-831 | empty without samples, else fragment header and mdat |
| Fmp4Muxer.FragmentReads | src/network/media_stream/fmp4_muxer.cc:715-773 | sequence number, decode time, offset, duration, size and keyframe flag all read back |
| Fmp4Muxer.MediaSegmentParsesIff | src/network/media_stream/fmp4_muxer.cc:804-831 | a media segment reads back as its two boxes if and only if the mdat fits 32 bits |
| Fmp4Muxer.SampleIsMdatPayload | src/network/media_stream/fmp4_muxer.cc:775-799 | the data offset points at the first payload byte of the mdat and the sample size is its length |
| Fmp4Muxer.MediaSegmentCarriesSamples | src/network/media_stream/fmp4_muxer.cc:804-831 | from access unit through media segment to player only parameter sets are lost |
| RtpPacketizer.UnitArrivesIff | src/network/rtsp_server/rtp_packetizer.cc:26-68 | a unit arrives as sent if and only if its type is from 1 to 23 and, when it must be fragmented, its forbidden bit is 0 |
| RtpPacketizer.AggregationTypeLost | src/network/rtsp_server/rtp_packetizer.cc:31-33 | a unit of four bytes and type 24 that the receiver cannot take for a unit |
| RtpPacketizer.ForbiddenBitLost | src/network/rtsp_server/rtp_packetizer.cc:34-67 | a unit of 1401 bytes that arrives with its forbidden bit cleared |
| RtpPacketizer.PayloadSizes | src/network/rtsp_server/rtp_packetizer.cc:26-68 | no payload exceeds 1400 bytes and no fragment has both start and end bit |
| RtpPacketizer.UnitsArriveIff | src/network/rtsp_server/rtp_packetizer.cc:11-68 | a receiver gets exactly the non-empty units of an access unit, in order, if and only if each of them can be carried |
| RtpPacketizer.MarkerOnLastIff | src/network/rtsp_server/rtp_packetizer.cc:11-24 | no packet but the last is marked, and the last is unmarked exactly when the input bytes end in a start code directly behind another or have their first start code as last three bytes |
| RtpPacketizer.MarkerMissing | src/network/rtsp_server/rtp_packetizer.cc:11-24 | an input of ten bytes whose only packet is not marked |
| RtpPacketizer.FrameRoundTrip | src/network/rtsp_server/rtp_packetizer.cc:70-103 | interleaved framing and RTP header read back |
| RtpPacketizer.StreamRoundTrip | src/network/rtsp_server/rtp_packetizer.cc:70-103 | frames written one after another to a connection are cut apart by their lengths into the same packets |
| RtpPacketizer.TimestampTicks | src/network/rtsp_server/rtp_packetizer.cc:17 | the time stamp is the whole 90 kHz ticks in the microseconds given, counted toward zero, modulo 2^32 |
| RtpPacketizer.PacketizeDelivers | src/network/rtsp_server/rtp_packetizer.cc:11-103 | one call end to end: the frames on the connection read as packets with consecutive sequence numbers modulo 2^16 and one time stamp, and the receiver gets the units if and only if each can be carried |
| RtpPacketizer.RtpPacketizer.Packetize | src/network/rtsp_server/rtp_packetizer.cc:11-24 | emits exactly those frames and advances the sequence number by their count across calls |
| RtpPacketizer.RtpPacketizer.PacketizeH264Nal | src/network/rtsp_server/rtp_packetizer.cc:26-68 | single packet or fragments of one unit, marker on the last |
| RtpPacketizer.RtpPacketizer.PacketizeFuA | src/network/rtsp_server/rtp_packetizer.cc:34-67 | the fragment loop |
| RtpPacketizer.RtpPacketizer.EmitPacket | src/network/rtsp_server/rtp_packetizer.cc:70-103 | one framed packet, sequence number stepped modulo 2^16 |
| WebSocket.ParseFrame | src/network/websocket/websocket_frame.cc:108-154 | the reader with its length and unmasking loops: not enough data, a wrapping length, or a frame and its size |
| WebSocket.ParseInvertsEncode | src/network/websocket/websocket_frame.cc:108-154 | every frame, masked or not and in any length form that holds it, reads back whatever follows |
| WebSocket.ParseExtends | src/network/websocket/websocket_frame.cc:108-154 | an answer is the same on every extension of the input |
| WebSocket.PrefixNeedsMore | src/network/websocket/websocket_frame.cc:108-154 | every proper prefix of a frame asks for more |
| WebSocket.LengthWrapsIff | src/network/websocket/websocket_frame.cc:125-144 | the parser throws if and only if the header is complete and its 8-byte length passes 2^64 when the size of the header is added |
| WebSocket.LargestLengthWraps | src/network/websocket/websocket_frame.cc:125-144 | ten bytes on which it does |
| WebSocket.TextFrameParses | src/network/websocket/websocket_frame.cc:57-80 | a text frame of any length reads back as that text |
| WebSocket.PongEchoesIff | src/network/websocket/websocket_frame.cc:82-97 | a pong reads back if and only if its payload is under 65536 bytes |
| WebSocket.PongTooLong | src/network/websocket/websocket_frame.cc:82-97 | a pong of 65536 bytes that reads as one without payload |
| WebSocket.CloseFrameParses | src/network/websocket/websocket_frame.cc:99-106 | a close frame reads back with its code |
| WebSocket.DrainAppend | src/network/websocket/websocket_server.cc:205-215 | draining the buffer before more data arrives loses and changes nothing |
| WebSocket.HandleClient | src/network/websocket/websocket_server.cc:188-251 | the receive loop hands over exactly the frames of the chunks read, and stops reading after the first chunk that completes a close or on which parsing throws, and not before |
| WebSocket.DrainOfWire | src/network/websocket/websocket_server.cc:208-215 | a concatenation of frames drains to those frames and an empty buffer |
| WebSocket.FramesSurviveChunking | src/network/websocket/websocket_server.cc:205-215 | for every chunking of every concatenation the loop hands over the frames in order, all of them unless one it handed over is a close, and never throws |
| AnalysisScheduler.RebalancingIsDeterministic | src/ai_engine/scheduler/analysis_scheduler.cc:264-387 | the result depends on the task map only, not on the order in which it is walked |
| AnalysisScheduler.OverBudget | src/ai_engine/scheduler/analysis_scheduler.cc:291-339 | throttled positive-cost tasks are a suffix of priority order, each target of at least 1 gets from 1 to its target, disabled tasks stay, and the cost granted is at most the budget plus one inference per throttled task |
| AnalysisScheduler.WithinBudget | src/ai_engine/scheduler/analysis_scheduler.cc:264-354 | within budget nobody is throttled and enabled tasks get what the greedy branch would give |
| AnalysisScheduler.AllocationIsFair | src/ai_engine/scheduler/analysis_scheduler.cc:297-339 | the greedy pass keeps those bounds after every task |
| AnalysisScheduler.BranchesAgree | src/ai_engine/scheduler/analysis_scheduler.cc:264-354 | if the estimate fits, the greedy pass throttles nobody and leaves exactly the rest of the budget |
| AnalysisScheduler.GrantBounds | src/ai_engine/scheduler/analysis_scheduler.cc:303-338 | one grant is between 1 and the target, throttled exactly when the rest does not cover it, and costs at most what remains plus one inference |
| AnalysisScheduler.GrantIsLargest | src/ai_engine/scheduler/analysis_scheduler.cc:315-331 | a throttled task gets the largest rate that the rest of the budget covers, and at least 1 |
| AnalysisScheduler.AverageIsMean | src/ai_engine/scheduler/analysis_scheduler.cc:303-306 | the time per inference is the mean of those reported, rounded down, and 10000 without any |
| AnalysisScheduler.RebalancedPaced | src/ai_engine/scheduler/analysis_scheduler.cc:281-354 | after a rebalancing each enabled task has the longest interval, in whole microseconds, that gives its rate, and utilisation times budget is the estimate |
| AnalysisScheduler.OrderByStrategy | src/ai_engine/scheduler/analysis_scheduler.cc:356-387 | in the order realtime tasks come before polling and these before on-demand ones, equals by channel number |
| AnalysisScheduler.ComputeSchedulingOrder | src/ai_engine/scheduler/analysis_scheduler.cc:356-387 | the enabled tasks, by priority and then channel number |
| AnalysisScheduler.AnalysisScheduler.RebalanceBudget | src/ai_engine/scheduler/analysis_scheduler.cc:264-354 | the method makes the functional result for some walk and the order |
| AnalysisScheduler.AnalysisScheduler.GrantInOrder | src/ai_engine/scheduler/analysis_scheduler.cc:294-339 | the in-place loop over the order |
| AnalysisScheduler.AnalysisScheduler.RemoveThrottling | src/ai_engine/scheduler/analysis_scheduler.cc:340-350 | the in-place loop that lifts throttling |
| Nms.MarkSuppressed | src/ai_engine/yolo_adapter/yolov5_adapter.cc:139-167 | the double loop marks exactly the boxes some earlier surviving box suppresses |
| Nms.ApplyNms | src/ai_engine/yolo_adapter/yolov8_adapter.cc:122-162 | sorts by confidence, then keeps exactly the survivors in that order |
| Nms.NmsGuarantees | src/ai_engine/yolo_adapter/yolov8_adapter.cc:122-162 | for every sorted order and threshold the survivors are a descending sub-multiset, no two suppress each other, and every box of which a copy was dropped is suppressed by a survivor of at least its confidence |
| Nms.SuppressesIsOverlap | src/ai_engine/face/face_detector_adapter.cc:138-149 | for thresholds from 0 suppression is overlap above the threshold, within the class except for faces |
| Nms.SecondRunDropsNothing | src/ai_engine/face/face_detector_adapter.cc:151-173 | a second run, however it sorts, keeps everything |
| Nms.TestsAgreeIff | src/ai_engine/yolo_adapter/yolov5_adapter.cc:162-165 | the two YOLO tests differ exactly for boxes of one class without positive union under a negative threshold |
| Nms.VariantsAgreeIff | src/ai_engine/yolo_adapter/yolov5_adapter.cc:127-177 | the v5 and v8 loops keep the same boxes of every sorted list if and only if the threshold is not negative |

## Left out

- Sockets, accept loops, HTTP and RTSP text handling, WebRTC, the WebSocket handshake with SHA-1: input and output plumbing.
- Replies, topic subscriptions and JSON in the WebSocket receive loop: the frames handed over are modelled, what is done with them is not.
- SQLite stores, event publishing and logging; event fields that only copy rule names and numbers.
- FFmpeg codecs, inference backends, OpenCV, FreeType, plug-in loading: foreign libraries; inference is an input.
- Floating-point rounding, and overflow of signed 64-bit products such as the time stamp times 90.
- Parameter set extraction and the FLV sequence header: they would only add easy members.
- The task list operations, ShouldAnalyze and ReportInference of the scheduler: sequential bookkeeping around the clock.
- The batch path and the cascade path of the AI stage: the stage declares no batch support, and the cascade is synchronous.
- An engine removed from the AI stage while it runs: only the removal at the end of shutdown is modelled.
- ChannelManager, ChannelMonitor, buffer pools, thread pool, event bus, configuration reload, rate limits and login counters.
- Reloading rules: runs of the rule engine are those between two reloads.
- Several HLS channels: a channel is modelled on its own, registration and removal are not.
- RuleEngine.RuleEngine.Evaluate: rule evaluators are values in the engine's table, so objects shared between table entries are not captured.
- Nms.ApplyNms: face landmarks travel with their box and are not modelled.
