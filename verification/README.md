# AirPlay 2 receiver: a verified model

This project models the parts of the ESP32 AirPlay 2 firmware whose correctness is hardest to see from
the code, and proves them for every input and every run:

- the **jitter buffer and playout scheduler**: a slot pool with an index sorted by wrapping RTP
  timestamps (`AudioBuffer`, `ArrivalOrder`), the early/late/post-flush/deferred-flush state machine
  (`AudioTiming`), the receiver with its seek gates (`AudioReceiver`), and theorems over runs of their
  calls (`PlayoutRuns`, `InOrderPlayout`, `PlayoutAfterSeek`, `OnTimePlayout`, `FrameFates`, `ReadStretches`,
  `Conservation`, `SilenceBudget`, `FlushPoints`, `LostSlots`, `BufferOverflow`, `SeekGates`,
  `FreshStart`);
- the **sinc resampler**: the sliding buffer refines sampling of an unbounded signal (`Resampler`,
  `ResampleContext`, `ResampleRuns`) and so convolves it with the filters' kernel (`ResampleResponse`);
  filter construction (`FilterInit`) and the exact filter count (`FixedRatio`, `FilterCount`);
- the **clocks**: the NTP client's error bound (`NtpClock`) and the PTP median and lock (`Median`, `PtpClock`);
- **pairing and transport**: the SRP-6a server (`ModularPower`, `BigEndian`, `SrpGroup`, `Srp`,
  `SrpSession`) against a client of the RFCs (`SrpClient`), encrypted RTSP blocks (`RtspFrames`,
  `RtspCrypto`), TLV8 (`Tlv8`), Base64 (`Base64`) and the S/PDIF encoder (`SpdifCode`, `Spdif`).
  `MachineIntegers`, `Rtp` and `Wrappers` are shared.

Code that updates state in place is a class whose methods are proved equal to a function of the old
state; the theorems over runs are about those functions. Each public call is one atomic step with the
clock as an argument. A frame carries its unbounded position on the sender's timeline (`at`); the code
only ever looks at its low 32 bits.

What the proofs found, each with the exact condition under which the code does what was expected:

- The seek check uses `abs` on a 32-bit difference. When the oldest frame is exactly 2^31 away the
  check does not fire (`SeekGates.HalfRangeSeekIsMissed`; the condition is in `OldestIsNearAnchor`).
- Stale frames from both sides of the window can get past the two gates, because a frame from above
  disarms the lower gate (`MixedSidesLeak`; the condition is in `StaleFeedRejected`).
- An early frame that does not fit the pending copy keeps its slot for good. Exactly when the pending
  copy is smaller than a frame, as when its allocation failed, runs from initialisation can lose slots,
  and all of them, and a dead pool stays dead through flushes (`LostSlots.SlotsCanBeLostExactly`). With
  the size that initialisation asks for it does not happen (`Conservation.NoSlotIsLost`).
- The playback task's output buffer is sized for 44.1 kHz sources; a slower source loses input
  (`SlowSourceLosesInput`; the condition is in `InputIsConsumed`).
- A client key sent in more than 384 bytes keeps its first 384, so a superfluous leading zero changes
  its value (`Srp.ReceivedKeepsValue`).
- M1 is computed over the salt without leading zero bytes, so a client that hashes the salt as it was sent is
  refused when it begins with one (`StandardClientIsAccepted`, with the exact condition).
- The clock error of an NTP exchange can exceed its dispersion by two nanoseconds, not one, because the
  remote's stamps are truncated on reading as well (`SecondNanosecondIsNeeded`; the condition is in
  `ExchangeIsAccurate`).
- A PTP lock never lapses when the last update came at a multiple of 2^32 ms, where the stored time is
  the zero that stands for none (`LockOutlivesUpdates`; the condition is in `PtpClock.Clock.IsLocked`).
- A PTP master that steps by more than 50 ms is never followed, and as refused samples put off the lapse of the
  lock too, the clock goes on saying it is locked (`PtpClock.Clock.UpdateOutliers`).
- A block that could not be sent leaves its nonce to the next one (`TwoBoxesOneNonce`; exactly when, in
  `NonceSharedExactly`).
- Base64 decoding refuses a capacity of zero even for the empty text (`RoundTrip`, `EmptyNeedsRoom`).
- The header comment of the S/PDIF framing calls 192 a number of sub-frames; the code sends 192 frames,
  384 sub-frames, to a block, as the standard asks (`PreamblesFollow`). Its low sample bit gives way to
  the parity bit (`WordIsSampleWithParity`).

## Model

| member | source | states |
|---|---|---|
| Rtp.TsCmpIsDistance | main/audio/audio_buffer.c:23-25 | comparing two 32-bit timestamps by signed difference gives the true distance on the sender's timeline exactly when that distance is in [-2^31, 2^31) |
| AudioBuffer.AudioBuffer.constructor | main/audio/audio_buffer.c:111-175 | a fresh pool: every slot free, no tokens, nothing queued |
| AudioBuffer.AudioBuffer.SortedInsertPos | main/audio/audio_buffer.c:29-40 | the search loop returns what binary search over the queued frames returns, on wrapped timestamps, sorted or not |
| AudioBuffer.AudioBuffer.QueueOne | main/audio/audio_buffer.c:44-107 | empty frames are refused; at capacity the oldest frame makes room; the frame goes in at its place; slots stay partitioned into queued, free and taken, and tokens equal the count |
| AudioBuffer.AudioBuffer.QueueDecodedPacket | main/audio/audio_buffer.c:349-380 | a packet goes in as 352-sample chunks with advancing timestamps, up to the first refusal |
| AudioBuffer.AudioBuffer.Take | main/audio/audio_buffer.c:260-300 | the oldest frame and its slot are handed out; nothing when empty |
| AudioBuffer.AudioBuffer.Return | main/audio/audio_buffer.c:302-315 | a taken slot becomes free again; queued frames and the other slots are untouched |
| AudioBuffer.AudioBuffer.Flush | main/audio/audio_buffer.c:208-228 | every queued slot is free again and every token consumed; slots already taken stay out |
| AudioBuffer.AudioBuffer.OldestTimestamp | main/audio/audio_buffer.c:331-347 | the timestamp of the front frame, if there is one |
| AudioBuffer.PartitionCounts | main/audio/audio_buffer.c:52-101 | slot conservation: queued, free and taken slots are counted exactly once each, so they add up to the capacity |
| ArrivalOrder.SearchFindsBoundary | main/audio/audio_buffer.c:29-40 | on a timeline of one half-range the binary search finds the boundary between earlier and later frames |
| ArrivalOrder.InsertKeepsOrder | main/audio/audio_buffer.c:88-97 | inserting a new frame keeps timeline order and adds just that frame |
| ArrivalOrder.InsertFindsPlace | main/audio/audio_buffer.c:29-40 | with repeated timestamps too, a frame goes behind all earlier ones and before any at its own place |
| ArrivalOrder.ArrivalOrderDoesNotMatter | main/audio/audio_buffer.c:44-107 | any permutation of non-overlapping packets within one half-range that fits the capacity leaves exactly their chunks in timeline order, across the 32-bit wrap |
| ArrivalOrder.PiecesKeepPcm | main/audio/audio_buffer.c:349-380 | the chunks of a timeline concatenate back to the packets' PCM |
| ArrivalOrder.ChunksAreCut | main/audio/audio_buffer.c:361-377 | chunk i holds samples 352 i onwards and carries the timestamp advanced by 352 i |
| ArrivalOrder.PiecesAreCut | main/audio/audio_buffer.c:349-380 | chunk i of a packet, whole: place, channels, two when the packet names none, and samples |
| BufferOverflow.OverflowKeepsNewest | main/audio/audio_buffer.c:54-71 | packets in order beyond what the pool can hold leave exactly the newest frames it can hold, in order |
| AudioTiming.AudioTiming.ComputeEarlyUs | main/audio/audio_timing.c:91-129 | the due time from whichever anchor and clock apply, less the hardware latency, with truncating divisions and 32-bit timestamp difference |
| AudioTiming.AudioTiming.JudgePostFlush | main/audio/audio_timing.c:385-443 | after a flush: play early or late, throw everything away beyond ten seconds early, leave the mode within 40 ms or after half a second |
| AudioTiming.AudioTiming.JudgeTiming | main/audio/audio_timing.c:444-534 | hold, drop, throw away or play by due time and by the counts of early and late frames in a row |
| AudioTiming.AudioTiming.Park | main/audio/audio_timing.c:471-480 | an early frame from the buffer moves to the pending copy when it fits and its slot goes back; otherwise the slot stays out |
| AudioTiming.AudioTiming.TryOnce | main/audio/audio_timing.c:279-557 | one turn of the loop computes exactly the specified next state, verdict and samples |
| AudioTiming.AudioTiming.ReadFrame | main/audio/audio_timing.c:237-560 | a whole read, start-up gate and eight attempts included, computes exactly the specified next state, event and samples |
| AudioTiming.AudioTiming.ResetAll | main/audio/audio_timing.c:148-164 | all playback and sync state is forgotten |
| AudioTiming.AudioTiming.SetAnchor | main/audio/audio_timing.c:198-218 | both anchors are set, the counters cleared, nothing else |
| AudioTiming.AudioTiming.SetPlayingFlag | main/audio/audio_timing.c:220-235 | a pause forgets the pending copy |
| AudioReceiver.AudioReceiver.SetAnchor | main/audio/audio_receiver.c:177-249 | the seek check, the gates and the new anchor, as one step on the receiver |
| AudioReceiver.AudioReceiver.DetectSeek | main/audio/audio_receiver.c:203-231 | a buffer whose oldest frame is over five seconds from the new anchor is thrown away and both gates armed |
| AudioReceiver.AudioReceiver.FlushAll | main/audio/audio_receiver.c:440-452 | buffer, timing and gates are all cleared |
| AudioReceiver.AudioReceiver.ResetTiming | main/audio/audio_receiver.c:258-260 | the scheduler is reset, the buffer and the gates are left alone |
| AudioReceiver.AudioReceiver.SetTargets | main/audio/audio_receiver.c:122-167 | of the playout state only the start-up target moves |
| AudioReceiver.AudioReceiver.constructor | main/audio/audio_receiver.c:47-120 | the state from which runs begin |
| AudioTiming.TargetCoversLatency | main/audio/audio_timing.c:53-82 | with a sound rate the start-up target covers the output latency if and only if the number of frames that do fits 32 bits, and when it is above the minimum of four, one frame less would not |
| AudioReceiver.AudioReceiver.FlushForSeek | main/audio/audio_receiver.c:454-468 | a flush that also asks the next anchor to arm the gates |
| AudioReceiver.AudioReceiver.ArmDeferredFlush | main/audio/audio_receiver.c:470-480 | the flush point is noted, nothing else changes |
| AudioReceiver.AudioReceiver.PassGates | main/audio/audio_stream.c:36-53 | each armed gate rejects its side of the window and is disarmed by the first frame that passes it |
| AudioReceiver.AudioReceiver.ProcessDecoded | main/audio/audio_stream.c:29-81 | a frame that passes the gates and decodes is queued, any other leaves the buffer alone |
| AudioReceiver.AudioReceiver.ReadSamples | main/audio/audio_receiver.c:426-433 | a read through the receiver is the scheduler's read |
| PlayoutRuns.RunSplits | main/audio/audio_timing.c:237-560 | runs of calls compose |
| InOrderPlayout.ReadKeepsOrder | main/audio/audio_timing.c:279-557 | one read, whether or not it keeps a slot, leaves everything still to be played after everything that has left the buffer, pending copy included |
| InOrderPlayout.PlayoutInOrder | main/audio/audio_timing.c:237-560 | over every run from a state with nothing queued or parked, whatever slots are out and however small the pending copy: when the chunks that go into the buffer are in increasing order, any buffer-full of them within half the timestamp range, the frames played are a strictly increasing subsequence of them |
| InOrderPlayout.TakenFromChunks | main/audio/audio_buffer.c:349-380 | the chunks of a packet that go in are its first ones, up to a refusal, and all of them when no slot is out |
| PlayoutAfterSeek.RunKeepsPool | main/audio/audio_buffer.c:52-101 | over every run the queued frames and the slots left taken together never exceed the pool |
| PlayoutAfterSeek.InOrderFromEmpty | main/audio/audio_timing.c:237-560 | the same between timeline resets: after any history that left the receiver empty, whatever order came and whatever slots were lost before |
| PlayoutAfterSeek.InOrderAfterFlush | main/audio/audio_receiver.c:440-468 | the same after a flush or seek flush at any point of any history, slots lost or not, for a seek forward or backward |
| PlayoutAfterSeek.InOrderAfterSeekAnchor | main/audio/audio_receiver.c:203-231 | the same after an anchor that finds the buffer at another position, at any point of any history |
| PlayoutAfterSeek.NothingIsRefused | main/audio/audio_buffer.c:44-107 | with a pending copy of at least one slot those chunks are all the chunks of all packets that pass the gates |
| OnTimePlayout.PlayedExactlyWhenDue | main/audio/audio_timing.c:371-535 | with an anchor in force, a sound frame short of any flush point is played exactly when it is due within 40 ms, or when it is early and 750 frames in a row were |
| OnTimePlayout.ReadIsOnTime | main/audio/audio_timing.c:237-560 | over a whole read, dropped frames included, what is played is within 40 ms of its due time unless that read gave up the anchor |
| OnTimePlayout.PlayedNearNetworkTarget | main/audio/audio_timing.c:91-129 | on a locked clock that moment is, in network time, within 40 ms, a microsecond and the clock error of the anchor's time less the hardware latency |
| OnTimePlayout.RoomsPlayTogether | main/audio/audio_timing.c:91-129 | two receivers with one anchor play the same timestamp within 80 ms, two microseconds and their clock errors of each other |
| OnTimePlayout.EarlyIsGap | main/audio/audio_timing.c:91-129 | how early a frame counts as is, but for the rounding of two divisions, the anchor's time on the PTP, else NTP, else local clock plus the frame's distance from the anchor at the sample rate, less 46 ms and the time now |
| OnTimePlayout.PlayedNearLocalAnchor | main/audio/audio_timing.c:91-129 | with no network clock a frame is played within 40 ms and two microseconds of the moment its distance from the anchor gives, counted from when the anchor was set |
| FrameFates.FateInTime | main/audio/audio_timing.c:444-557 | with timing in force: due within 40 ms plays; earlier waits, parked if it fits, and the 751st such in a row plays and drops the anchor; up to two seconds late is dropped alone, later or the 17th late in a row throws everything away; the whole next state each time |
| FrameFates.FateAfterFlush | main/audio/audio_timing.c:385-443 | after a seek or flush: up to ten seconds early, or late, plays at once; beyond that everything is thrown away and the mode stays; it ends with a frame due within 40 ms or half a second after the first |
| FrameFates.FateWithoutAnchor | main/audio/audio_timing.c:538-557 | without an anchor the next sound frame plays |
| FrameFates.FateAtFlushPoint | main/audio/audio_timing.c:341-369 | a frame at or past an armed flush point throws everything away, and what comes next plays at once |
| FrameFates.FateOfMalformed | main/audio/audio_timing.c:308-335 | a frame without samples, without channels or shorter than it says is dropped alone |
| FrameFates.QueuedFramesAreSound | main/audio/audio_timing.c:308-335 | a chunk that came through the buffer is never taken for malformed |
| FrameFates.ReadWaits | main/audio/audio_timing.c:237-271 | exactly when a read waits: no room, paused, before the start too few frames, or no anchor for a second after there were enough; nothing is lost by it |
| FrameFates.ReadThrowsAway | main/audio/audio_timing.c:402-515 | over a whole read: a stale frame after a flush, or one hopelessly late, empties the buffer and playout starts over |
| FrameFates.ReadSkipsLateFrames | main/audio/audio_timing.c:279-557 | one read drops up to eight late frames and plays the due one behind fewer than eight of them; the frames after it stay |
| ReadStretches.EarlyFrameIsPlayedWhenDue | main/audio/audio_timing.c:444-484 | over a stretch of reads an early frame is kept through up to 750 silent ones and played by the first that finds it due; the read after 750 plays it and forgets the anchor |
| ReadStretches.PlaysUntilSettled | main/audio/audio_timing.c:385-443 | after a seek, reads play the buffer front to back at once, up to and including the first that finds its frame due or comes half a second after the first; the mode ends with that one and not before |
| ReadStretches.PausedIsSilent | main/audio/audio_timing.c:220-246 | from a pause on, whatever else is called, no read gives anything until playback is resumed, and the frame parked before is gone |
| ReadStretches.StartsWithoutAnchor | main/audio/audio_timing.c:250-268 | a receiver that has filled up and gets no anchor waits a second from the first read that found it so, and then plays its oldest frame |
| FreshStart.FlushActsLikeNew | main/audio/audio_receiver.c:440-452 | after a flush every run gives exactly what it gives on a new receiver with the same slots out: nothing of before is left |
| FreshStart.SeekFlushActsLikeNew | main/audio/audio_receiver.c:454-468 | after a seek flush, what it gives on a new one that plays at once and arms its gates with the next anchor |
| FreshStart.ResetActsLikeNew | main/audio/audio_timing.c:148-164 | after a timing reset, what it gives on a new one that has the same buffer and gates |
| Conservation.ReadConserves | main/audio/audio_timing.c:237-560 | what a read plays and what is left in buffer and pending copy was there before, nothing twice |
| Conservation.NothingPlayedTwice | main/audio/audio_timing.c:237-560 | over every run, in any arrival order, every frame played was offered and none is played more often than it was |
| Conservation.ReadKeepsSlots | main/audio/audio_timing.c:279-557 | a read gives every slot back when all queued frames fit the pending copy |
| Conservation.NoSlotIsLost | main/audio/audio_timing.c:279-560 | over every run of stereo audio, in any arrival order, no read leaves a slot taken, given a pending copy of at least one slot |
| FlushPoints.ReadRespectsPoint | main/audio/audio_timing.c:341-369 | a read under an armed flush plays nothing at or after the flush point, and the flush stands until it fires |
| FlushPoints.NothingPastFlushPoint | main/audio/audio_timing.c:341-369 | the same over any run of calls while the flush stays armed |
| FlushPoints.ArmedFlushHolds | main/audio/audio_receiver.c:470-480 | from the call that arms it on: at or past the point it was given nothing is played while it stays armed |
| FlushPoints.LostPoolStaysDead | main/audio/audio_buffer.c:52-101 | once every slot is out nothing is ever queued again by any calls that reach the buffer or the scheduler, flushes included |
| LostSlots.PoolCanDie | main/audio/audio_timing.c:471-480 | from initialisation, with a pending copy smaller than a frame, a run of feeds, anchors and reads loses the whole pool |
| LostSlots.SlotsCanBeLostExactly | main/audio/audio_timing.c:131-146 | for a receiver whose pool can meet its start-up target: some stereo run leaves a slot taken if and only if the pending copy is smaller than a frame, and then some run ends with a pool that stays empty for good |
| SilenceBudget.ReadSpends | main/audio/audio_timing.c:444-534 | every silent read spends a budget formed from the two counters; only playing, flushing or giving up the anchor restores it |
| SilenceBudget.NoEndlessSilence | main/audio/audio_timing.c:444-534 | after any history, with no new anchor or reset, at most 17 x 750 silent reads happen before a frame is played or the buffer flushed |
| SilenceBudget.CountersStayInRange | main/audio/audio_timing.c:444-534 | the early counter stays at most 750 and the late counter at most 16 over every run |
| SeekGates.SeekFlushArmsNextAnchor | main/audio/audio_receiver.c:232-248 | whatever is fed or read in between, the first anchor r after a seek flush arms the window [r, r + 10 s] |
| SeekGates.OldestIsNearAnchor | main/audio/audio_receiver.c:203-231 | after an anchor the buffer is empty or its oldest frame is within five seconds of it, if and only if that frame was not exactly 2^31 away before |
| SeekGates.AnchorKeepsExactly | main/audio/audio_receiver.c:177-249 | an anchor keeps buffer, parked frame, start and gates as they are if the oldest frame is within five seconds of it on either side, or 2^31 away, or there is none; otherwise it empties the buffer, starts over and arms the window of ten seconds; the anchor itself is noted in full either way |
| SeekGates.HalfRangeSeekIsMissed | main/audio/audio_receiver.c:203-231 | the exception happens: a frame 2^31 away survives the seek check |
| SeekGates.StaleFeedRejected | main/audio/audio_stream.c:36-53 | a feed of stale frames is rejected to the last one if and only if no frame from below the window comes after one from above, where a frame so far below that its distance to the upper bound wraps counts as above |
| SeekGates.OneSidedStalePrefix | main/audio/audio_stream.c:36-53 | stale frames from one side are all rejected and the next fresh frame passes and disarms both gates |
| SeekGates.MixedSidesLeak | main/audio/audio_stream.c:36-53 | one frame from above followed by one from below lets the second in |
| SeekGates.SeekKeepsStaleOut | main/audio/audio_receiver.c:454-468 | seek flush, anchor, one-sided stale packets and a fresh one: exactly the stale packets are kept out of the buffer |
| Resampler.ApplyFilterOutsideIn | components/audio-resampler/resampler.c:1264-1275 | the outside-in convolution loop uses every tap once and returns the dot product |
| Resampler.ApplyFilter | components/audio-resampler/resampler.c:1237-1247 | so does the plain loop |
| Resampler.OutputIsCausal | components/audio-resampler/resampler.c:1374-1398 | samples that come later never change an output |
| ResampleContext.Context.SubsampleTaps | components/audio-resampler/resampler.c:1374-1398 | nearest-filter and interpolating subsampling, with the pass-through of whole positions when no lowpass is in effect |
| ResampleContext.Context.Shift | components/audio-resampler/resampler.c:759-769 | the slide moves the last numTaps samples to the front and nothing the next output needs is lost |
| ResampleContext.Context.Process | components/audio-resampler/resampler.c:748-808 | a process call refines sampling of the unbounded signal: what it reads, what it produces, where it stops, and its snap changes nothing |
| ResampleContext.Context.Reset | components/audio-resampler/resampler.c:490-508 | the state of a fresh context: one window of silence, output position at its middle |
| ResampleContext.Context.ExpectedOutput | components/audio-resampler/resampler.c:1079-1118 | the dry run terminates and counts exactly the output positions below the end of the offered input |
| ResampleContext.Context.RequiredSamples | components/audio-resampler/resampler.c:1049-1077 | the dry run terminates and gives the inputs that carry the read position to the last wanted output |
| ResampleContext.SnapIsIdentity | components/audio-resampler/resampler.c:800-806 | on a position that is a whole number of filters the snap is the identity |
| ResampleRuns.EveryOutputIsASample | components/audio-resampler/resampler.c:748-808 | over every sequence of calls and every cutting of the input, the n-th output ever produced is the kernel applied to the unbounded signal at numTaps/2 + n/ratio |
| ResampleRuns.CuttingDoesNotMatter | components/audio-resampler/resampler.c:748-808 | two runs over the same signal that have drained their input produced the same outputs |
| ResampleRuns.CallMatchesPrediction | components/audio-resampler/resampler.c:1079-1118 | a call produces the predicted number of outputs, or as many as there is room for, and drains its input when room is left |
| ResampleRuns.PredictionBelowMaximum | main/audio/audio_resample.c:165-170 | the prediction is strictly below audio_resample_max_output |
| ResampleRuns.MaximumConsumesAll | main/audio/audio_resample.c:106-138 | given that capacity every call consumes its whole input |
| ResampleRuns.InputIsConsumed | main/audio/audio_resample.c:121-123 | from every state a call can leave, a call reads its whole input if and only if the predicted outputs leave room over or the last one that fits needs the last input |
| ResampleRuns.CallNeedsRequired | components/audio-resampler/resampler.c:1049-1077 | with room for exactly the wanted outputs and enough input, a call uses exactly the number of inputs the dry run names |
| ResampleRuns.RequiredIsLeast | components/audio-resampler/resampler.c:1049-1077 | a call fills its room if and only if it is offered at least that many inputs, so the number is the least that will do |
| ResampleRuns.PlaybackRoomSuffices | main/audio/audio_output_spdif.c:46-48 | the playback task's buffer is large enough for every source of at least 44.1 kHz |
| ResampleRuns.SlowSourceLosesInput | main/audio/audio_output_spdif.c:46-48 | for 352 frames, the most a buffered chunk holds, from 32 kHz to 48 kHz it is not, and input is left unread |
| ResampleResponse.LinesStayStraight | components/audio-resampler/resampler.c:1374-1401 | with filters of unit gain centred at their fractions, a straight line in comes out as that line at every output position of every run, exactly when interpolating or on a filter, else at most half a filter away; with unit gain alone a constant stays that constant |
| ResampleResponse.WrapperKeepsLines | main/audio/audio_resample.c:59-104 | with the bank the wrapper gets for any two rates every output is exactly on the line |
| ResampleResponse.OutputsAreConvolutions | components/audio-resampler/resampler.c:1374-1386 | any signal: with filters that hold a kernel at their fractions, output n of every run on a filter is the convolution with the kernel at numTaps/2 + n/ratio, or the sample itself at whole positions without lowpass |
| ResampleResponse.ValueIsBlend | components/audio-resampler/resampler.c:1389-1401 | with interpolation it is the mean of the convolutions at the two filters around, weighed by where the position lies between them |
| FilterInit.InitFilter | components/audio-resampler/resampler.c:1325-1372 | the loop visits the taps from the middle out, each exactly once; the tap sum misses 1 by the rounding of the last visited tap alone; every tap is within twice the rounding error of its exact value |
| FixedRatio.GcdLoop | components/audio-resampler/resampler.c:1203-1211 | the loop returns the greatest common divisor |
| FixedRatio.EuclidLoop | main/audio/audio_resample.c:62-69 | so does the wrapper's own loop |
| FixedRatio.GcdDivides | components/audio-resampler/resampler.c:1203-1211 | the result divides both arguments |
| FixedRatio.GcdIsGreatest | components/audio-resampler/resampler.c:1203-1211 | every common divisor divides the result |
| FilterCount.LeastFilterCount | components/audio-resampler/resampler.c:420-427 | every output position of every run falls exactly on a filter if and only if the filter count is a multiple of dst/gcd(src, dst), so that is the least count |
| FilterCount.RoundingPicksTheFilter | components/audio-resampler/resampler.c:1374-1386 | on a filter, rounding picks that filter and the offset snap changes nothing |
| FilterCount.WrapperGetsExactFilters | main/audio/audio_resample.c:59-82 | the wrapper gets the exact count without interpolation when it is at most 1024, and 1024 interpolated filters otherwise |
| FilterCount.StrideIsWhole | components/audio-resampler/resampler.c:420-437 | the output step is a whole number of exact filters |
| FilterCount.CreateContext | components/audio-resampler/resampler.c:404-466 | a context in the start state with the configuration chosen for the two rates |
| FilterCount.StandardRates | main/audio/audio_resample.c:59-69 | 44.1 kHz to 48 kHz takes 160 filters |
| FilterCount.LowpassExactlyDown | components/audio-resampler/resampler.c:439-457 | the wrapper has a lowpass in effect if and only if the rate goes down |
| NtpClock.StampLosesAtMostOne | main/network/ntp_clock.c:58-71 | a local time through an NTP stamp and back loses at most one nanosecond, until the seconds wrap |
| NtpClock.Clock.ProcessResponse | main/network/ntp_clock.c:74-155 | all three stamps go through ntp_to_ns; a rejected response changes nothing; an accepted one enters the ring of eight and the offset becomes that of a least-dispersion measurement in it, its own if none is less dispersed; locked from the third accepted one on |
| NtpClock.ExchangeIsAccurate | main/network/ntp_clock.c:97-112 | with all three stamps truncated, one exchange errs by at most its dispersion, and two nanoseconds more on the low side; one nanosecond is enough if and only if the exchange is not of one named kind |
| NtpClock.TakenWithinASecond | main/network/ntp_clock.c:114-120 | an honest exchange is taken exactly if it took at most a second; at one second to the nanosecond, only if our own stamp lost nothing |
| NtpClock.ClockIsAccurate | main/network/ntp_clock.c:122-143 | after any run of exchanges with a remote that is a constant ahead, the offset is within the least dispersion of the last eight accepted measurements and that slack: two nanoseconds, or one when the remote's stamps read back exactly |
| NtpClock.ExtraNanosecondIsNeeded | main/network/ntp_clock.c:58-71 | without the one nanosecond the bound is false |
| NtpClock.TwoNanosecondsAreNeeded | main/network/ntp_clock.c:97-112 | nor does one suffice when the receive stamp reads back one low |
| NtpClock.SecondNanosecondIsNeeded | main/network/ntp_clock.c:97-112 | and that happens: an honest exchange of dispersion 0 leaves the offset two nanoseconds low |
| NtpClock.RemoteStampLosesAtMostOne | main/network/ntp_clock.c:67-71 | a stamp cut to 2^-32 seconds reads back at most one nanosecond low |
| Median.SortFindsRank | main/network/ptp_clock.c:109-119 | sorting and taking index r gives the element of rank r, duplicates included |
| Median.RankIsUnique | main/network/ptp_clock.c:109-119 | only one value has a given rank |
| Median.MajorityHoldsMedian | main/network/ptp_clock.c:109-119 | the median lies in every interval that holds a strict majority |
| PtpClock.Clock.ComputeMedian | main/network/ptp_clock.c:109-119 | the result is the rank fill/2 element of exactly the last sixteen or fewer accepted samples |
| PtpClock.Clock.StoreSample | main/network/ptp_clock.c:137-143 | the ring holds exactly the last sixteen samples |
| PtpClock.Clock.MaxDeviation | main/network/ptp_clock.c:151-161 | the loop finds the largest distance from the median: it is below a limit exactly when all samples are |
| PtpClock.Clock.CheckLock | main/network/ptp_clock.c:148-181 | exactly when the lock turns on and off, and what becomes of the candidate period |
| PtpClock.Clock.UpdateOffset | main/network/ptp_clock.c:122-182 | a sample is taken if and only if it is the first or within 50 ms of the estimate on either side; one that is not changes neither estimate nor lock; a lock that turns on was earned by a steady second and no sample 40 ms off, and one that stands falls exactly when a sample of the window is over 160 ms off |
| PtpClock.TracksSteadyRemote | main/network/ptp_clock.c:122-182 | a clock from its start, on samples within d of the true offset, 2 d at most 50 ms, and any number of strays over 50 ms outside that on either side: it takes exactly the good ones, its estimate is within d, and with 2 d below 40 ms it is locked exactly from the first good sample on that comes a second after the eighth |
| PtpClock.LockWasEarned | main/network/ptp_clock.c:162-171 | a lock means accepted updates spanning at least 1000 ms, each with at least eight samples all within 40 ms of the median |
| PtpClock.Clock.MajorityDecides | main/network/ptp_clock.c:122-182 | the filtered offset lies in every interval holding a strict majority of the window |
| PtpClock.Clock.ProcessSync | main/network/ptp_clock.c:184-202 | a two-step Sync is noted and awaits its answer; a one-step Sync is an update at once |
| PtpClock.Clock.ProcessFollowup | main/network/ptp_clock.c:205-226 | only the first Follow_Up that matches the latest Sync counts |
| PtpClock.Clock.UpdateOutliers | main/network/ptp_clock.c:122-137 | over any run of updates more than 50 ms from the estimate, the estimate does not follow and a lock, asked for within five seconds of each, never lapses |
| PtpClock.Clock.IsLocked | main/network/ptp_clock.c:462-473 | in real time, up to a turn of the 32-bit clock: a lock lapses if and only if update_offset last ran more than five seconds ago, at a time that was not a multiple of 2^32 ms |
| PtpClock.LockOutlivesUpdates | main/network/ptp_clock.c:462-473 | a clock locked by nine updates, whose last one comes 2^32 ms after the start, still says it is locked an hour later |
| PtpClock.Clock.Clear | main/network/ptp_clock.c:444-460 | the state of a clock that has accepted nothing |
| ModularPower.SecretsAgree | main/airplay_pair/srp.c:335-345 | (A v^u)^b equals (B - k g^x)^(a + u x) modulo N, for all a, b, x, u, k and every representative A of g^a |
| ModularPower.SameMeansRemainders | main/airplay_pair/srp.c:335-345 | congruence is equality of remainders |
| BigEndian.WritingKeepsValue | main/airplay_pair/srp.c:70-78 | a number written in enough bytes reads back as itself |
| BigEndian.ReadingKeepsBytes | main/airplay_pair/srp.c:270-277 | bytes read as a number and written at their length are the same bytes |
| BigEndian.PaddingKeepsValue | main/airplay_pair/srp.c:246-252 | zero bytes in front do not change the number |
| BigEndian.CuttingLosesValue | main/airplay_pair/srp.c:246-252 | dropping bytes at the end keeps the number only if it is zero |
| BigEndian.TrimIsShortest | main/airplay_pair/srp.c:81-89 | trimming gives the shortest byte form of the number, as mpi_to_bytes_min does |
| BigEndian.TrimLeadingZeros | main/airplay_pair/srp.c:81-89 | the pointer walk ends at the trimmed string |
| BigEndian.WriteShortest | main/airplay_pair/srp.c:50-68 | the shortest form, a zero byte for zero, or length 0 when it does not fit |
| BigEndian.WritePadded | main/airplay_pair/srp.c:70-78 | the zero-padded form, or failure exactly when the number does not fit |
| SrpGroup.ModulusFits | main/airplay_pair/srp.c:12-45 | the prime fills its 384 bytes |
| SrpSession.Session.Start | main/airplay_pair/srp.c:119-221 | salt, padded b and padded B = k v + g^b are stored, and nothing else is touched |
| SrpSession.Session.StoreClientKey | main/airplay_pair/srp.c:246-252 | the client key is cut to 384 bytes or padded in front |
| SrpSession.Session.ExpectedProof | main/airplay_pair/srp.c:353-387 | the expected M1 over the digests and the shortest forms of salt, A and B |
| SrpSession.Session.DeriveKey | main/airplay_pair/srp.c:288-350 | the stored key is the hash of the server's premaster secret |
| SrpSession.Session.VerifyClient | main/airplay_pair/srp.c:237-428 | the whole new session for every outcome: short proof, A a multiple of N, wrong proof (the key is overwritten, the verified flag kept), success |
| Srp.StoredReadsBack | main/airplay_pair/srp.c:184-205 | b and B pass unchanged through their padded byte forms |
| Srp.ReceivedKeepsValue | main/airplay_pair/srp.c:246-252 | the value of the client key survives if and only if it came in at most 384 bytes or is zero |
| Srp.KeysAgree | main/airplay_pair/srp.c:288-350 | both sides derive the same session key |
| Srp.HonestClientIsAccepted | main/airplay_pair/srp.c:237-428 | in the server's own terms, a client that knows the password, with A not zero modulo N, is accepted, holds the same K and gets the M2 it expects |
| SrpClient.ServerWantsProof | main/airplay_pair/srp.c:237-428 | a client written down on its own from the RFCs, byte string by byte string, for user Pair-Setup and password 3939: the server accepts exactly its M1 = H(H(N) xor H(g), H(I), s, A, B, K), with the salt in its shortest form, and then both hold its K and the answer is its H(A, M1, K) |
| SrpClient.StandardClientIsAccepted | main/airplay_pair/srp.c:353-387 | one that hashes the salt as it was sent is accepted when the salt does not begin with a zero byte; when it does, exactly if the hash does not tell the two forms apart |
| RtspFrames.BlockReadsBack | main/rtsp/rtsp_crypto.c:25-86 | a block reads back as its message whatever follows it, if keys and counters agree |
| RtspFrames.CutFits | main/rtsp/rtsp_crypto.c:97-100 | the blocks of a frame are non-empty, at most 0x400 bytes, concatenate to it, and are ceil(n/0x400) in number |
| RtspFrames.WireAppends | main/rtsp/rtsp_crypto.c:95-136 | the wire of two block lists is their wires in a row, with the counter carried on |
| RtspFrames.FramesReadBack | main/rtsp/rtsp_crypto.c:25-139 | everything framed in a conversation reads back in order and both counters have advanced by the same number of blocks |
| RtspFrames.NoncesAreDistinct | main/rtsp/rtsp_crypto.c:105-106 | the nonces of fewer than 2^64 consecutive blocks all differ |
| RtspFrames.NonceBytes | main/rtsp/rtsp_crypto.c:105-106 | a nonce is four zero bytes and the counter in eight, low byte first |
| RtspFrames.BlockLayout | main/rtsp/rtsp_crypto.c:101-125 | a block is the length of its message in two bytes, low byte first, and the box made with those two as associated data |
| RtspFrames.ReadsExactly | main/rtsp/rtsp_crypto.c:25-86 | a block is read if and only if two bytes announce 1 to 0x400 bytes that fit the room, the box is there whole and opens |
| RtspFrames.NonceSharedExactly | main/rtsp/rtsp_crypto.c:88-139 | two boxes of a session share a nonce if and only if nothing from the first up to the second went out whole, as when data is written again after a failed write |
| RtspCrypto.TwoBoxesOneNonce | main/rtsp/rtsp_crypto.c:88-139 | written after a write that stopped one byte short of its box, another message goes out whole under the same nonce, whatever the two messages are |
| RtspCrypto.SendAll | main/rtsp/rtsp_crypto.c:13-23 | however the socket splits sends, all bytes go out, or a proper prefix and an error |
| RtspCrypto.RecvAll | main/rtsp/rtsp_crypto.c:35-44 | however the socket splits what arrives, the buffer is filled with exactly the next bytes, or there is an error |
| RtspCrypto.Session.WriteFrame | main/rtsp/rtsp_crypto.c:88-139 | on success the wire grows by exactly the frame's blocks and the counter by their number; on failure by k whole blocks, counted, and a part of the next, whose box was made but not counted |
| RtspCrypto.Session.ReadBlock | main/rtsp/rtsp_crypto.c:25-86 | a block is delivered, the stream advanced and the counter moved exactly when one is there to be read, unless the socket fails first |
| Tlv8.EncodedSize | main/airplay_pair/tlv8.c:10-42 | an item takes len + 2 max(1, ceil(len/255)) bytes |
| Tlv8.EncodedLayout | main/airplay_pair/tlv8.c:10-42 | where every byte is: a header of type and remaining length, at most 255, every 257 bytes, and the value's bytes from 255 i on behind header i |
| Tlv8.FittingIsMost | main/airplay_pair/tlv8.c:10-42 | what an encoder without enough room leaves behind is as many whole fragments as fit, none fewer |
| Tlv8.EncodedAllAppends | main/airplay_pair/tlv8.c:10-42 | encoding one more item appends its wire form |
| Tlv8.Encoder.Encode | main/airplay_pair/tlv8.c:10-42 | succeeds if and only if the whole item fits; otherwise the whole fragments that fit are left behind; the capacity is never passed |
| Tlv8.DecodesFirstRun | main/airplay_pair/tlv8.c:76-112 | for any list of items, followed by nothing or by a cut-off item: the joined values of the first run of the type, a failure when they do not fit, nothing when the type is absent |
| Tlv8.FirstValueComesBack | main/airplay_pair/tlv8.c:76-112 | with neighbours of different types the first value of the type comes back exactly, whatever its length; tlv8_find gives its first 255 bytes |
| Tlv8.Find | main/airplay_pair/tlv8.c:52-74 | on any bytes: terminates in bounds with the first fragment of the type |
| Tlv8.DecodeConcat | main/airplay_pair/tlv8.c:76-112 | on any bytes: terminates in bounds with the specified result, and writes nothing beyond it |
| SpdifCode.TableIsMark | main/audio/audio_output_spdif.c:88-122 | every table entry is the biphase mark code of its byte, ending high |
| SpdifCode.MarkIsBiphase | main/audio/audio_output_spdif.c:88-90 | the code changes level at every bit boundary and once more inside a one |
| SpdifCode.BiphaseIsMark | main/audio/audio_output_spdif.c:88-90 | and it is the only one that ends that way |
| SpdifCode.WordIsSampleWithParity | main/audio/audio_output_spdif.c:170-176 | a data word is the biphase code, following a preamble that ends high, of the sample with its lowest bit replaced by even parity |
| Spdif.Encoder.Init | main/audio/audio_output_spdif.c:152-157 | alternating M and W preambles |
| Spdif.Encoder.Write | main/audio/audio_output_spdif.c:166-195 | however PCM is cut over calls, the half-blocks sent are the encoding of all of it cut every 96 stereo frames |
| Spdif.Encoder.Flush | main/audio/audio_output_spdif.c:217-224 | a flush drops the half-filled buffer and begins the stream again |
| Spdif.PreamblesFollow | main/audio/audio_output_spdif.c:182-192 | sent end to end, B opens a block exactly once in 192 frames starting with the first sub-frame, M the other left samples, W the right ones |
| Spdif.PreambleWords | main/audio/audio_output_spdif.c:78-86 | the three preamble words hold the standard's B, M and W patterns for a line that is high, between the biphase code of four zero bits before and eight after |
| Spdif.SamplesFollow | main/audio/audio_output_spdif.c:169-180 | sub-frame n carries sample n |
| Spdif.HalfBlocksGrow | main/audio/audio_output_spdif.c:166-195 | what was sent does not depend on what follows |
| Base64.TableHoldsPlaces | main/plist/base64.c:8-26 | the decode table holds each letter's place, zero for the pad, and nothing else |
| Base64.LengthIsExact | main/plist/base64.c:28-30 | the encoding of n bytes has exactly base64_encoded_length(n) characters |
| Base64.LetterIsAlphabet | main/plist/base64.c:5-6 | the letters are those of the standard alphabet, in order |
| Base64.EncodedLayout | main/plist/base64.c:32-60 | characters 4 i to 4 i + 3 are the letters of the four six-bit parts of bytes 3 i to 3 i + 2, equals signs where there is no byte |
| Base64.Encode | main/plist/base64.c:32-60 | the encoding, or -1 exactly when it does not fit; nothing beyond it is written |
| Base64.CountCharacters | main/plist/base64.c:68-74 | the number of characters that are not white space |
| Base64.Decode | main/plist/base64.c:62-114 | the accumulator loop computes the specified decoding in bounds on any input |
| Base64.BytesComeOff | main/plist/base64.c:102-110 | the bytes shifted out do not show what the 32-bit accumulator still holds from before |
| Base64.SpacesDoNotCount | main/plist/base64.c:87-92 | white space makes no difference |
| Base64.RoundTrip | main/plist/base64.c:62-114 | with blanks, tabs and line ends inserted anywhere, decoding returns the bytes if and only if the capacity is not zero and covers three bytes for every four characters, and fails otherwise |
| Base64.EmptyNeedsRoom | main/plist/base64.c:64-66 | a capacity of zero refuses even the empty encoding |
| Base64.BadCharacterFails | main/plist/base64.c:87-100 | any other character before the first equals sign makes the text fail |
| Base64.AnyLettersDecode | main/plist/base64.c:62-114 | any number of letters, padded or not, white space anywhere: the letters' bits in a row, eight to a byte, what is left over dropped |

## Left out

- AudioTiming.AudioTiming.ReadFrame: all clock readings within one call return the same time, and what the locked clocks say is an argument.
- AudioTiming.AudioTiming.TryOnce: statistics, log lines and the length of the silence buffer beyond the samples handed out.
- AudioReceiver.AudioReceiver.DetectSeek: `abs(INT32_MIN)` is undefined in C; the model takes the two's complement result.
- AudioReceiver.AudioReceiver.ProcessDecoded: decryption and decoding are the argument `pcm`; the muting of the first AAC frames and the block counter are not modelled.
- AudioBuffer.AudioBuffer.Take: the timeout of the semaphore wait; a take either finds a token or reports none.
- PlayoutRuns.RunSplits: starting, stopping and switching streams, which reach the buffer and the scheduler only through a flush, and the statistics calls are not among the calls of a run.
- InOrderPlayout.PlayoutInOrder: stated for feeds in which any buffer-full of chunks spans less than half the timestamp range, beyond which 32-bit comparison is not an order.
- Conservation.NoSlotIsLost: decoded audio of at most two channels.
- ResampleContext.Context.Process: samples are real numbers, so floating-point rounding is not modelled; the flush path, threads and end-point extrapolation, which the wrapper does not use, are left out.
- ResampleRuns.EveryOutputIsASample: one ratio for the whole run, as the wrapper uses it; frames are vectors of one sample per channel, so the interleaved layout and the 16-bit conversion loops of the wrapper are not modelled.
- ResampleResponse.LinesStayStraight: unit gain and centring are taken as exact; the filters the code builds have them up to the rounding and the window's error (a bank that has them exactly: `LinearIsCentred`).
- FilterInit.InitFilter: the windowed sinc values are an argument, and so is the rounding to the stored sample type.
- FilterCount.CreateContext: contents of the filters are arbitrary; allocation failure is not modelled.
- NtpClock.Clock.ProcessResponse: the bytes of the packet and its length check.
- NtpClock.ClockIsAccurate: local time below 2^32 seconds, where the stamp's seconds wrap.
- PtpClock.TracksSteadyRemote: times below 2^32 ms, where the clock the code sees wraps.
- PtpClock.Clock.UpdateOffset: updates come in time order; offsets are unbounded integers, of which the code keeps 64 bits.
- SrpSession.Session.Start: random bytes are arguments, the hash and big-number arithmetic are mathematical functions, failures inside the big-number library do not occur; salt, session key and proofs are values that are always replaced as a whole.
- SrpSession.Session.VerifyClient: only the fixed identity and password of transient pairing, as the code does.
- Srp.HonestClientIsAccepted: nothing is claimed about clients without the password; that needs assumptions about the hash and the group.
- RtspCrypto.Session.WriteFrame: the cipher is any one whose boxes open to their messages and are sixteen bytes longer; allocation failure is not modelled.
- RtspCrypto.Session.ReadBlock: the library is taken to clear the room of a message it cannot open; what the server does after a failed read, of which a part may already have been consumed.
- Spdif.Encoder.Write: volume and resampling before it, the I2S driver behind it.
- Base64.Encode: null pointers.
- Other parts of the firmware: drivers, network set-up, web server, settings, property lists, event listeners and the ALAC and AAC decoders, which are I/O, library calls or easy members.
- Pair-verify, non-transient pairing, and key derivation: signatures and key expansion are library calls in a fixed sequence.
- Socket and task scheduling: every public call is atomic, so races between tasks are not covered.
