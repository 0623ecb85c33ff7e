# A verified model of the user-space RDMA driver

The driver in `rust_driver/` moves data between hosts through a card, or through a software simulation
of the card. This project models its four core mechanisms in Dafny and proves what they promise, over
whole runs wherever the promise is about runs.

**Receive checker** (`Psn`, `RecvWindow`, `Checker`, `PacketChecker`, `CheckerRuns`, `CheckerStreams`,
`CheckerPanics`, `CheckerCrossing`, `CheckerBoundary`, `CheckerWindows`, `CheckerDuplicates`,
`CheckerAcks`, `CheckerTaking`, `CheckerLiveness`, `CheckerStuck`). The card reports each packet with
the PSN it expected. As long as packets arrive in order the driver only remembers which messages are
open; after the first gap every open message gets a sliding window of received PSNs, and the message is
acknowledged when its window is complete. `Checker` is one queue pair's step as a function on values.
`PacketChecker` is the object that the driver updates in place, and every method of it is proved to take
exactly that step. `CheckerRuns` composes the step with an abstract card, one that expects the PSN after
the largest it has seen and reports whatever arrives, lost, reordered or duplicated. Ghost state keeps
unbounded sequence numbers and the set of packets that really arrived, so that "acknowledged only when
complete" can be said without wrap-around.

The checker does not panic. Out of order this needs nothing of the packets: any event on any table whose
open contexts have a window that is well formed and covers offset 0 gives such a table again. In order
it needs the card's contract only, so `CheckerPanics` proves it for every valid stream and every run,
and with it that at most one context is open while packets are in order.

That a message is acknowledged only when all of it has arrived is not true without a condition. A
context table that is created in order starts with watermark 0 and in-order packets do not move it
(checker.rs:471-482). When the first gap is seen at or beyond PSN 2^23, that 0 passes for a PSN ahead; a
duplicate from below 2^23 then replaces it by a PSN behind the gap, and the range from there to the
expected PSN is taken for received. This endangers every message of three packets or more that ends at
or beyond 2^23, whether or not it runs across 2^23 itself. `CheckerBoundary` proves the exact condition
for streams of any messages that tile fewer than 2^23 PSNs: every run is sound if and only if the stream
does not run across 2^23, or each of its messages of three packets and more ends below 2^23. The reason
why the latter are safe is in `CheckerCrossing`: a window that takes in a range it should not reaches
beyond its message and never reports completion. For runs without any bound on their length, across any
number of wraps, `CheckerWindows` proves soundness for packets within a window of the expected PSN, if
the first gap is not seen, with a table, in the window right after 2^23. `CheckerRuns.AckSoundness` is
the statement behind it, in which each arriving packet is within 2^23 of the watermark, or is old while
nothing is missing.

That a message is acknowledged once all of it has arrived is not true without a condition either.
`CheckerLiveness` proves it, with exactly one answer, for streams whose first gap is seen in time, and
for a single message below 2^23 as an if-and-only-if. `CheckerStuck` shows two ways in which it fails:
when the last packets of a message are lost and the gap is seen with the first packet of the next, the
window of the message takes in that packet and never reports completion; and beyond 2^23 the watermark 0
keeps packets that arrive as expected after the gap out of the window, until they are sent again.

**Segmentation and delivery** (`PacketLength`, `SgList`, `Transmit`, `Split`, `SplitMeaning`, `Memory`,
`Delivery`, `EndToEnd`). A descriptor is cut into packets at multiples of the path MTU, and the
scheduler may first cut it into chunks. `Transmit.Segments` says what a descriptor means as a sequence
of packets; the sending loops are proved to emit exactly that. Splitting is proved to preserve the
meaning of every whole message if and only if the chunk size is a multiple of the path MTU and larger
than it. The packets of a write into a registered region all pass the receiver's key check, and received
in any order, with any repetition, they write exactly the source bytes; bytes that no region opens to
remote writes are not touched by packets that announce what they carry. To the receiver's checker they
are the packets of one message, counted from the length that the first announces.

**Rings and scheduler** (`BitOps`, `RingIndex`, `RingWriter`, `RingReader`, `RoundRobin`, `Pipeline`,
`Operations`). Ring indices carry a guard bit; the host end works with cached indices while the card
moves the other end. Both ends refine a FIFO queue for every interleaving, and neither side can wait for
the other. The round-robin queue keeps per-queue-pair order and is fair. `Pipeline` composes submission,
splitting, scheduling and sending: the PSNs on the wire of each queue pair are consecutive, and so are
the MSNs of its operations.

**Wire format and retries** (`Bytes`, `HeaderBits`, `Headers`, `HeaderWriter`, `BitRange`, `Icrc`,
`PacketWriter`, `Checksum`, `Retry`). Headers are written over an arbitrary buffer with masks and
shifts, packets get an invariant checksum, and what a receiver reads is exactly what was sent. The retry
monitor goes through a snapshot of the map while other threads add and cancel entries; budget and pacing
hold for every interleaving.

Inputs that come from outside are parameters: the clock, the polled registers, the order in which a hash
map is enumerated, the checksum function, the card's behaviour. Integers are unbounded and wrap-around
is written out where the code wraps in a visible way (24-bit PSNs, 16-bit MSNs, 64-bit addresses, ring
indices, bytes). Panics of the checker are outcomes of the model; the object's methods ask that the step
is none of them, which `CheckerPanics` proves of every run.

Where code and comments disagree the code is followed:

- `larger_in_psn` calls numbers up to and including 2^23 apart ordered; its comment says less than.
- `SlidingWindow::insert` keeps only the next interval's end when a range runs past it, so it is a
  union only under the condition in `RecvWindow.InsertedRangeIsUnionIff`.
- `get_recent_gap` is named after the gap between the last two intervals; `RecentGapMissesTheGap`
  shows that its first component lies after the gap and its second is never the gap's end.
- A chunk of one packet that is neither first nor last is sent with opcode Last
  (software/types.rs:571-594), which is why chunks of exactly one path MTU do not preserve meaning.
- `split_descriptor` is said to return at least two descriptors when the length reaches the chunk
  size; `Split.SplitIsOneIff` says exactly when it returns one.
- `calculate_ipv4_checksum` is said to need 20 bytes; it panics exactly for fewer than 19.
- `validate_rkey` checks the announced length while the payload length is copied, and adds it to the
  address on 64 bits; `Delivery.AdmittedStaysInsideIff` says that a packet stays inside its region exactly
  when it announces at least what it carries and what it announces does not wrap around.
- A full ring makes the reader give back the slots it has handed out so far, although its caller may
  still hold them (ringbuf.rs:297-299); `RingReader.GivesBackIff` says exactly when, and
  `RingReader.HeldSlotIsOverwritten` that the card's next descriptor then replaces one of them.

## Model

| member | source | states |
|---|---|---|
| `Psn.WireAdd` | rust_driver/src/types.rs:181-187 | adding on 24 bits is the image of adding unbounded numbers |
| `Psn.WireSub` | rust_driver/src/types.rs:189-201 | subtracting on 24 bits is the image of subtracting unbounded numbers |
| `Psn.LargerIsOrder` | rust_driver/src/types.rs:212-217 | the half-circle comparison is the order of the unbounded numbers, when these are within 2^23 |
| `RecvWindow.FloorKey` | rust_driver/src/checker.rs:674-678 | the greatest key at or below a bound, None exactly when there is none |
| `RecvWindow.HigherKey` | rust_driver/src/checker.rs:688-692 | the least key above a bound, None exactly when there is none |
| `RecvWindow.InsertedRangeWellFormed` | rust_driver/src/checker.rs:651-720 | after any insertion the intervals are disjoint and not adjacent |
| `RecvWindow.InsertedRangeBounds` | rust_driver/src/checker.rs:651-720 | an insertion loses nothing that was covered and covers nothing beyond the range |
| `RecvWindow.InsertedRangeIsUnionIff` | rust_driver/src/checker.rs:688-719 | the new cover is exactly the union if and only if the range does not run past the end of the next interval |
| `RecvWindow.RangeIsCovered` | rust_driver/src/checker.rs:651-720 | a range that does not run past the next interval is covered afterwards |
| `RecvWindow.CompleteIff` | rust_driver/src/checker.rs:723-735 | a window is complete exactly when offsets 0..n-1 are covered and n is not |
| `RecvWindow.RecoverIsLeastMissing` | rust_driver/src/checker.rs:737-752 | a window of one interval that covers 0 does not panic and names its least uncovered offset |
| `RecvWindow.AcceptedIsOrdered` | rust_driver/src/checker.rs:651-668 | both ends of an accepted range keep their order and distance as offsets, also across the PSN wrap |
| `RecvWindow.InsertedKeeps` | rust_driver/src/checker.rs:651-720 | insertion of PSNs keeps a window well formed and its cover within old cover and range |
| `RecvWindow.RecentGapMissesTheGap` | rust_driver/src/checker.rs:634-648 | the reported pair starts after the gap between the last two intervals and does not end at the gap's end |
| `RecvWindow.GapNeverPanics` | rust_driver/src/checker.rs:643 | the assertion of the gap report cannot fire on a well-formed window |
| `RecvWindow.InsertedBounded` | rust_driver/src/checker.rs:651-668 | offsets in a window stay below 2^23 |
| `RecvWindow.InsertedSane` | rust_driver/src/checker.rs:651-720 | insertion of any PSNs keeps a window well formed, covering offset 0 and below 2^23 |
| `RecvWindow.SlidingWindow.constructor` | rust_driver/src/checker.rs:625-631 | a new window covers nothing |
| `RecvWindow.SlidingWindow.Insert` | rust_driver/src/checker.rs:651-720 | the update in place, with its early returns and merges, is the insertion the lemmas are about |
| `PacketChecker.PacketCheckerContext.constructor` | rust_driver/src/checker.rs:40-48 | no receive contexts and nothing sent at the start |
| `CheckerDuplicates.RemovedIsFinished` | rust_driver/src/checker.rs:484-492 | a removed context is gone and its MSN finished, the others untouched |
| `PacketChecker.PacketCheckerContext.HandleQpNormal` | rust_driver/src/checker.rs:164-199 | the in-order step of one queue pair, all others untouched, effects in order |
| `PacketChecker.PacketCheckerContext.CreateMap` | rust_driver/src/checker.rs:586-597 | the window of a context that is open when the first gap is seen |
| `PacketChecker.PacketCheckerContext.EnterQpErrorStatus` | rust_driver/src/checker.rs:338-359 | every open context of the queue pair gets its window, whatever order the map is walked in |
| `PacketChecker.PacketCheckerContext.CheckCompletedAndTryRecover` | rust_driver/src/checker.rs:283-335 | completion, acknowledgement and recovery of one message, and nothing for an MSN without a context |
| `PacketChecker.PacketCheckerContext.HandleMiddleOrLast` | rust_driver/src/checker.rs:244-279 | a Middle or Last packet of an open message updates its window, then completion is checked |
| `PacketChecker.PacketCheckerContext.HandleQpOoo` | rust_driver/src/checker.rs:225-281 | the out-of-order step of one queue pair, with its panic cases |
| `PacketChecker.PacketCheckerContext.HandleCheckEvent` | rust_driver/src/checker.rs:95-162 | one event takes exactly the step of the value-level checker and touches no other queue pair |
| `CheckerRuns.RangeSound` | rust_driver/src/checker.rs:791-795 | the range between watermark and expected PSN adds only received packets to a window |
| `CheckerRuns.PacketSound` | rust_driver/src/checker.rs:244-256 | a received PSN within half the circle keeps a window sound |
| `CheckerRuns.FreshWindowSound` | rust_driver/src/checker.rs:573-597 | a window created on a received prefix is sound |
| `CheckerRuns.CompletionSound` | rust_driver/src/checker.rs:283-310 | a sound window never panics, and if it is complete the whole message has arrived |
| `CheckerRuns.EnteredReady` | rust_driver/src/checker.rs:338-359 | entering the error status establishes everything the out-of-order handler relies on |
| `CheckerRuns.StepSound` | rust_driver/src/checker.rs:95-122 | every admissible step of checker and card keeps the invariant, does not panic and acknowledges only complete messages |
| `CheckerRuns.MarkIsMaximum` | rust_driver/src/checker.rs:432-436 | a reported packet within 2^23 of the watermark leaves it at the larger of the two, as unbounded numbers |
| `CheckerRuns.AckSoundness` | rust_driver/src/checker.rs:95-122 | over every admissible run an acknowledgement is sent only when every packet of its message has arrived |
| `CheckerAcks.InOrderAnswers` | rust_driver/src/checker.rs:164-199 | in order, exactly the last packet of a message is answered: acknowledged once unless the card did it or it answers a read, the user woken for a read, the retries of a longer write ended, and nothing else |
| `CheckerAcks.OnlyAnswers` | rust_driver/src/checker.rs:261-271 | a message of one packet is answered in the same way out of order |
| `CheckerAcks.FirstOpensAsSent` | rust_driver/src/checker.rs:168-176 | the first packet of an unknown message opens it, in order and out of order, and its kind, start and length are remembered |
| `CheckerAcks.KnownIsNotOpened` | rust_driver/src/checker.rs:236-243 | the first packet of a known message changes no context |
| `CheckerAcks.RecordedCover` | rust_driver/src/checker.rs:244-253 | what a window covers after a packet: what it covered, the range before the packet, and the packet, and nothing else |
| `CheckerAcks.CompletesIff` | rust_driver/src/checker.rs:244-310 | the packet completes the message if and only if all its offsets are then filled and the next is not |
| `CheckerAcks.OutOfOrderAnswersIff` | rust_driver/src/checker.rs:244-310 | the packet is then acknowledged exactly once, with the last PSN of the message, or wakes the user of a read, and otherwise neither |
| `CheckerAcks.GapReportedIff` | rust_driver/src/checker.rs:253-255 | a gap is reported exactly when the window has a hole, as the two numbers that lie just beside the last hole |
| `CheckerAcks.RecoverRequestedIff` | rust_driver/src/checker.rs:312-334 | recovery is asked for exactly when at most one message is open, its window has no hole or is complete, and what it misses first follows the watermark |
| `CheckerAcks.ControlAnswers` | rust_driver/src/checker.rs:123-161 | what acknowledgements and read requests cause, and that the former leave the queue pair alone |
| `CheckerTaking.EntryCover` | rust_driver/src/checker.rs:586-597 | at the first gap the window of the open message covers all before the expected PSN, the packet, and nothing else |
| `CheckerTaking.AwakeStep` | rust_driver/src/checker.rs:225-281 | with a timely first gap, only packets from the middle of messages are between watermark and expected PSN, and every step is sound |
| `CheckerTaking.KeptStep` | rust_driver/src/checker.rs:225-310 | every step answers an open message once, or leaves it open with everything taken in that the packet brought |
| `CheckerLiveness.ClosedStep` | rust_driver/src/checker.rs:236-259 | an answered message is not answered again, whatever arrives |
| `CheckerLiveness.AckCompleteness` | rust_driver/src/checker.rs:95-122 | over every run of a valid stream with a timely first gap, a message that is opened is answered at most once, and exactly once if all of it is taken in |
| `CheckerLiveness.LoneMessageAnsweredIff` | rust_driver/src/checker.rs:95-122 | a message below 2^23 whose first packet comes first, the others in any order and number, is answered exactly once if every packet arrives and not at all otherwise |
| `CheckerLiveness.InOrderAnswered` | rust_driver/src/checker.rs:164-199 | received in order, every message of a stream is answered exactly once, at its last packet |
| `CheckerStuck.NextMessageSticks` | rust_driver/src/checker.rs:338-359 | when the first gap is seen with the packet right after the open message, its window takes that packet in |
| `CheckerStuck.StuckForever` | rust_driver/src/checker.rs:283-310 | such a message is not acknowledged by any sequence of events that spares its slot |
| `CheckerStuck.HighGap` | rust_driver/src/checker.rs:471-482 | in a message beyond 2^23 every gap leaves the watermark 0 and the packet after the gap not taken in |
| `CheckerStuck.HighIsNotAnswered` | rust_driver/src/checker.rs:244-256 | then the message is not answered in any run in which that packet arrives only as expected |
| `CheckerPanics.OutOfOrderNeverPanics` | rust_driver/src/checker.rs:225-335 | any event at all, on a table whose open contexts have good windows, is handled without panic and leaves such a table |
| `CheckerPanics.PanicFreedom` | rust_driver/src/checker.rs:95-359 | over every run that keeps the card's contract while packets are in order, no step panics, an out-of-order state has its table, and every open context has a window that is well formed and covers offset 0 |
| `CheckerPanics.StreamPanicFreedom` | rust_driver/src/checker.rs:338-359 | the same for every run over every valid stream, wherever it lies, and in order at most one context is open, as the assertion on entering the error status says |
| `CheckerWindows.PacedInFlight` | rust_driver/src/types.rs:212-217 | a packet near the expected PSN is near enough to the watermark, in every tracked state |
| `CheckerWindows.EntryMark` | rust_driver/src/checker.rs:432-436 | the watermark after the first gap: the PSN received, or the next multiple of 2^24 when there is a table and the PSN is at or beyond 2^23 |
| `CheckerWindows.WindowedAckSoundness` | rust_driver/src/checker.rs:95-122 | for disjoint messages and runs of any length, packets within a window of the expected PSN and no first gap, with a table, in the window from 2^23 on: acknowledgements are sound |
| `CheckerStreams.CrossesHalfIff` | rust_driver/src/types.rs:212-217 | a stream crosses 2^23 exactly when its ends are nearest to different multiples of 2^24 |
| `CheckerCrossing.TameAfterRange` | rust_driver/src/checker.rs:244-256 | a range from a stale watermark makes the window of a message that ends before it cover one offset too many, or adds nothing to the message |
| `CheckerCrossing.StaleStep` | rust_driver/src/checker.rs:225-281 | with a stale watermark every step is sound, if long messages end below 2^23, and the state stays such |
| `CheckerCrossing.HarmlessStream` | rust_driver/src/checker.rs:95-122 | every run over a stream that does not cross 2^23, or whose long messages end below it, is sound |
| `CheckerBoundary.ReachInOrder` | rust_driver/src/checker.rs:164-199 | received in order, any stream keeps one context at most, and the MSN of the next message is free |
| `CheckerBoundary.LostMiddleIsUnsound` | rust_driver/src/checker.rs:471-482 | for every long message that ends at or beyond 2^23 in a crossing stream, a run in which it is acknowledged although only its first and last packet have arrived |
| `CheckerBoundary.StreamAckSoundIff` | rust_driver/src/checker.rs:95-122 | all runs over messages that tile fewer than 2^23 PSNs are sound if and only if the stream does not cross 2^23 or no message of three packets or more ends at or beyond it |
| `CheckerDuplicates.FinishedStep` | rust_driver/src/checker.rs:236-259 | a finished message stays finished and its duplicates have no effect, until its slot is taken |
| `CheckerDuplicates.DuplicatesSuppressed` | rust_driver/src/checker.rs:443-463 | the same over every sequence of events |
| `CheckerDuplicates.CompletionFinishes` | rust_driver/src/checker.rs:301-310 | an acknowledged message is finished |
| `CheckerDuplicates.OnlyFinishes` | rust_driver/src/checker.rs:185-197 | a message of one packet is finished by it, in order and out of order |
| `PacketLength.GetFirstPacketMaxLength` | rust_driver/src/utils.rs:22-28 | a positive length that ends on the next multiple of the path MTU |
| `SgList.SGList.Cut` | rust_driver/src/device/software/types.rs:449-474 | succeeds exactly when a level is left and the rest is long enough; the payload followed by the new rest is the old rest |
| `SgList.SGList.CutAllLevels` | rust_driver/src/device/software/types.rs:476-486 | the payload is the flattened list and nothing is left |
| `Transmit.SegmentsCount` | rust_driver/src/utils.rs:31-36 | the packet count equals the number of packets a descriptor is cut into |
| `Transmit.SegmentsPsn` | rust_driver/src/device/software/logic.rs:219-277 | packet i carries the i-th PSN after the first |
| `Transmit.SegmentsSplit` | rust_driver/src/device/software/logic.rs:219-277 | cutting at a multiple of the path MTU and continuing the PSNs gives the same packets |
| `Transmit.SendWriteOnlyPacket` | rust_driver/src/device/software/logic.rs:115-140 | the one packet carries the whole source, with the opcode that the flags call for |
| `Transmit.SendMany` | rust_driver/src/device/software/logic.rs:219-277 | the loop emits exactly the packets the descriptor means, each with its addresses, PSN, opcode and payload |
| `Transmit.Send` | rust_driver/src/device/software/logic.rs:173-284 | for one or many packets, what is emitted is what the descriptor means |
| `Split.GetFirstScheduleSegmentLength` | rust_driver/src/device/scheduler/mod.rs:352-358 | the first chunk ends on the next multiple of the chunk size |
| `Split.RecalculatePsnCounts` | rust_driver/src/device/scheduler/mod.rs:524-533 | the next PSN is the old one plus the packet count of the chunk |
| `Split.SchedulerSgl.CutFromSgl` | rust_driver/src/device/scheduler/mod.rs:372-411 | the cut part followed by the new rest is the old rest, and has the length asked for |
| `Split.SplitDescriptor` | rust_driver/src/device/scheduler/mod.rs:423-513 | the loop returns the chunks as defined recursively, the first marked first and carrying the whole length, the last marked last |
| `Split.SplitIsOneIff` | rust_driver/src/device/scheduler/mod.rs:430-485 | one descriptor comes out exactly when the length is below the chunk size, or equal to it and aligned, for a first element that holds the message |
| `SplitMeaning.SplitPreserves` | rust_driver/src/device/scheduler/mod.rs:423-513 | the chunks together emit exactly the packets of the descriptor |
| `SplitMeaning.MisalignedDiffers` | rust_driver/src/device/scheduler/mod.rs:352-358 | a chunk size that is not a multiple of the path MTU changes the packets of some message |
| `SplitMeaning.OneByteChunksDiffer` | rust_driver/src/device/scheduler/mod.rs:449-484 | so do chunks of one byte |
| `SplitMeaning.OnePacketChunksDiffer` | rust_driver/src/device/software/types.rs:571-594 | so do chunks of exactly one packet |
| `SplitMeaning.SplitPreservesIff` | rust_driver/src/device/scheduler/mod.rs:423-513 | splitting preserves every whole message if and only if the chunk size is a multiple of the path MTU and larger |
| `Memory.CopyTo` | rust_driver/src/device/software/types.rs:179-188 | the elements end up one after the other, everything else is unchanged |
| `Delivery.Receiver.Recv` | rust_driver/src/device/software/logic.rs:425-443 | memory changes only if the key admits the packet, and the host is told the status in any case |
| `Delivery.RefusalIff` | rust_driver/src/device/software/logic.rs:380-407 | which packets are refused and why: unknown key, then no permission, then out of bounds, and all others are admitted |
| `Delivery.RefusedChangesNothing` | rust_driver/src/device/software/logic.rs:425-443 | a packet whose key names no region open to remote writes changes no byte |
| `Delivery.UnexposedUntouched` | rust_driver/src/device/software/logic.rs:425-443 | over every sequence of packets that announce what they carry, bytes outside all regions open to remote writes keep their value |
| `Delivery.AdmittedStaysInsideIff` | rust_driver/src/device/software/logic.rs:380-407 | an admitted packet writes only inside its region, for all regions, if and only if it announces at least the length it carries and that does not wrap around the address space |
| `Delivery.WrappedPacketLeaves` | rust_driver/src/device/software/logic.rs:398-400 | a packet that announces more than it carries, wraps around, is admitted and writes outside its region |
| `Delivery.LonePacketAnnouncesNothing` | rust_driver/src/device/software/logic.rs:115-140 | a lone packet without a First opcode meets that only when it is empty |
| `Delivery.SegmentSlice` | rust_driver/src/device/software/logic.rs:219-277 | every packet carries a slice of the source to the matching remote addresses |
| `Delivery.SegmentsCover` | rust_driver/src/device/software/logic.rs:219-277 | every byte of the source is in some packet |
| `Delivery.AllAdmitted` | rust_driver/src/device/software/logic.rs:380-407 | every packet of a write into a registered region passes the key check |
| `Delivery.DeliveredBetween` | rust_driver/src/device/software/logic.rs:425-443 | after any sequence of deliveries memory is the old one or the source, byte by byte |
| `Delivery.EndToEnd` | rust_driver/src/device/software/logic.rs:195-278 | the packets of a descriptor, written in any order and any number of times, but each at least once, leave exactly the source bytes at the remote address |
| `Delivery.EndToEndSplit` | rust_driver/src/device/scheduler/mod.rs:423-513 | the same for the packets of the chunks |
| `Delivery.ChunkRegistered` | rust_driver/src/device/scheduler/mod.rs:423-513 | every chunk lies in the region that is registered for the message |
| `Delivery.WriteArrives` | rust_driver/src/device/software/logic.rs:425-443 | for a registered whole message, the packets sent for its chunks are all admitted, and received in any covering order they leave exactly the source bytes |
| `EndToEnd.SenderMeetsChecker` | rust_driver/src/device/software/logic.rs:173-284 | the packets sent for the chunks of a message are those of the receiver's message: number, PSNs, MSN, places, and the length announced by the first, from which the receiver counts |
| `EndToEnd.UserWriteSends` | rust_driver/src/lib.rs:387-435 | the packets of a user's write are plain writes to the named queue pair with its next PSNs, its next MSN and the given key, and the next PSN follows them |
| `EndToEnd.UserWriteArrives` | rust_driver/src/lib.rs:387-435 | what a user writes to an accessible region stands there, byte by byte, once every packet of every chunk has arrived, and nothing else has changed |
| `BitOps.AndLowMask` | rust_driver/src/device/ringbuf.rs:447-463 | a mask of ones is the remainder by a power of two |
| `BitOps.AndBit` | rust_driver/src/device/ringbuf.rs:427-441 | a mask of one bit is the parity of a quotient |
| `RingIndex.AddIsIndex` | rust_driver/src/device/ringbuf.rs:447-453 | moving an index is moving the unbounded counter it stands for |
| `RingIndex.SlotIsIndex` | rust_driver/src/device/ringbuf.rs:460-463 | the slot of an index is the counter modulo the depth |
| `RingIndex.FullIff` | rust_driver/src/device/ringbuf.rs:427-441 | the guard comparison holds exactly when depth elements are between the counters |
| `RingIndex.EmptyIff` | rust_driver/src/device/ringbuf.rs:443-445 | equal indices mean equal counters |
| `RingIndex.SlotsDiffer` | rust_driver/src/device/ringbuf.rs:460-463 | of depth consecutive elements no two share a slot |
| `RingWriter.RingbufWriter.AdvanceHead` | rust_driver/src/device/ringbuf.rs:233-241 | everything written is published and the count restarts |
| `RingWriter.RingbufWriter.NextTimeout` | rust_driver/src/device/ringbuf.rs:185-213 | a slot at once if the cached tail leaves room; else everything is published and the tail is polled until there is room |
| `RingWriter.NextIsRun` | rust_driver/src/device/ringbuf.rs:185-213 | with the register values the card shows, a call is a run of the ring: it places the descriptor or times out, and the slot holds no descriptor the card has not read |
| `RingWriter.StepRefines` | rust_driver/src/device/ringbuf.rs:185-241 | every step of host or card is a step of a FIFO queue, or none |
| `RingWriter.WriterIsFifo` | rust_driver/src/device/ringbuf.rs:185-241 | over every interleaving the card takes what was written, in order, each once, and never more than depth are outstanding |
| `RingWriter.NoMutualWaiting` | rust_driver/src/device/ringbuf.rs:191-206 | a waiting writer has published everything, so a full ring is never empty for the card |
| `RingReader.RingbufReader.AdvanceTail` | rust_driver/src/device/ringbuf.rs:345-352 | everything read is returned and the count restarts |
| `RingReader.RingbufReader.NextTimeout` | rust_driver/src/device/ringbuf.rs:291-322 | a full ring is relieved first; then a slot at once if the cached head shows one, else the head is polled |
| `RingReader.NextIsRun` | rust_driver/src/device/ringbuf.rs:291-322 | with the register values the card shows, a call is a run of the ring: it yields the slot of the oldest descriptor not yet read, or times out |
| `RingReader.StepRefines` | rust_driver/src/device/ringbuf.rs:291-352 | every step of host or card is a step of a FIFO queue, or none |
| `RingReader.ReaderIsFifo` | rust_driver/src/device/ringbuf.rs:291-352 | over every interleaving the host gets what the card wrote, in order, each once, and every slot not yet given back still holds its descriptor |
| `RingReader.GivesBackIff` | rust_driver/src/device/ringbuf.rs:297-299 | asking for the next descriptor gives back slots exactly when some are handed out and the ring was full when its head was last read |
| `RingReader.HeldSlotIsOverwritten` | rust_driver/src/device/ringbuf.rs:297-299 | in that case the card's next descriptor replaces one the caller was handed |
| `RingReader.FullRingIsHeld` | rust_driver/src/device/ringbuf.rs:291-322 | for every depth a run leads to that case |
| `RingReader.NoMutualWaiting` | rust_driver/src/device/ringbuf.rs:297-312 | while the reader waits the card is not blocked by a full ring |
| `RoundRobin.RoundRobinStrategy.Push` | rust_driver/src/device/scheduler/round_robin.rs:38-59 | the descriptors join the list of their queue pair, or a new one at the end |
| `RoundRobin.RoundRobinStrategy.PopBatch` | rust_driver/src/device/scheduler/round_robin.rs:61-84 | up to eight services of the front in turn, fewer only when nothing is left; the rest of the array is empty |
| `RoundRobin.PushedValid` | rust_driver/src/device/scheduler/round_robin.rs:38-59 | queue pairs stay unique and their lists non-empty |
| `RoundRobin.RotatedValid` | rust_driver/src/device/scheduler/round_robin.rs:61-84 | the same after a service |
| `RoundRobin.PerQpOrder` | rust_driver/src/device/scheduler/round_robin.rs:38-84 | for each queue pair, what was served followed by what still waits is what waited followed by what was pushed |
| `RoundRobin.NoOvertaking` | rust_driver/src/device/scheduler/round_robin.rs:61-84 | a queue pair behind another is not served before it |
| `RoundRobin.Fairness` | rust_driver/src/device/scheduler/round_robin.rs:61-84 | between two services of one queue pair every other that waits is served |
| `Pipeline.Device.WriteOrRead` | rust_driver/src/lib.rs:387-435 | fails exactly for an unknown queue pair; a write is the submission step of the pipeline, a read takes one PSN |
| `Pipeline.StepKeepsInv` | rust_driver/src/device/scheduler/mod.rs:203-240 | on every step the packets on the wire, those queued and those pending are together those of what was submitted |
| `Pipeline.StepKeepsPsn` | rust_driver/src/lib.rs:413-424 | on every step the PSNs of all packets of a queue pair, sent or not, are consecutive up to its next PSN |
| `Pipeline.ContiguousPsns` | rust_driver/src/lib.rs:413-424 | over every run the packets of each queue pair leave in submission order with consecutive PSNs |
| `Pipeline.ConsecutiveMsns` | rust_driver/src/qp.rs:85-87 | over every run the submissions of each queue pair carry consecutive MSNs modulo 2^16 |
| `Pipeline.KeysDistinct` | rust_driver/src/lib.rs:425-426 | as long as no queue pair has submitted more than 2^16 operations, no two have the same key |
| `Pipeline.RequestsTake` | rust_driver/src/lib.rs:399-424 | over any sequence of reads and writes each request takes one MSN and as many PSNs as it has packets |
| `Operations.FailureOfSubmitted` | rust_driver/src/lib.rs:441-446 | so, over every run of pipeline and monitor, an operation is failed only when it was resent the maximum of times and waited one more timeout |
| `BitRange.WrittenBit` | rust_driver/src/device/layout.rs:180-184 | clearing and setting one bit of a byte changes that bit only |
| `BitRange.GetBitRange` | rust_driver/src/device/layout.rs:159-173 | the loop reads the number whose digits are the bits of the range |
| `BitRange.SetBitRange` | rust_driver/src/device/layout.rs:176-186 | the loop puts the digits of the value into the range and changes no other bit |
| `BitRange.FieldRoundTrip` | rust_driver/src/device/layout.rs:159-186 | reading a range after writing it gives the value modulo 2^width |
| `BitRange.DisjointField` | rust_driver/src/device/layout.rs:276-303 | writing a range leaves every disjoint range as it was |
| `HeaderBits.WithTopBit` | rust_driver/src/device/software/packet.rs:115-143 | the top bit is set or cleared and the other seven are kept |
| `HeaderBits.WithPadCnt` | rust_driver/src/device/software/packet.rs:124-127 | the two bits below the top are replaced and the others kept |
| `Headers.BthRoundTrip` | rust_driver/src/device/software/packet.rs:63-169 | whatever was in the buffer, the base header reads back: all fields, the QPN modulo 2^24, and the pad count |
| `Headers.RethRoundTrip` | rust_driver/src/device/software/packet.rs:189-218 | address, key and length read back |
| `Headers.AethRoundTrip` | rust_driver/src/device/software/packet.rs:238-258 | value modulo 32 and MSN modulo 2^24 read back; surplus bits of the value fall into the code |
| `Headers.HeaderRoundTrip` | rust_driver/src/device/software/packet_processor.rs:22-131 | for every opcode and every earlier buffer contents the header parses to what it can hold, with the unpadded payload length |
| `Headers.RoundTripIff` | rust_driver/src/device/software/types.rs:243-280 | the metadata comes back unchanged if and only if its numbers fit and it has no part its opcode does not carry |
| `Headers.OpcodesInOrder` | rust_driver/src/device/types.rs:418-430 | the opcodes are numbered from 6 on in the order of the InfiniBand table, and no other number is one |
| `HeaderWriter.SetFromCommonMeta` | rust_driver/src/device/software/packet.rs:157-169 | the setters one after the other write the base header and keep the reserved bits and all other bytes |
| `HeaderWriter.SetFromRethHeader` | rust_driver/src/device/software/packet.rs:213-217 | the sixteen bytes of the request header, nothing else |
| `HeaderWriter.SetAeth` | rust_driver/src/device/software/packet.rs:250-258 | the four bytes of the acknowledge header, nothing else |
| `HeaderWriter.SetFromRdmaMessage` | rust_driver/src/device/software/packet_processor.rs:77-131 | fails exactly when metadata and opcode do not match; else the header stands in the buffer and no byte outside it changed |
| `Icrc.IcrcIgnores` | rust_driver/src/device/software/packet_processor.rs:287-313 | the checksum depends neither on the fields that may change under way nor on the place where it is stored |
| `Icrc.IcrcSeesTheRest` | rust_driver/src/device/software/packet_processor.rs:287-313 | two packets have the same checksum for every checksum function if and only if they agree on all other bytes |
| `Icrc.Fed` | rust_driver/src/device/software/packet_processor.rs:287-313 | the checksum is taken of eight ones and the packet up to the checksum, with ones for the variant bytes |
| `Icrc.ComputeIcrc` | rust_driver/src/device/software/packet_processor.rs:287-313 | the simulator's computation, on overwritten struct fields, is the specified checksum |
| `Icrc.CalculateIcrc` | rust_driver/src/responser.rs:293-316 | the responder's computation, on bit ranges set to ones, is the same checksum |
| `Icrc.IsIcrcValid` | rust_driver/src/device/software/packet_processor.rs:353-365 | true exactly when the stored value is the checksum of the packet; the stored value is left zero |
| `PacketWriter.GetPadCnt` | rust_driver/src/device/software/types.rs:156-163 | fewer than four bytes that fill the payload up to a multiple of four |
| `PacketWriter.CopyPayload` | rust_driver/src/device/software/packet_processor.rs:237-246 | the payload stands behind the header, and nothing else changes |
| `PacketWriter.WriteIpUdpHeader` | rust_driver/src/device/software/packet_processor.rs:319-346 | all 28 bytes of the network headers, nothing else |
| `PacketWriter.RouteReadsBack` | rust_driver/src/device/software/packet_processor.rs:319-346 | a router reads version, lengths, identification, lifetime, protocol, addresses and ports as they were given |
| `PacketWriter.Write` | rust_driver/src/device/software/packet_processor.rs:217-277 | each error in exactly its case, with nothing changed behind the payload; otherwise the whole packet, byte by byte, and nothing behind it |
| `PacketWriter.ObstacleIff` | rust_driver/src/device/software/packet_processor.rs:217-277 | exactly when a packet comes out, and exactly which missing part each error names |
| `PacketWriter.SentIsReceived` | rust_driver/src/device/software/net_agent/udp_agent.rs:94-127 | every written packet is accepted and delivers the payload and what the header can hold, all of the metadata exactly when it fits |
| `PacketWriter.ChecksumSeesMessage` | rust_driver/src/device/software/packet_processor.rs:287-313 | packets of which the checksum sees the same deliver the same metadata and payload |
| `PacketWriter.Receive` | rust_driver/src/device/software/net_agent/udp_agent.rs:94-127 | a datagram is delivered exactly when it is long enough, its checksum is right and it parses |
| `Checksum.Fold` | rust_driver/src/responser.rs:342-344 | folding ends with 16 bits, keeps the remainder by 65535 and gives zero only for zero |
| `Checksum.CalculateIpv4Checksum` | rust_driver/src/responser.rs:330-347 | panics exactly for fewer than 19 bytes; otherwise both loops together give the complement of the folded sum |
| `Checksum.VerifiesIff` | rust_driver/src/responser.rs:330-347 | a header verifies exactly when its field holds the checksum, or the other zero |
| `Checksum.StoredVerifies` | rust_driver/src/responser.rs:330-347 | storing the checksum makes the header verify |
| `Checksum.OneWordIsSeen` | rust_driver/src/responser.rs:330-347 | headers that differ in one word have different checksums, unless the words are the two zeros |
| `Retry.RetryMonitor.AddRecord` | rust_driver/src/retry.rs:62-81 | a new key gets a full budget and a deadline; a present key changes nothing and is reported |
| `Retry.RetryMonitor.CancelRecord` | rust_driver/src/retry.rs:83-86 | the key is gone, and it is reported if it was not there |
| `Retry.RetryMonitor.CheckTimeout` | rust_driver/src/retry.rs:241-275 | one check is a run of the step system: snapshot, one visit per entry, clean-up |
| `Retry.StepKeeps` | rust_driver/src/retry.rs:241-275 | every step of monitor or other threads keeps budgets, pacing and the single failure of a context |
| `Retry.NeverStuck` | rust_driver/src/retry.rs:241-275 | a check in progress can always go on, whatever other threads did |
| `Retry.ChecksOnTime` | rust_driver/src/retry.rs:241-275 | a check serves every context in the map, whatever other threads do: resent exactly once if the timeout has passed and retries are left, failed exactly if it has passed and none is left |
| `Retry.StaysUntilSpent` | rust_driver/src/retry.rs:271-275 | an operation stays in the map until it is cancelled or its retries are used up |
| `Retry.CancelledIsLeftAlone` | rust_driver/src/retry.rs:83-86 | an operation cancelled between checks is neither resent nor failed by any later check |
| `Retry.RetryBudget` | rust_driver/src/retry.rs:62-81 | over every run, for every context: resends plus remaining budget is the maximum, and resends are at least the timeout apart, whatever the clock does |
| `Retry.FailureIsEarned` | rust_driver/src/retry.rs:259-268 | a context is failed only after exactly the maximum of resends and one more timeout, at most once, and is then out of the map |
| `Retry.VisitsAnotherIff` | rust_driver/src/retry.rs:244-270 | for the map alone: the visited context is not the one its key leads to now exactly when that one was added after the check began |
| `Retry.AddsSucceed` | rust_driver/src/lib.rs:441-446 | if no key is added twice, every added operation gets its own context |
| `Retry.FailedOperationIsExhausted` | rust_driver/src/retry.rs:259-268 | then a failure under a key means that the one operation ever added under it was resent exactly the maximum of times and waited one more timeout |

## Left out

- CheckerRuns.AckSoundness: asks that arrivals are near the watermark; CheckerWindows.WindowedAckSoundness puts it in terms of the expected PSN, and CheckerPanics needs no such condition.
- CheckerWindows.WindowedAckSoundness: one way only; the exact condition is proved for streams of fewer than 2^23 packets (CheckerBoundary.StreamAckSoundIff), not for unbounded ones.
- Read responses and recovery completions in the runs of the checker: they share keys with the peer's writes, and the control poller drops recovery completions.
- PacketChecker.PacketCheckerContext.HandleCheckEvent: a negative acknowledgement is an effect that names the part asked for; cutting that part out of the descriptor (`get_descritpor`) is left out.
- PacketChecker.PacketCheckerContext.CheckCompletedAndTryRecover: windows are values inside the contexts, taken out, updated as an object and put back, so sharing of a window between contexts is not modelled.
- CheckerLiveness.AckCompleteness: one way; the first gap must not be seen with a late packet of an earlier message, with the packet right after the open message, or, with a table, at or beyond 2^23. That the latter two are needed is proved in CheckerStuck.
- CheckerLiveness.LoneMessageAnsweredIff: messages below 2^23; beyond it CheckerStuck.HighIsNotAnswered applies, and messages of up to four packets there are not treated.
- Transmit.Send: read and raw descriptors are left out, they send one packet each; `reth.len` of packets after the first is stated as the code computes it and not compared across splitting.
- Split.SplitDescriptor: asks that the first element holds the whole length, since the code splits that element only; read descriptors are returned unsplit by the code and are left out.
- Pipeline.ContiguousPsns: one submitting thread per queue pair, no retries, reads or raw packets.
- RingWriter.WriterIsFifo: failing register writes and time-outs by the wall clock are left out; a poll sequence of any length stands for the waiting loop.
- RingReader.ReaderIsFifo: the reader that polls descriptors instead of registers is left out.
- RoundRobin.RoundRobinStrategy.PopBatch: lock poisoning is left out.
- Headers.HeaderRoundTrip: buffers too short for the header their opcode calls for are excluded, as the unchecked casts of the code demand.
- PacketWriter.Write: which of the bytes up to the end of the payload a failed call has changed is not stated; the builder's setters only store their argument and are left out.
- PacketWriter.Receive: datagrams too short for the header of their opcode are excluded, as the unchecked casts of the code demand.
- Delivery.EndToEnd: packets are written without the key check here; the key check comes in with Delivery.WriteArrives.
- Delivery.EndToEndSplit: the same.
- Delivery.Receiver.Recv: read requests and acknowledgements, which touch no memory, are left out.
- Pipeline.Device.WriteOrRead: the insertions into the operation map and the retry map are left out; what their order gives is used in Retry.FailedOperationIsExhausted.
- Icrc.ComputeIcrc: packets shorter than 44 bytes are excluded, the code panics on them.
- Retry.RetryMonitor.CheckTimeout: contexts are numbered values instead of shared locked objects; errors of the descriptor sender are only logged by the code and are left out.
- Retry.FailureIsEarned: no converse, since the clean-up also drops exhausted entries that still wait for their last timeout.
- The memory-region page table, the address resolver, the kernel driver, sockets, RPC, CSR access, command-line tools and tests.
