# Verified model of Zao's transfer, relay, mesh and STUN logic

Zao is a peer-to-peer messenger with resumable file transfer. This project models, in Dafny,
the parts of it whose correctness depends on orderings, crashes and byte formats, and proves
what those parts promise:

* **Chunked transfer.** A file is cut into chunks of a fixed size (a parameter `c > 0` here),
  sent by up to six workers, and written by the receiver at each chunk's own offset.
  `ChunkGeometry` is the arithmetic and the file operations, `TransferHandle` the in-memory
  handle with its byte counter, `Receiver` accepting and writing chunks with any number of
  handlers at once, `ReceiverCalls` its whole calls and the code itself, `CompletionRaces` and
  `ReAcceptance` how often completion is reported and what a second acceptance keeps,
  `SenderRuns` the offer, its replies, the sending runs, auto-resume passes and crashes,
  `ResumePasses` and `SenderTraces` what a pass finds and what a rejection leaves possible,
  `Registration` which run the map of outgoing transfers holds,
  `SenderLoop` the pause/cancel/permit loop, `Storage` the tables that survive a restart,
  `StoredTransfers` the tie between them and the sender and receiver, `FolderWalk` the folder
  send, and `Framing` the two wire formats. `EndToEnd` puts sender, channel and receiver
  together.
* **Relay handshake and the Noise counter.** `RelayHandshake` is two endpoints joined by FIFO
  queues, with the waiter that collects frames during the handshake; `RelayDelivery` says which
  application frames reach the session. `NoiseChannel` is an ideal cipher with the receive
  counter of section 5.1 of the Noise Protocol Framework.
* **BLE mesh.** `BleReassembly` cuts messages into fragments and puts them together again,
  `BleSeenCache` is the bounded cache of seen ids, `BleMesh` frames, sends and delivers
  messages at one node and over a network of nodes, `BleMeshHistory` with any ids.
* **STUN.** `StunClient` builds the binding request and parses the response of RFC 5389
  against a serialiser.

Code that changes state is modelled by methods and classes proved against functions
(`TransferReceiver.HandleIncomingChunk` against `Handle`, for instance); runs, interleavings
and crashes are state machines over those functions. A chunk handler exists in both forms:
`HandleIsItsMicroSteps` ties the whole call to its interleavable steps. Multiples of `c` are
written as repeated addition; `OffsetIsProduct` and `NumChunksIsDivCeil` show that they are
the products and quotients of the code.

Where the code does not do what its comments say, the model follows the code, shows a run in
which the promise fails, and states when it holds:

* Accepting an offer again after a restart truncates the destination but trusts the old
  manifest (`ReAcceptLosesChunk`); what then survives is exact (`ReAcceptKeepsContentIff`).
  This takes a manifest, hence a row, which the receiver gets only if the offer's message is in
  its database. Both clients pass an id there that nothing on the receiving side inserts
  (android/app/src/main/kotlin/com/zao/p2p/chat/ChatActivity.kt:651-658,
  windows/ui/index.html:687-694); then nothing is recorded, and what does not happen is the
  resume: every acceptance starts afresh (`UnknownMessageStartsAfresh`), safely
  (`RowlessReAcceptIsSafe`).
* A rejected offer leaves its row `queued`, so the next reconnect sends the whole file
  (`RejectedTransferIsResumed`, `UnacceptedStaysQueued`); an auto-resume pass that listed a
  transfer before its run was cancelled can resume the cancelled row
  (`StalePassResumesCancelledRow`). When a pass resumes a terminal row is exact
  (`StartedPass`), and so is what the registration test prevents (`RegisteredIff`,
  `CheckWhileRegistered`, `QuietListingResumesOpenRow`).
* A dropped connection is meant to be made up for by the auto-resume of the next one
  (core/src/connection_manager.rs:810-818). But the run it interrupts leaves its entry in the
  map, where the registration test finds it, so until a restart no reconnect resumes the
  transfer (`InterruptionAborts`, `ReconnectsDoNotResume`, `InterruptedUntilRestart`).
* Chunk handlers running beside each other can each report completion
  (`OverlappingHandlersCompleteTwice`); exactly when is `ReportedTwiceIff` and
  `SecondReportPossibleIff`. One at a time they report it once (`CompletesExactlyOnce`).
* An ack inserts its index, releases the lock, and only then adds to the counter, so a
  completed row can be recorded with fewer bytes than the total (`CompletedRowCanFallShort`);
  by how much is exact (`RecordedBytes`).
* An empty file has no chunks and is never completed by its sender; one stray chunk completes
  it (`EmptyFileCompletesIff`).
* A sender counts a chunk as acked when its message was put on the stream channel; the claims
  about the sender say "enqueued" for that reason.
* A resumed handle's counter charges a full chunk for a short last one; the drift is exact
  (`ChargedIsAckedPlusDrift`, `CounterTracksAckedBytes`).
* A cancel during a pause still lets the outgoing loop spawn one task (`OneTaskSlipsThrough`,
  `CancelWhilePaused`).
* Streams share one Noise counter and encrypt before they write, so one exchanged or lost
  ciphertext silences the session (`ExchangedPairSilencesSession`,
  `LostCiphertextSilencesSession`, `OvertakenStreamStops`).
* The relay waiter is removed only after the handshake's last check, so it can swallow the
  peer's first application frame, after which nothing opens (`FirstFrameCanBeSwallowed`,
  `LostFirstFrameSilencesSession`). Which frames arrive is exact (`ReceivedIff`,
  `NothingLostIff`), and a sender that has been answered need not fear it
  (`AnsweredSenderIsHeard`). Senders encrypt under the session's lock and hand their
  ciphertexts to the relay without it, so two of them can hand over in the other order, and
  then only the first opens (`HandedOverOutOfOrder`, `EverythingOpensIff`).
* A repeated BLE fragment that comes after its message was complete starts a buffer that
  corrupts the next message with as many fragments (`LateRepeatSpoilsNextMessage`,
  `StaleFragmentsCorruptIff`).
* A received BLE message is not relayed: its id is recorded before the relay asks whether it
  was seen (`ReceivedIsNeverRelayed`), unless at least 500 distinct other ids are recorded in
  between (`RelayWritesIff`). So a message travels one hop, and never more than its budget.
* The files of a folder are created in the database under message ids that are never inserted,
  so they have no row and are never resumed (`UnknownMessageLeavesNoRow`,
  `RowlessIsNeverResumed`).

## Model

| member | source | states |
|---|---|---|
| Framing.ByteReader.ReadExact | core/src/transfer.rs:268-276 | reading n bytes takes exactly the next n, or fails when the stream is shorter |
| Framing.ReadFrame | core/src/transfer.rs:268-284 | the chunk-frame reader returns the frame at the front of the stream and leaves what is behind it, or fails at end of stream |
| Framing.FrameRoundTrips | core/src/transfer.rs:259-284 | an encoded frame is read back, rest of the stream untouched, if and only if its payload is under 2^32 bytes |
| Framing.AcceptedFrameIsCanonical | core/src/transfer.rs:259-284 | any bytes read as a frame are that frame's encoding |
| Framing.FrameStreamRoundTrips | core/src/transfer.rs:259-284 | any list of frames, concatenated, is read back as that list with nothing left over |
| Framing.ReadFramed | core/src/connection_manager.rs:1832-1849 | a length over MAX_FRAME is refused with only the length consumed; otherwise the body is returned or end of stream reported |
| Framing.FramedRoundTrips | core/src/connection_manager.rs:1825-1849 | a length-prefixed frame is read back if and only if it is at most MAX_FRAME bytes; a larger one is refused before its body |
| Framing.ReadLoop | core/src/connection_manager.rs:841-849 | the reader loop delivers the frames in front of the first failed read |
| Framing.ReaderDeliversUpToOversized | core/src/connection_manager.rs:1825-1849 | of any list of written frames a reader gets exactly those before the first oversized one, all of them if and only if none is oversized |
| Bytes.LEWeights | core/src/transfer.rs:259-284 | in the integers of both formats each byte weighs 256 times the one before it |
| ChunkGeometry.OffsetIsProduct | core/src/transfer.rs:321 | the offset of chunk i is i * CHUNK_SIZE |
| ChunkGeometry.NumChunksIsDivCeil | core/src/transfer.rs:85 | the chunk count is total.div_ceil(CHUNK_SIZE) |
| ChunkGeometry.IndexInRange | core/src/transfer.rs:320-347 | the indices below the count are those whose offset is inside the file; their chunks are non-empty, inside the file, and full except the last |
| ChunkGeometry.OffsetFitsU64 | core/src/transfer.rs:321 | no chunk offset of a u64-sized file overflows u64 |
| ChunkGeometry.EveryByteInOneChunk | core/src/transfer.rs:320-347 | every byte of the file belongs to exactly one chunk |
| ChunkGeometry.WriteAtBytes | core/src/transfer.rs:357-372 | seek and write, byte by byte: what is written is there, all else is as it was, a gap is zeros |
| ChunkGeometry.ChunksPartitionFile | core/src/transfer.rs:320-347 | the chunks joined in order are the file, and their lengths sum to its length |
| ChunkGeometry.WriteChunkReadChunk | core/src/transfer.rs:362-372 | a chunk written at its offset reads back, and every other chunk and the length stay |
| ChunkGeometry.EqualChunksEqualFiles | core/src/transfer.rs:357-372 | files of one length that agree on every chunk are equal |
| TransferHandle.TransferHandle.constructor | core/src/transfer.rs:84-100 | a new handle has nothing acked and a counter of 0 |
| TransferHandle.TransferHandle.ResumeFromManifest | core/src/transfer.rs:106-120 | a resumed handle holds the manifest, its counter charging a whole chunk per index, in u64, capped at the total |
| TransferHandle.TransferHandle.PendingChunkIndices | core/src/transfer.rs:153-158 | the filter loop returns exactly the pending indices, ascending |
| TransferHandle.TransferHandle.InsertAcked | core/src/transfer.rs:163-165 | the first critical section of an ack: the index is in the set, and whether it was new is returned |
| TransferHandle.TransferHandle.AddBytes | core/src/transfer.rs:166-170 | the second, entered after the lock is released: the length is added to the counter in u64 |
| TransferHandle.TransferHandle.MarkChunkAcked | core/src/transfer.rs:162-173 | the two together: a first ack adds the index and its length, a repeated one changes nothing (`Receiver` interleaves them) |
| TransferHandle.Pending | core/src/transfer.rs:153-158 | the pending indices are those in range and not acked, strictly ascending |
| TransferHandle.PendingPartitions | core/src/transfer.rs:153-158 | pending and in-range acked indices add up to the chunk count |
| TransferHandle.NothingPending | core/src/transfer.rs:153-158 | nothing is pending if and only if every index in range is acked |
| TransferHandle.ChargedIsAckedPlusDrift | core/src/ffi.rs:894-897 | the polled estimate exceeds the acked bytes by exactly the drift (what a short last chunk lacks, when it is acked while another is pending, else 0) if and only if the product fits u64; else it understates a complete set |
| TransferHandle.MarkKeepsDrift | core/src/transfer.rs:162-173 | an ack of a true-length chunk keeps the counter's distance from the acked bytes, modulo 2^64 |
| TransferHandle.CounterModulo | core/src/transfer.rs:106-173 | after any acks, for every size, a resumed counter keeps modulo 2^64 the distance from the acked bytes it started with |
| TransferHandle.CounterTracksAckedBytes | core/src/transfer.rs:106-173 | it is the acked bytes plus the manifest's drift, hence below total + c, if and only if neither the product it started from nor that sum leaves u64 |
| TransferHandle.FreshCounterIsExact | core/src/transfer.rs:84-173 | on a fresh handle the counter is the acked bytes, monotone, at most the total, and the total exactly when nothing is pending |
| TransferHandle.EstimateAgainstCounter | core/src/ffi.rs:894-897 | the polled estimate and the in-memory counter differ by exactly the two drifts, with the exact condition under which u64 lets them |
| ReceiverCalls.TransferReceiver.AcceptFile | core/src/connection_manager.rs:1563-1619 | accepting truncates to zeros of the offered size, rebuilds the handle from the manifest, and leaves a row exactly if there was one or the offer's message is known |
| ReceiverCalls.TransferReceiver.HandleTransferComplete | core/src/connection_manager.rs:940-943 | the peer's completion message takes the transfer off the list and is reported, whatever is pending |
| ReceiverCalls.TransferReceiver.HandleIncomingChunk | core/src/connection_manager.rs:1019-1099 | the chunk handler does exactly `Handle`, dropping corrupted or unknown chunks and stopping at a failed write |
| ReceiverCalls.HandleIsItsMicroSteps | core/src/connection_manager.rs:1019-1099 | a whole handler call is its interleavable steps run to the end, for every choice of failing operations and whatever other handlers are in the middle of |
| ReceiverCalls.CallsAreARun | core/src/connection_manager.rs:1019-1099 | any sequence of whole calls is a run of the interleaved machine, without a crash and with the same messages |
| Receiver.EveryAcceptanceIsSafe | core/src/connection_manager.rs:1019-1099 | in every run of one acceptance, with any order, repeats, losses, corruption, overlapping handlers, completion messages from the peer, failures and a crash, with a row or without: manifest within acked, each acked slice on disk, file length kept; counter plus what handlers between inserting and counting owe it equal to the acked bytes; and nothing pending, or a completed row or a handler's report, means the destination is the source; without a row nothing is recorded |
| Receiver.RowStays | core/src/storage.rs:322-344 | a run neither makes nor loses a row, and without one changes neither manifest nor completion |
| Receiver.RecordedBytes | core/src/connection_manager.rs:1079-1086 | in every run with a row, a completed row is recorded with the total less what is owed, so with less than the total if and only if some handler is between inserting and counting |
| Receiver.RegisteredUntilRemoved | core/src/connection_manager.rs:940-1098 | in every run a transfer stays registered until a completion message of the peer, a crash, or a handler that found nothing pending takes it off the list |
| Receiver.UnregisteredAdmitsNothing | core/src/connection_manager.rs:1019-1043 | from then on no arriving chunk is admitted and no handler started |
| Receiver.PeerReportsAreMessages | core/src/connection_manager.rs:940-943 | in every run the peer's completion messages are reported once each, whatever is pending |
| CompletionRaces.CompletedRowCanFallShort | core/src/connection_manager.rs:1079-1086 | for every non-empty file there is a run whose completed row is recorded with no bytes |
| ReceiverCalls.EveryChunkDelivered | core/src/connection_manager.rs:1019-1099 | when every chunk of a non-empty file arrives intact and is written, in any order amid anything else, the destination is the source and completion was reported once |
| ReceiverCalls.HandledIsRecorded | core/src/connection_manager.rs:1050-1090 | with a row, when database writes succeed, the manifest is the acked set and the row is completed, with the bytes counted, exactly when completion was reported |
| ReceiverCalls.CompletesExactlyOnce | core/src/connection_manager.rs:1066-1098 | with one handler at a time, from any registered state and on any chunk messages, the handlers report completion once, exactly when some intact chunk was written and nothing is pending any more |
| ReceiverCalls.EmptyFileCompletesIff | core/src/connection_manager.rs:1074-1098 | an empty file is reported complete if and only if some self-consistent chunk, of any index, arrives and is written |
| ReceiverCalls.EmptyFileNeedsStrayChunk | core/src/connection_manager.rs:1074-1098 | so never on a sender's own messages, and by one stray chunk |
| CompletionRaces.ReportsArePasses | core/src/connection_manager.rs:1074-1098 | without a crash, reports made and on their way are the checks that found nothing pending; a crash can only lose some |
| CompletionRaces.ReportedTwiceIff | core/src/connection_manager.rs:1019-1099 | a transfer is reported more than once if and only if some handler makes its check after the first one that found nothing pending |
| CompletionRaces.LaterCheckRaces | core/src/connection_manager.rs:1019-1099 | and that handler was there, before its own check, at the first, or was admitted later and before the removal |
| CompletionRaces.SecondReportPossibleIff | core/src/connection_manager.rs:1074-1098 | once off the list with nothing pending, a second report is possible if and only if reports made and unfinished handlers make two |
| CompletionRaces.AllCanReport | core/src/connection_manager.rs:1074-1098 | and then every unfinished handler can report |
| CompletionRaces.OverlappingHandlersCompleteTwice | core/src/connection_manager.rs:1074-1098 | for every non-empty file there is a run of genuine messages, with one repeated chunk, that reports completion once per chunk and once more |
| ReAcceptance.ReAcceptKeepsContentIff | core/src/connection_manager.rs:1563-1589 | in every run after a further acceptance, chunks of the old manifest arriving again included: once nothing is pending the destination is the source if and only if every chunk of the manifest that no handler wrote again is all zeros |
| ReAcceptance.UnsentStaysStale | core/src/connection_manager.rs:1563-1589 | a chunk of the manifest that does not arrive again is not written again |
| ReAcceptance.ReAcceptLosesChunk | core/src/connection_manager.rs:1563-1619 | if the offer's message is known, so that there is a row: for every file of several chunks with a first one not all zeros, first chunk, crash, second acceptance, the other chunks, and the transfer is reported and recorded completed with the destination unlike the source |
| ReAcceptance.UnknownMessageStartsAfresh | core/src/connection_manager.rs:1593-1611 | if it is not known, the manifest stays empty in every run, and every acceptance starts from an empty acked set and a zeroed file |
| ReAcceptance.RowlessReAcceptIsSafe | core/src/connection_manager.rs:1563-1619 | and after such a run and a crash, a second acceptance with nothing pending has the source as destination |
| SenderRuns.EveryRunIsSafe | core/src/connection_manager.rs:1448-1557 | in every run with crashes, passes and overlapping runs: manifest and acked sets within the enqueued chunks, and a completed row only after all were enqueued |
| SenderRuns.FirstReplyDecides | core/src/connection_manager.rs:969-990 | under any replies and timeouts the first reply is the decision, and without a resume nothing is enqueued unless it was an accept |
| SenderRuns.CompletedMeansNothingPending | core/src/connection_manager.rs:1448-1557 | a run about to record completed has nothing pending |
| SenderRuns.ExclusivePassesResumeOpenRows | core/src/connection_manager.rs:1361-1446 | when busy runs and passes never overlap: the manifest is within the acked set of the run at work, and a pass starts from an open row and the whole manifest |
| ResumePasses.StartedPass | core/src/connection_manager.rs:1361-1446 | with any overlap of passes, runs and crashes: a pass that comes to start its run was listed when the row was open and found nothing registered at its check; the row is terminal if and only if a final state was written between its listing and its start |
| ResumePasses.TerminalIffRecorded | core/src/connection_manager.rs:1546-1553 | a row open at some moment is terminal later if and only if a final state was written since |
| ResumePasses.RegisteredIsNotResumed | core/src/connection_manager.rs:1379-1381 | a pass whose check finds the transfer registered never starts, whatever follows short of a crash |
| ResumePasses.QuietListingResumesOpenRow | core/src/connection_manager.rs:1361-1446 | with any overlap, a terminal row at the start was written by a run that was busy at the listing or that another pass started since; with neither, the row is open |
| ResumePasses.HandlesMissOnlyOthers | core/src/connection_manager.rs:1361-1557 | with any overlap, what the manifest holds beyond a run's handle, or beyond what a pass has loaded, was recorded by another run of the same process |
| Registration.RegisteredIff | core/src/connection_manager.rs:1174-1181 | in every run of the system the map holds run k if and only if k was the last to be put there, by its offer or by the start of its pass, and no reject, timeout, end of a run or crash has removed the entry since |
| Registration.CheckWhileRegistered | core/src/connection_manager.rs:1379-1435 | a pass that checks while that is so never starts a second run, whatever follows short of a crash |
| Registration.CancelReachesRegistered | core/src/connection_manager.rs:944-955 | a cancel sets the flag of the run so registered and of no other |
| Registration.CancelledWhileRegistered | core/src/connection_manager.rs:1530-1553 | and whatever overlaps that run from then on, the final state it writes, if any, is cancelled |
| Registration.EveryRejectRemovesOnce | core/src/connection_manager.rs:980-990 | without a crash, rejects are the removals their handlers have made and have yet to make; an accept makes none |
| Registration.RejectUnregisters | core/src/connection_manager.rs:980-990 | after any run, a reject and its handler leave nothing registered |
| Registration.TimeoutRemovesOnce | core/src/connection_manager.rs:1209-1213 | the waiting task that gives up removes the entry, once |
| Registration.InterruptionAborts | core/src/connection_manager.rs:1448-1526 | a peer gone at the start, a stream that cannot be opened and a failed chunk task each end the run with an error and leave map, row and manifest alone |
| Registration.ReconnectsDoNotResume | core/src/connection_manager.rs:1361-1443 | while a run is registered, interrupted or not, any number of passes leave row, manifest and runs as they are |
| Registration.InterruptedUntilRestart | core/src/connection_manager.rs:1379-1381 | for every number of chunks and of reconnects: an accepted transfer whose peer is gone at its start is still queued after them, and sent by the first pass after a restart |
| Registration.RestartSeesOnlyDisk | core/src/connection_manager.rs:1361-1446 | after a restart two histories that left the same row and manifest go on in the same way, whatever comes |
| SenderTraces.UnacceptedStaysQueued | core/src/connection_manager.rs:1183-1218 | in every state of an offer with no accept first and no resume, the row is still queued, nothing was enqueued, and a pass lists it |
| SenderTraces.RejectedTransferIsResumed | core/src/connection_manager.rs:1424-1443 | from every such state, and for every number of chunks, there is a continuation that enqueues all of them and records completed without another reply |
| SenderTraces.RowlessIsNeverResumed | core/src/connection_manager.rs:1153-1172 | an offer whose row could not be created is never resumed and has nothing recorded; not one chunk is enqueued unless the first reply was an accept |
| SenderTraces.StalePassResumesCancelledRow | core/src/connection_manager.rs:1361-1446 | for every number of chunks, a run in which a pass listed before a cancel turns the cancelled row into a completed one |
| SenderLoop.EverySchedule | core/src/connection_manager.rs:1463-1526 | under every schedule at most six permits are held, at most one task is spawned after a cancel, and finishing uncancelled means every pending chunk was sent |
| SenderLoop.CancelWhilePaused | core/src/transfer.rs:402-411 | a cancel that finds the loop asleep lets no task through in the worker loop and at most one in the outgoing loop |
| SenderLoop.OneTaskSlipsThrough | core/src/connection_manager.rs:1471-1480 | with a free permit that one task is spawned |
| SenderLoop.PauseHoldsLoop | core/src/transfer.rs:138-144 | while paused and not cancelled, nothing is spawned but the one task already past the pause test |
| SenderLoop.CancelIsFinal | core/src/transfer.rs:146-148 | no event lifts a cancel, and after it at most one more task is spawned |
| SenderLoop.FailureHasCause | core/src/connection_manager.rs:1467-1526 | in every schedule the loop fails only for a stream that did not open (outgoing), a failed task, or a cancel (worker loop), and returns without error only with every pending chunk spawned, unless the outgoing loop was cancelled |
| SenderLoop.EveryScheduleEnds | core/src/transfer.rs:398-436 | from any point of any schedule, without a further cancel, the loop can be brought to its return: with success exactly in the states in which it still can succeed, else with an error |
| SenderLoop.FinishesOnlyIfItCan | core/src/transfer.rs:398-436 | from the other states it never succeeds, whatever follows |
| SenderLoop.EveryChunkCanBeSent | core/src/connection_manager.rs:1467-1526 | a schedule of either loop without cancel, failed task or closed stream, paused or not, can be gone on with until every pending chunk is sent |
| SenderLoop.PausedLoopGoesOn | core/src/transfer.rs:406-411 | paused before its first chunk the loop sleeps, and with the pause lifted it can still send everything |
| EndToEnd.DeliveredIffAllOpen | core/src/connection_manager.rs:1019-1099 | with handlers one at a time and no failures, a transfer is reported once if and only if a message for every chunk opened, and then the destination is the source |
| EndToEnd.DeliveredExactly | core/src/connection_manager.rs:1448-1557 | for any sender run and any arrivals of its ciphertexts, what opens is a prefix of what was encrypted; the transfer is reported if and only if that prefix covers every chunk, and then every chunk had been enqueued and the destination is the source |
| EndToEnd.CompletedInOrderIsDelivered | core/src/connection_manager.rs:1448-1557 | a completed sender row, everything enqueued encrypted and arriving in order, make the destination the source with one report |
| Storage.Storage.CreateTransfer | core/src/storage.rs:288-320 | inserts a queued row, or fails and changes nothing when the id is taken or the message is missing |
| Storage.Storage.UpdateTransferState | core/src/storage.rs:322-329 | sets state and bytes of an existing row, and nothing for a missing one |
| Storage.Storage.MarkChunkAcked | core/src/storage.rs:333-344 | upserts one manifest entry, or fails when the transfer has no row |
| Storage.Storage.LoadAckedChunks | core/src/storage.rs:346-359 | the loop collects exactly the indices marked for the transfer |
| Storage.Storage.ListResumableTransfersWithPeer | core/src/storage.rs:384-404 | the loop lists every row of the join in an open state once, and nothing else |
| Storage.LoadsWhatWasMarked | core/src/storage.rs:333-359 | after any history, an index is loaded for a transfer if and only if it was marked while the transfer had a row |
| Storage.StateIsLastSet | core/src/storage.rs:288-329 | after any history, a row exists exactly when it was created, in the state its last update or its creation gave it |
| Storage.MetaIsAsCreated | core/src/storage.rs:363-376 | name, size, path, direction and message stay as created, the size through its signed column |
| Storage.ListedIffOpen | core/src/storage.rs:384-404 | a transfer is listed for resuming if and only if it was last left in an open state; the join drops none |
| Storage.ListsCandidates | core/src/storage.rs:384-404 | after any history, what is listed is, column by column, what the history says: direction and path of the creating statement, as peer the conversation its message was first inserted with, for exactly the transfers last left open |
| Storage.ConversationIsFirstInserted | core/src/storage.rs:182-218 | after any history, a message is with the conversation of its first insertion |
| Storage.ToResume | core/src/connection_manager.rs:1375-1405 | what a pass to a peer goes through, over any history: each open send to that peer with a path for its source, once |
| Storage.ForeignKeysHold | core/src/storage.rs:62-85 | every row leads to a message and every manifest entry to a row, after any history |
| Storage.KnownWasInserted | core/src/storage.rs:182-218 | after any history, a message is known if and only if it was inserted |
| Storage.UnknownMessageLeavesNoRow | core/src/storage.rs:288-404 | a transfer whose creations name no message ever inserted, as the files of a folder (fresh ids, core/src/connection_manager.rs:1324), has no row: nothing is marked for it and it is never listed for resuming |
| StoredTransfers.SenderRunIsStored | core/src/storage.rs:322-344 | the statements of any sender run leave the database with exactly the row state and manifest of the run's model |
| StoredTransfers.PassesReadModel | core/src/storage.rs:346-404 | what a pass reads back is that state and that manifest |
| StoredTransfers.AcceptIsStored | core/src/connection_manager.rs:1593-1611 | an acceptance leaves a row if and only if there was one or the offer's message is in the database, as in the model |
| StoredTransfers.AcceptReadsModel | core/src/connection_manager.rs:1566-1576 | the manifest it rebuilds the handle from is the model's, empty without a row |
| StoredTransfers.ReceiverStepIsStored | core/src/storage.rs:322-344 | every receiver step, row or no row, keeps the database's manifest and row, recorded bytes included, equal to the model's |
| StoredTransfers.ReceiverRunIsStored | core/src/storage.rs:322-344 | so does every run |
| StoredTransfers.OthersDoNotDisturb | core/src/storage.rs:288-344 | statements about other transfers leave what is held for one |
| FolderWalk.ReadDirectory | core/src/connection_manager.rs:1773-1783 | one directory's files are added and its directories pushed, links skipped; nothing else changes |
| FolderWalk.CollectFilesRecursive | core/src/connection_manager.rs:1768-1787 | the explicit-stack loop terminates on every finite tree, fails if and only if a directory cannot be read, and else finds the multiset a recursive walk finds |
| FolderWalk.EachFileOnce | core/src/connection_manager.rs:1768-1787 | the recursive walk finds each regular file once under its path, and nothing else |
| FolderWalk.WalkReturnsEachFileOnce | core/src/connection_manager.rs:1763-1787 | so does the stack walk |
| FolderWalk.AllReadableIff | core/src/connection_manager.rs:1772-1775 | the walk succeeds if and only if every directory at any path in the folder can be read |
| FolderWalk.WalkFindsAllBytes | core/src/connection_manager.rs:1768-1787 | in whatever order files are found, their sizes add up to the bytes in the folder |
| FolderWalk.Manifest | core/src/connection_manager.rs:1262-1273 | the manifest lists the files in order and the offered total is their u64 sum |
| FolderWalk.SendFolder | core/src/connection_manager.rs:1237-1353 | which of the five errors is returned and when; otherwise the results of the files whose offer went out; the offered total is the bytes in the folder, in u64 |
| FolderWalk.ResultsFollowManifest | core/src/connection_manager.rs:1317-1344 | the results are the manifest entries whose offer went out, each under its own path, in manifest order |
| FolderWalk.OfferedAscends | core/src/connection_manager.rs:1317-1344 | those entries are exactly the ones that succeeded, by strictly ascending position |
| NoiseChannel.NoiseSession.WriteHandshakeMessage | core/src/noise_session.rs:46-60 | the next message is written only in the handshake phase and on this side's turn |
| NoiseChannel.NoiseSession.ReadHandshakeMessage | core/src/noise_session.rs:62-75 | a read succeeds only in the handshake phase, on the other side's turn, and for the next message |
| NoiseChannel.NoiseSession.IntoTransportMode | core/src/noise_session.rs:80-90 | the one-way switch: refused until all three messages are done, and without effect the second time |
| NoiseChannel.HandshakeTurns | core/src/noise_session.rs:46-75 | the sides take turns, the initiator first, and after three messages neither writes or reads another |
| NoiseChannel.NoiseSession.Encrypt | core/src/noise_session.rs:109-123 | encrypting takes the next send number, only in transport mode, within the message limit of section 3, and below the reserved nonce |
| NoiseChannel.NoiseSession.Decrypt | core/src/noise_session.rs:125-139 | a ciphertext opens only in transport mode and with the expected number; a failure leaves the counter |
| NoiseChannel.Forward | core/src/connection_manager.rs:183-199 | the forwarder loop seals its messages in order, each that fits while numbers last, and stops at the first that does not; a fresh session seals them all if and only if each fits and they are no more than the numbers |
| NoiseChannel.OpenAll | core/src/connection_manager.rs:606-641 | what a relayed session opens of any ciphertexts is `Opened` of them |
| NoiseChannel.ReadAll | core/src/connection_manager.rs:840-887 | what the reader loops of any streams open, and which of them stop, is `ReadStreams` |
| NoiseChannel.OpenedIsPrefix | core/src/connection_manager.rs:1730-1750 | under any reordering, loss, repetition or injection the opened plaintexts are a prefix of the encrypted ones |
| NoiseChannel.OpensWithinNumbers | core/src/noise_session.rs:125-139 | however many ciphertexts arrive, the reserved number opens none |
| NoiseChannel.OpenedExactly | core/src/connection_manager.rs:1730-1750 | the first m open if and only if their ciphertexts arrive in encryption order among the rest |
| NoiseChannel.InOrderArrivalsAllOpen | core/src/connection_manager.rs:109-126 | ciphertexts that arrive in encryption order all open |
| NoiseChannel.LostCiphertextSilencesSession | core/src/connection_manager.rs:1730-1742 | nothing behind a ciphertext that never arrives opens |
| NoiseChannel.ExchangedPairSilencesSession | core/src/connection_manager.rs:109-126 | one exchanged pair, and nothing after its first message opens |
| NoiseChannel.StoppingReadersOpensLess | core/src/connection_manager.rs:840-887 | with several stream readers that stop at a failure, what opens is still a prefix |
| NoiseChannel.StreamsInEncryptionOrder | core/src/connection_manager.rs:840-887 | over any number of streams, everything opens and no reader stops if and only if the arrival order over all of them is the encryption order |
| NoiseChannel.OvertakenStreamStops | core/src/connection_manager.rs:203-231 | a stream overtaking another stops, and all it carries later is lost |
| RelayHandshake.OneSideIsLess | core/src/connection_manager.rs:489 | of two distinct ids exactly one initiates |
| RelayHandshake.LessIff | core/src/connection_manager.rs:489 | and it is the order of strings: the lesser has ended, or has the lesser character, where the two first differ |
| RelayHandshake.EveryInterleaving | core/src/connection_manager.rs:476-641 | in every interleaving: the side with the lesser id initiates and the other does not, each handshake reads exactly the expected messages and never an application frame, it fails only on a mismatched key, a session is inserted only under the id of the key seen, and never gets a handshake message |
| RelayHandshake.TaskFollowsNoise | core/src/connection_manager.rs:512-592 | every step of the handshake is one the Noise session allows: writes on this side's turn, reads that succeed exactly when the session's do, the session inserted after the third message |
| RelayHandshake.TasksStayInRole | core/src/connection_manager.rs:489-558 | in every run each task stays at the places of its own role |
| RelayHandshake.TrackedUntilClosed | core/src/connection_manager.rs:458-462 | an endpoint keeps the id of its relay session until the relay is closed for it |
| RelayHandshake.ClosedReceivesNothing | core/src/connection_manager.rs:606-641 | and from then on its session is handed nothing, whatever is under way |
| RelayHandshake.LostStaysLost | core/src/connection_manager.rs:606-641 | a frame that is in no sender's hand and reached neither queue, waiter nor session never does |
| RelayHandshake.LostFirstFrameSilencesSession | core/src/connection_manager.rs:606-641 | a session whose first frame was lost never opens anything |
| RelayHandshake.FirstFrameCanBeSwallowed | core/src/connection_manager.rs:560-570 | for any honest pair there is a run that ends with both sessions in place and the first application frame gone with the waiter |
| RelayDelivery.ReceivedIff | core/src/connection_manager.rs:606-641 | in every run an application frame is received if and only if it leaves the queue when the session is in place and its id tracked |
| RelayDelivery.EveryNumberOnce | core/src/connection_manager.rs:109-126 | every number encrypted is in a sender's hand or was handed over, once |
| RelayDelivery.FramesAreConserved | core/src/connection_manager.rs:606-641 | received, on the way and lost frames make up those handed over, and while none is lost they are those in the order of handing over |
| RelayDelivery.NothingLostIff | core/src/connection_manager.rs:606-641 | what was handed over and left the queue is all received, in that order, if and only if every frame left it when the session was in place and its id tracked |
| RelayDelivery.EverythingOpensIff | core/src/connection_manager.rs:109-126 | and all of it opens if and only if, in addition, it was handed over in the order of encryption |
| RelayDelivery.HandedOverOutOfOrder | core/src/connection_manager.rs:109-126 | for any honest pair there is a run in which nothing is lost and two senders hand over in the other order, so that only the first plaintext opens |
| RelayDelivery.AnsweredSenderIsHeard | core/src/connection_manager.rs:512-597 | what a sender hands over after it has received an application frame finds the session in place, and is received if and only if the id is still tracked |
| RelayDelivery.SidesAreAlike | core/src/connection_manager.rs:476-597 | exchanging the endpoints exchanges everything, so all this holds in both directions |
| BleReassembly.FragmentData | android/app/src/main/kotlin/com/zao/p2p/transport/BleMeshManager.kt:304-323 | the loop returns the fragments of the message, or none when it needs more than 255 |
| BleReassembly.FragmentParses | android/app/src/main/kotlin/com/zao/p2p/transport/BleMeshManager.kt:316-328 | index and count come through the signed header bytes for every fragment of up to 255 |
| BleReassembly.FragmentBytes | android/app/src/main/kotlin/com/zao/p2p/transport/BleMeshManager.kt:304-323 | fragment i, byte by byte: index, count, and the up to 498 bytes of the message from 498 i on, all but the last full |
| BleReassembly.ByteHoldsCount | android/app/src/main/kotlin/com/zao/p2p/transport/BleMeshManager.kt:317-328 | a signed byte masked with 0xFF gives back every value up to 255 |
| BleReassembly.FragmentBuffer.Hold | android/app/src/main/kotlin/com/zao/p2p/transport/BleMeshManager.kt:91-94 | holding a chunk keeps the received counter equal to the number of held chunks |
| BleReassembly.Reassembler.HandleIncomingFragment | android/app/src/main/kotlin/com/zao/p2p/transport/BleMeshManager.kt:325-344 | the handler over its map of buffers does exactly `Receive` |
| BleReassembly.CollectsFirstChunks | android/app/src/main/kotlin/com/zao/p2p/transport/BleMeshManager.kt:325-344 | a buffer holds the first chunk for each index, and the completing fragment turns exactly those into one message |
| BleReassembly.KeysAreIndependent | android/app/src/main/kotlin/com/zao/p2p/transport/BleMeshManager.kt:331-332 | buffers and messages of one source and count are those of its own traffic alone |
| BleReassembly.MessageIsReassembled | android/app/src/main/kotlin/com/zao/p2p/transport/BleMeshManager.kt:304-344 | fragments in any order, with repeats before completion, amid any other traffic, yield the message exactly once and leave no buffer |
| BleReassembly.PermutationCompletes | android/app/src/main/kotlin/com/zao/p2p/transport/BleMeshManager.kt:304-344 | every permutation of the fragments yields the message with its last fragment |
| BleReassembly.RestartsAfterCompletion | android/app/src/main/kotlin/com/zao/p2p/transport/BleMeshManager.kt:339-340 | after a completion the next fragments start afresh |
| BleReassembly.StaleFragmentsCorruptIff | android/app/src/main/kotlin/com/zao/p2p/transport/BleMeshManager.kt:332-336 | a message that meets left-over chunks comes out right if and only if each of those is its own |
| BleReassembly.LateRepeatSpoilsNextMessage | android/app/src/main/kotlin/com/zao/p2p/transport/BleMeshManager.kt:332-344 | one late repeat puts the old first chunk into the next two-fragment message |
| BleSeenCache.SeenMessageIds.ContainsKey | android/app/src/main/kotlin/com/zao/p2p/transport/BleMeshManager.kt:354 | asking does not touch the order |
| BleSeenCache.SeenMessageIds.Put | android/app/src/main/kotlin/com/zao/p2p/transport/BleMeshManager.kt:83-87 | a put makes the id the youngest and drops the eldest beyond 500 |
| BleSeenCache.CacheIsYoungest | android/app/src/main/kotlin/com/zao/p2p/transport/BleMeshManager.kt:83-87 | after any puts the cache is the youngest 500 of the distinct ids by last put, in order |
| BleSeenCache.CachedIffRecent | android/app/src/main/kotlin/com/zao/p2p/transport/BleMeshManager.kt:83-87 | an id is in the cache if and only if it was put and fewer than 500 distinct others were put since |
| BleSeenCache.FewIdsAreRemembered | android/app/src/main/kotlin/com/zao/p2p/transport/BleMeshManager.kt:83-87 | with no more ids than the capacity nothing is forgotten |
| BleSeenCache.ForgottenOnlyAfterMany | android/app/src/main/kotlin/com/zao/p2p/transport/BleMeshManager.kt:352-359 | an id put once and no longer known was followed by puts of at least 500 distinct others |
| BleMesh.FrameRoundTrips | android/app/src/main/kotlin/com/zao/p2p/transport/BleMeshManager.kt:295-302 | ttl and payload always come back, the id if and only if it is at most 16 bytes and does not end in NUL |
| BleMesh.FrameBytes | android/app/src/main/kotlin/com/zao/p2p/transport/BleMeshManager.kt:295-302 | the frame, byte by byte: 16 for the id, cut off or filled up with zeros, the ttl, the payload |
| BleMesh.BleNode.BroadcastMessage | android/app/src/main/kotlin/com/zao/p2p/transport/BleMeshManager.kt:270-293 | a message with ttl over 0 and an unseen id is recorded and written once |
| BleMesh.BleNode.TakeMessage | android/app/src/main/kotlin/com/zao/p2p/transport/BleMeshManager.kt:346-359 | up to the callback: a reassembled message is recorded, delivered if unseen, and kept for the relay, one hop poorer, if its ttl exceeds 1 |
| BleMesh.BleNode.HandleReassembledMessage | android/app/src/main/kotlin/com/zao/p2p/transport/BleMeshManager.kt:346-370 | the whole handler with nothing put in between: that, and the broadcast |
| BleMesh.ReceivedIsNeverRelayed | android/app/src/main/kotlin/com/zao/p2p/transport/BleMeshManager.kt:352-369 | with nothing put in between, the relay never writes anything; the message is delivered if and only if its id was not in the cache |
| BleMesh.RelayWritesIff | android/app/src/main/kotlin/com/zao/p2p/transport/BleMeshManager.kt:352-369 | with anything put in between, it writes if and only if at least 500 distinct other ids were put since its own |
| BleMesh.StepsFollowCaches | android/app/src/main/kotlin/com/zao/p2p/transport/BleMeshManager.kt:270-370 | the caches of the network's nodes are those the methods leave behind |
| BleMesh.BroadcastTransmits | android/app/src/main/kotlin/com/zao/p2p/transport/BleMeshManager.kt:270-293 | whatever its history, a node transmits what it originates or goes on to relay exactly when hops are left and it does not know the id: never put, or followed by at least 500 distinct others |
| BleMesh.HearDelivers | android/app/src/main/kotlin/com/zao/p2p/transport/BleMeshManager.kt:346-370 | whatever its history, a node delivers what it hears, and is to relay it, exactly when it does not know the id, and records it either way |
| BleMesh.HearEvent | android/app/src/main/kotlin/com/zao/p2p/transport/BleMeshManager.kt:346-359 | in a network, hearing a frame of the air makes that node, and no other, hear the message in it |
| BleMesh.OriginateEvent | android/app/src/main/kotlin/com/zao/p2p/transport/BleMeshManager.kt:270-293 | originating puts a copy with the whole hop budget in the air unless the node knows the id |
| BleMesh.GoOnEvent | android/app/src/main/kotlin/com/zao/p2p/transport/BleMeshManager.kt:362-369 | a relay is gone on with once, and its copy is in the air if and only if the node has forgotten the id |
| BleMesh.MessageReachesEveryone | android/app/src/main/kotlin/com/zao/p2p/transport/BleMeshManager.kt:270-370 | after any run, with any ids: a message with an id its node does not know can be heard by every other node, and each that does not know it delivers it exactly as originated |
| BleMesh.FirstMessageReachesEveryone | android/app/src/main/kotlin/com/zao/p2p/transport/BleMeshManager.kt:270-370 | so from the start, in a network of any size, every other node delivers it, once |
| BleMeshHistory.EveryRunWithAnyIds | android/app/src/main/kotlin/com/zao/p2p/transport/BleMeshManager.kt:270-370 | in every run, with any ids and relays at any later moment: uses of one id at a node, deliveries and transmissions, have puts of at least 500 distinct other ids between them; what is delivered or in the air was originated at the node named, its hop budget down by the hops travelled, at most the default ttl |
| BleMeshHistory.TwoDeliveriesAreFarApart | android/app/src/main/kotlin/com/zao/p2p/transport/BleMeshManager.kt:352-359 | in particular two deliveries of one id at a node |
| BleMesh.EveryNetworkRun | android/app/src/main/kotlin/com/zao/p2p/transport/BleMeshManager.kt:270-370 | with at most 500 ids that fit the frame, so that none is forgotten or misread: each node delivers an id at most once and transmits it at most once, delivers only what another node originated, unchanged, and never an id it transmitted; every copy has travelled one hop |
| StunClient.BuildBindingRequest | core/src/stun_client.rs:77-84 | the request's header fields, and that the response parser refuses it for its type |
| StunClient.ParseBindingResponse | core/src/stun_client.rs:86-149 | total on all bytes: the first failing check decides the error, otherwise the walk reports from exactly the attributes it reaches |
| StunClient.ParseXorMappedAddress | core/src/stun_client.rs:155-175 | the byte loop unmasks the address with the cookie, or reports none for a short or non-IPv4 value |
| StunClient.XorTakesExactlyOne | core/src/stun_client.rs:162 | the exclusive or has exactly the bits that one argument has and the other has not |
| StunClient.BitsDecide | core/src/stun_client.rs:162 | and a number is its bits |
| StunClient.XorMappedBits | core/src/stun_client.rs:155-175 | every bit of the port and address reported is the value's, turned over where the cookie has a 1 |
| StunClient.SampleResponseAddress | core/src/stun_client.rs:155-175 | the sample value of section 2.2 of RFC 5769 is 192.0.2.1, port 32853 |
| StunClient.AddressRoundTrips | core/src/stun_client.rs:155-184 | every port and IPv4 address comes back from both kinds of attribute value |
| StunClient.ReportsLastAddress | core/src/stun_client.rs:127-148 | the last IPv4 XOR-MAPPED-ADDRESS wins, else the last IPv4 MAPPED-ADDRESS, else there is none |
| StunClient.ResponseReportsItsAttributes | core/src/stun_client.rs:86-149 | any serialised success response, with any padding and trailing bytes, is understood as its attribute list |
| StunClient.ClientLearnsItsAddress | core/src/stun_client.rs:86-175 | the client learns the address the server put in its last XOR-MAPPED-ADDRESS |
| StunClient.AcceptedIff | core/src/stun_client.rs:86-149 | success if and only if type, cookie and transaction id match and some attribute holds an IPv4 address |
| StunClient.TruncationGivesPrefix | core/src/stun_client.rs:61-67 | a response cut off by the receive buffer gives a prefix of its attributes |

## Left out

- Receiver.EveryAcceptanceIsSafe: a handler's write is one step; the checksum is taken as free of second preimages for the chunks of the source.
- ReceiverCalls.CompletesExactlyOnce: an index from the peer whose offset exceeds u64 is not modelled as an overflow.
- ReceiverCalls.TransferReceiver.AcceptFile: one transfer id; destination naming and the accept message (and its failure) are not part of it.
- SenderRuns.EveryRunIsSafe: one transfer whose source is a path and does not change; the offer's row is there from the start, and one that could not be created is the case of `RowlessIsNeverResumed`.
- EndToEnd.DeliveredExactly: one direction of one session, messages of other transfers as plaintexts that decode to nothing of this one; a chunk message over the length limit is one that was never encrypted.
- SenderRuns.ExclusivePassesResumeOpenRows: proved for runs in which busy runs and passes never overlap, which nothing in the code enforces; `ResumePasses` says what holds of row, manifest and handles without that.
- TransferHandle.CounterTracksAckedBytes: true chunk lengths and in-range indices; a chunk size of at most 2^64, which a u64 constant is.
- SenderLoop.EverySchedule: waiting is a step that changes nothing; that a schedule is fair is not claimed, only that it can always be brought to its end (`EveryScheduleEnds`).
- RelayHandshake.EveryInterleaving: one relay session, a hand-over that fails is one that does not happen, one ready notice per side, no earlier session between the two; `idOf` is any function, because the id is made from the Ed25519 key (core/src/identity.rs:76-96) while the check hashes the Noise key, so it is not claimed that honest peers pass.
- BleReassembly.FragmentData: arrays within 497 bytes of the largest Int, where the rounding would overflow, are not modelled.
- BleReassembly.Reassembler.HandleIncomingFragment: the buffer key is the pair of source and count instead of their joined string.
- BleMesh.EveryNetworkRun: proved for at most 500 ids of at most 16 bytes without a trailing NUL, beyond which a cache forgets or a frame changes the id (`BleMeshHistory` is without these); nodes hear whole frames; messages over 255 fragments are recorded but not transmitted by the code, which here is a copy nobody hears. Ids are UTF-8 bytes, and decoding of malformed UTF-8 is not modelled.
- Storage.Storage.ListResumableTransfersWithPeer: columns other tables own, the conversation a message must have, timestamps, the SQL text and SQLCipher are not modelled; database errors other than key violations are failures of the caller's step.
- FolderWalk.CollectFilesRecursive: the tree does not change during the walk; errors of single entries count as an unreadable directory.
- FolderWalk.SendFolder: the peer's reply and the start of each file's offer are given as outcomes, the map of pending folder offers and a failing size lookup are not modelled.
- QUIC, TLS, WebSocket, mDNS, UDP and GATT I/O: only queues and streams with the stated ordering appear.
- Cryptography and JSON encoding: an ideal cipher, an uninterpreted digest and messages as values.
- Speed, ETA and percent: floating-point display values, easy members.
- File-descriptor sources, the folder accept dialogue on the receiving side, discovery, chat history, receipts and user interfaces.
- Trying STUN servers one after the other: the first answer wins, an easy member.
- Liveness over the network: early relay frames are dropped and waiters stay behind on errors, so only safety is stated.
