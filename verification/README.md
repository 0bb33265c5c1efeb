# Verified models of the FujiNet NIO drivers

Dafny models, with proofs, of the stateful parts of the Amiga and MS-DOS FujiNet
NIO drivers. `dafny verify dfyconfig.toml` checks the whole project.

| module | what it models | main results |
|---|---|---|
| `DirectoryRecovery` | guest, host, operator and crash around the shared directory, one file operation at a time | uncertainty is always on disk; no request after a failure without fresh consent and a matching barrier, and none outside a live session |
| `DirectoryBackend` | `directory_quiesce` and `directory_transfer` as sequential code, the environment moving between any two operations | each call is a run of `DirectoryRecovery`; soundness and progress of each call; a whole retry call publishes at most once |
| `PacketGuard` | packet validation and the quarantine guard with re-entrant callbacks | guard safety over every run; exact acceptance of packets |
| `DiskRetry`, `Interop` | the bounded retry loop over lazy reopen and guard; the packet formats of guard and client compared | at most one attempt reaches the peer; exactly which requests are repeated |
| `IoQueue` | the doubly linked queue with stopped units | heap refinement of a sequence, conservation, order |
| `NioBroker`, `DiskBroker` | the brokers of nio.device and disk.device under arbitrary interleavings | conservation, one reply each, exactly when work is lost, aborted or held back, when a unit is stopped, when expunge finds the device idle |
| `PaulaRing` | the receive ring read with live interrupts | linearizable reads, loss only when full |
| `SerialLifecycle` | the read/write/open/close/expunge machine of serial.device | byte accounting and one owner for every write; exactly when a read is lost; bytes in order, no lost wake-up |
| `SectorCache` | the MS-DOS sector cache, read loop and write loop | agreement of cache and disk with exact conditions; termination; what downshifts cost |
| `NioTransaction`, `Checksum` | framing and the retrying transaction of the MS-DOS client | exact meaning of every frame, bounds, checksum algebra |
| `DiskDriver` | media generations and ETD checks of a disk unit | an ETD transfer never touches a later medium |
| `SerialConfig`, `SessionDiag` | two byte formats | round trips |

## How the models are built

Objects whose methods update fields are classes with the same fields; each method
is tied to a specification function or states its whole effect, and the properties
are proved about those functions and about runs. Where interleaving is the point
(directory protocol, brokers) the specification is a step function `Next` and the
theorems range over every sequence of steps; the class methods are proved to be
exactly those steps. Theorems of the form "so if and only if brought about and not undone
since" share module `Moments`. What a method cannot know — results of callbacks, bytes on a
link, moves of the environment, interrupts — is a parameter that is universally
quantified, including re-entrant calls from callbacks, which are data
(`PacketGuard.Op`). Ghost fields record what no operation may inspect: work
outstanding at the peer, histories of replies, stamps handed out.

Both brokers hold the linked queue of `IoQueue`; their `RequestQueue` classes tie it
to the sequences of the step functions, so that every device method is a heap
refinement of its step. Time limits are iteration bounds of
the polling loops. Challenges are never-reused tokens and are numbered in the order
in which the host draws them.

## Where the code falls short of the simple claim

- A zero-length read in the lifecycle file loses a pending read. `SerialLifecycle.LostIff`
  proves that nothing else does, and `EveryReadRepliedIff` that every accepted read is
  replied exactly when this never happens. The device itself checks the case
  (amiga/serial.device/fujinet_serial_device.c:608-612).
- A flagged read can complete successfully with too little data: if the flag is a
  flushed read's (`SerialLifecycle.StaleSoftintGivesShortRead`), or if a write empties
  the ring between flag and delivery (`WriteEmptiesFlaggedRead`). Without such an event
  in between a reply is full (`FlaggedReadIsFull`).
- Expunge checks under Disable() and tears down after Enable(). In between a device can
  be opened and used, and the segment list is returned all the same
  (`NioBroker.UnloadUnderOpenDevice`, `DiskBroker.UnloadUnderOpenDevice`). `StillIdleIff`
  and `StillQuietIff` say exactly when the device is idle at the return.
- worker_stop is never reset. A wait for the worker that runs out leaves the device
  loaded, but the worker ends after its request, and later requests wait for ever
  (`NioBroker.TimedOutTeardownLosesWork`). `NoLostWorkIff` and `AliveIff` say exactly when
  what waits can be served.
- The directory protocol relies on a failed publishing rename not having happened;
  `DirectoryRecovery.FailedRenameMustNotPublish` shows what follows otherwise.
- `directory_transfer` can give up before it has written the marker; the retry loop then
  tries again. Nothing was sent, so `DiskRetry.RetryExchange` still holds.
- The MS-DOS cache can hold two copies of a sector and a write refreshes only the
  lowest one; a failed write that reached the disk refreshes none. The two `Iff`
  lemmas of `SectorCache` say exactly when agreement survives.
- With a stale limit of 255 the byte-sized counter never ends the stale loop
  (`NioTransaction.StaleLoopEndsIff`); the transaction methods require a smaller one.
- The end-around checksum misses a swap of 0x00 and 0xFF
  (`Checksum.SingleByteChange`, `NioTransaction.CorruptionNoticed`).
- A consent deposited while a call is in progress is accepted by a recovery after
  that call. amiga/README.md:341-356 leaves this to the operator;
  `DirectoryRecovery.ConsentFollowsTransfer` states what the code itself ensures.
- A read of the MS-DOS driver that runs past the end of the image reports "not
  found" even after sectors were delivered; `SectorCache.DosDriver.Input` keeps that.

## Model

| member | source | states |
|---|---|---|
| DirectoryRecovery.StepKeepsInv | amiga/nio.device/fujinet_nio_directory_backend.c:698-894 | every single file operation of guest, host or operator, every failure of one (except a publishing rename that reports failure although it has happened), and a crash between any two keep the protocol invariant |
| DirectoryRecovery.RunKeepsInv | amiga/nio.device/fujinet_nio_directory_backend.c:698-894 | the invariant holds after every run from a state that has it |
| DirectoryRecovery.MarkerCoversOutstanding | amiga/nio.device/fujinet_nio_directory_backend.c:751-894 | in every run, with crashes, reloads and host restarts anywhere, the `AMBIGUOUS` marker (or its temporary name) is on disk whenever the peer may still execute or answer an earlier request; at most the latest request is outstanding; an unquarantined guard faces a quiescent peer |
| DirectoryRecovery.MarkerRemovalNeedsProof | amiga/nio.device/fujinet_nio_directory_backend.c:736-894 | a step removes the marker only while nothing is outstanding and only from a state holding a proof: send refused, reply validated, or barrier acknowledged |
| DirectoryRecovery.NoPublishWithoutRecovery | amiga/nio.device/fujinet_nio_directory_backend.c:698-749 | from any state with an idle guest and the marker on disk, a run that publishes a request contains a recovery that spent a consent unspent at the start, equal to the challenge and newer than every transfer, and that saw `ACK` for that challenge and a rotated challenge |
| DirectoryRecovery.OneCallAtATime | amiga/nio.device/fujinet_nio_directory_backend.c:698-811 | a recovery and an exchange begin with an idle guest and go on until it is idle again |
| DirectoryRecovery.PublishFollowsCheck | amiga/nio.device/fujinet_nio_directory_backend.c:764-785 | whenever a request is published in a run, the same exchange has found the session live before: no uncertainty on record and the challenge on disk equal to the session's |
| DirectoryRecovery.ShutUntilRecovered | amiga/nio.device/fujinet_nio_directory_backend.c:698-773 | a guest that is quarantined, or whose session the host has ended, publishes nothing in any run until a recovery completes |
| DirectoryRecovery.RecoveryAfterCut | amiga/README.md:333-339 | after a restart of the host, a local reset, or a crash and reload nothing is published until a new recovery completes; uncertainty on disk survives each of them |
| DirectoryRecovery.AckFollowsChallenge | amiga/README.md:327-333 | an `ACK` naming the challenge of an earlier state was published after it: the host rotated that challenge away after draining for it, and then acknowledged; stale acknowledgements never suffice |
| DirectoryRecovery.ConsentFollowsTransfer | amiga/nio.device/fujinet_nio_directory_backend.c:778-780 | a consent on disk or in use was deposited as a copy of the challenge of its moment, after the last transfer retired older consent |
| DirectoryRecovery.RepliesAreOwn | amiga/nio.device/fujinet_nio_directory_backend.c:799-806 | the reply record that a waiting guest takes answers the request it published last |
| DirectoryRecovery.NothingWithoutConsent | amiga/nio.device/fujinet_nio_directory_backend.c:706-713 | from a marked idle state without consent, a run in which the operator deposits none publishes nothing and keeps the marker |
| DirectoryRecovery.FailedRenameMustNotPublish | amiga/nio.device/fujinet_nio_directory_backend.c:532-592 | the hypothesis about failed renames is needed: from every state about to publish, a rename that reports failure although it has happened leads to an unquarantined guard without marker while the peer holds the request |
| DirectoryRecovery.AboutToPublish | amiga/nio.device/fujinet_nio_directory_backend.c:751-784 | such states are reached: a concrete run from the start through a recovery to a written marker |
| DirectoryBackend.QuietStates | amiga/nio.device/fujinet_nio_directory_backend.c:698-811 | in every run: outstanding work implies the marker, and refused, received, proved and unquarantined states are quiescent |
| DirectoryBackend.BarrierArrives | amiga/README.md:327-333 | the host's drain, rotate, acknowledge leaves no packet record and no work, a new challenge, and `ACK` with the requested value |
| DirectoryBackend.AnswerArrives | amiga/nio.device/fujinet_nio_directory_backend.c:799-803 | taking a published request and replying moves it from the host's record to the guest's, and leaves no work behind |
| DirectoryBackend.DirectoryGuest.Quiesce | amiga/nio.device/fujinet_nio_directory_backend.c:698-749 | with the environment moving before every file operation, the call is a run of the protocol; success leaves a quiescent peer, no marker and a live session; failure leaves quarantine; consent, a host that answers the barrier before any poll and no failing operation are enough for a session whose challenge is the one in force |
| DirectoryBackend.DirectoryGuest.Authorize | amiga/nio.device/fujinet_nio_directory_backend.c:705-713 | the barrier is requested only after the challenge is read and, with the marker present, a matching consent has been consumed; succeeds if nothing fails and consent is there when needed |
| DirectoryBackend.DirectoryGuest.TakeConsent | amiga/nio.device/fujinet_nio_directory_backend.c:707-713 | a matching `RECOVER` is consumed before going on; anything else ends the call in quarantine |
| DirectoryBackend.DirectoryGuest.AwaitBarrier | amiga/nio.device/fujinet_nio_directory_backend.c:736-748 | polling ends with a proof and no marker or, at the time limit, in quarantine; a barrier answered before any of the polls is seen |
| DirectoryBackend.DirectoryGuest.ClearMarker | amiga/nio.device/fujinet_nio_directory_backend.c:739-742 | after the proof, success exactly if both removals succeed: session live, marker gone, quarantine lifted; otherwise quarantine stays |
| DirectoryBackend.DirectoryGuest.Mark | amiga/nio.device/fujinet_nio_directory_backend.c:778-783 | unused consent is retired and the marker is on disk before anything can be published |
| DirectoryBackend.DirectoryGuest.Prepare | amiga/nio.device/fujinet_nio_directory_backend.c:758-784 | no request is published by the checks and the marking; it succeeds exactly if the session is live, its challenge is still in force when it is compared, and no file operation fails; everything else ends in quarantine |
| DirectoryBackend.DirectoryGuest.Withdraw | amiga/nio.device/fujinet_nio_directory_backend.c:786-792 | a refused send is reported as rejected only with the marker gone and nothing published; otherwise quarantine |
| DirectoryBackend.DirectoryGuest.AwaitReply | amiga/nio.device/fujinet_nio_directory_backend.c:794-810 | polling yields the reply of this very request with a quiescent peer, or ends in quarantine under the marker; a request answered before any of the polls completes |
| DirectoryBackend.DirectoryGuest.PublishOrRefuse | amiga/nio.device/fujinet_nio_directory_backend.c:784-786 | with the environment moving between marker and publication, the request is published under the next ticket or refused without trace |
| DirectoryBackend.DirectoryGuest.Exchange | amiga/nio.device/fujinet_nio_directory_backend.c:751-811 | rejection proves that nothing was published; completion delivers the reply of this request and leaves the peer quiescent; any other end is quarantined, under the marker if the request was published; into a session that is not live, or whose challenge has changed, nothing is sent and the outcome is unknown; a live session, a host that answers before any poll and no failing operation are enough for completion |
| DirectoryBackend.DirectoryGuest.TryOnce | amiga/nio.device/fujinet_nio_device.c:217-241 | one lazy open, exchange and close publishes at most one request; if it is not answered, the marker stays and no consent is left; a host that answers barrier and request is enough for completion |
| DirectoryBackend.DirectoryGuest.Retry | common/fujinet_disk_retry.c:40-83 | over the protocol itself, with any number of attempts, host restarts and failures: if the operator deposits no consent during the call, at most one request is published, success delivers the reply to exactly that request, an unanswered one leaves the marker, and under a marker without consent nothing is published; a cooperating host is enough for success, at the second attempt if it has restarted since the last call |
| PacketGuard.DescriptorsFit | amiga/nio.device/fujinet_nio_packet_backend.c:16-27 | the early-rejecting descriptor loop accepts exactly the packets whose descriptor chain ends inside the packet and whose header, extra descriptors and fields fit its length; the 16-bit field total never overflows and no byte outside is read |
| PacketGuard.ValidPacket | amiga/nio.device/fujinet_nio_packet_backend.c:8-28 | accepts exactly packets with a full header, a matching length field, a matching checksum and a fitting descriptor chain |
| Interop.WellFormedIff | amiga/nio.device/fujinet_nio_packet_backend.c:8-28 | the guard, which skips the checksum byte, accepts exactly the frames that the MS-DOS client, which zeroes it, finds intact and whose descriptor chain fits |
| Interop.GuardNoticesCorruption | amiga/nio.device/fujinet_nio_packet_backend.c:8-28 | no single corrupted byte gets past the guard except a swap of 0x00 and 0xFF outside length field and checksum |
| Interop.DescribedDataFits | amiga/nio.device/fujinet_nio_packet_backend.c:5-28 | a sealed frame with a chain of descriptors passes the guard if and only if at least the bytes they announce follow them: up to four single bytes, one or two words, one long word each |
| Interop.ClientPassesGuard | msdos/src/nio/nio_transaction.c:155-173 | every request of the MS-DOS client, and every response with a status byte, passes the guard |
| PacketGuard.EndsHere | amiga/nio.device/fujinet_nio_packet_backend.c:18-27 | a descriptor chain has one end, and that end alone decides whether it fits |
| PacketGuard.TooWideStaysTooWide | amiga/nio.device/fujinet_nio_packet_backend.c:20-22 | once the descriptors read so far do not fit, no continuation makes the packet fit: the early rejection loses nothing |
| PacketGuard.Guard.constructor | amiga/nio.device/fujinet_nio_packet_backend.c:30-44 | starts closed and quarantined, whatever an earlier life of the endpoint left outstanding |
| PacketGuard.Guard.Open | amiga/nio.device/fujinet_nio_packet_backend.c:46-57 | re-entry is refused as busy with no effect; never lifts quarantine; opens exactly on success; outstanding work ends only by the peer itself |
| PacketGuard.Guard.Close | amiga/nio.device/fujinet_nio_packet_backend.c:59-66 | never lifts quarantine; what is outstanding afterwards is exactly what the peer itself did not finish during the callback |
| PacketGuard.Guard.Reset | amiga/nio.device/fujinet_nio_packet_backend.c:68-79 | every attempt quarantines, whatever its result |
| PacketGuard.Guard.Recover | amiga/nio.device/fujinet_nio_packet_backend.c:81-93 | quarantine is lifted exactly by a successful quiescence proof, which leaves nothing outstanding |
| PacketGuard.Guard.Exchange | amiga/nio.device/fujinet_nio_packet_backend.c:95-126 | exact outcome of each call: refusals reach no peer; otherwise exactly one transfer, quarantined exactly unless rejected or validated; failure leaves the buffer untouched with length zero; success delivers exactly the reply, and a complete transfer succeeds if and only if it fits and is a well-formed packet with the device and command bytes of the request |
| PacketGuard.Guard.CallTransfer | amiga/nio.device/fujinet_nio_packet_backend.c:106-113 | active and quarantine are set, the adapter runs, active is cleared; outstanding afterwards is exactly a sent transfer of unknown outcome |
| PacketGuard.Guard.Adapter | amiga/nio.device/fujinet_nio_packet_backend.c:107-111 | the adapter can be called only with the guard active, quarantined and the peer quiescent; re-entrant calls change nothing |
| PacketGuard.Guard.Reenter | amiga/nio.device/fujinet_nio_packet_backend.c:50-100 | calls made from inside a callback are all refused and change neither guard nor scratch buffer |
| PacketGuard.Guard.Run | amiga/nio.device/fujinet_nio_packet_backend.c:30-126 | for every finite sequence of operations with arbitrary re-entry: idle and unquarantined implies a quiescent peer, at most one request is outstanding, and every successful reply belongs to its own request |
| DiskRetry.RetryableIsWellFormed | common/fujinet_disk_retry.c:13-38 | what the retry loop classes as repeatable is a packet the guard does not refuse as malformed |
| DiskRetry.RetryableIff | common/fujinet_disk_retry.c:13-38 | exactly the sealed reads and writes of one 512-byte sector of slots 1 to 8 may be repeated |
| DiskRetry.DeliveryIsAccepted | amiga/nio.device/fujinet_nio_packet_backend.c:114-125 | a complete reply to the request is accepted whatever an earlier failed attempt left in the scratch buffer |
| DiskRetry.Backend.Open | amiga/nio.device/fujinet_nio_directory_backend.c:821-845 | opens exactly with a proof of quiescence; while the marker stands the proof is refused |
| DiskRetry.Backend.Exchange | amiga/nio.device/fujinet_nio_directory_backend.c:860-894 | a transfer happens exactly when the guard does not block it; after a failure the marker is there exactly if the transfer had written it: not after a rejection or an early give-up; a cleanup failure keeps the success but blocks later work |
| DiskRetry.Backend.Attempt | amiga/nio.device/fujinet_nio_device.c:217-241 | lazy open, exchange, close after a fault: the request gets its chance exactly when it is well formed and the backend is ready, and succeeds exactly when the guard accepts the reply; under the marker nothing is sent |
| DiskRetry.RetryExchange | common/fujinet_disk_retry.c:40-83 | whatever peer and adapter do, in one call no transfer but the last has sent anything, so at most one reaches the peer; success means the last one did, with its own reply; attempts stop only on success, on an error that is not transport or timeout, or at the limit; an attempt that delivers after attempts that left no marker makes the call succeed; an open guard under the marker sends nothing |
| IoQueue.Queue.Detach | amiga/common/fujinet_io_queue.c:3-10 | constant-time unlinking keeps the doubly linked shape and removes exactly that node |
| IoQueue.Queue.Append | amiga/common/fujinet_io_queue.c:15-27 | the entry goes to the end; the shape is kept |
| IoQueue.Queue.Next | amiga/common/fujinet_io_queue.c:29-43 | takes the first runnable node and leaves the others in order; everything before it is held back: of no unit, or of a stopped unit and neither START nor FLUSH |
| IoQueue.Queue.RemoveRequest | amiga/common/fujinet_io_queue.c:45-56 | removes the first node of the given request, or none |
| IoQueue.Queue.TakeUnit | amiga/common/fujinet_io_queue.c:58-69 | removes the first node of the given unit, or none |
| IoQueue.Find | amiga/common/fujinet_io_queue.c:33-41 | the position of the first match: nothing before it matches |
| IoQueue.Conservation | amiga/common/fujinet_io_queue.c:3-69 | over every run of appends, dispatches, removals and flushes, what was taken and what is left are what was there and what was appended |
| IoQueue.DispatchTakesOldest | amiga/common/fujinet_io_queue.c:29-43 | a dispatch takes a running unit's oldest entry if it takes one of that unit at all |
| IoQueue.RunningUnitIsFifo | amiga/common/fujinet_io_queue.c:29-69 | while a unit is running at every dispatch, its requests are dispatched in the order in which they came and ahead of those still waiting; removals by request or unit only leave gaps |
| NioBroker.StepKeepsInv | amiga/nio.device/fujinet_nio_device.c:210-381 | every atomic step of callers, worker and expunge, stopping the worker included, keeps conservation, order, buffer bounds, abort ownership and attendance |
| NioBroker.EverySubmissionOnce | amiga/nio.device/fujinet_nio_device.c:210-381 | in every interleaving each accepted submission is in exactly one of queue, worker, served, aborted, and there once |
| NioBroker.RepliesInOrder | amiga/nio.device/fujinet_nio_device.c:357-381 | replies that are not aborts come in submission order, ahead of everything still waiting |
| NioBroker.RepliesAreSound | amiga/nio.device/fujinet_nio_device.c:246-281 | an abort reply goes only to a submission for which an abort was asked; a success never reports more than the caller's buffer holds; any other result has length zero |
| NioBroker.AbortedIffAsked | amiga/nio.device/fujinet_nio_device.c:764-793 | a submission that has been replied was replied as aborted if and only if AbortIO was called for it while it waited or ran, or its request was closed while it waited; all others carry the backend's result |
| NioBroker.SucceedsIff | amiga/nio.device/fujinet_nio_device.c:210-355 | exactly when an unaborted request succeeds and with which length; every other code is passed on as the backend gave it, with length zero |
| NioBroker.BackendOpenIff | amiga/nio.device/fujinet_nio_device.c:210-310 | over every run the backend is open if and only if an exchange has opened it, or could have, and there has been no transport fault, timeout or reconfiguration since |
| NioBroker.SetSerialTakesEncodings | amiga/nio.device/fujinet_nio_device.c:672-762 | SET_SERIAL is accepted exactly for the lengths of encoded configurations |
| NioBroker.GetSerialHoldsEncodings | amiga/nio.device/fujinet_nio_device.c:672-762 | GET_SERIAL is accepted exactly for buffers that hold every configuration there can be |
| NioBroker.EncodingReturns | amiga/nio.device/fujinet_nio_device.c:318-333 | GET_SERIAL then returns every configuration with its full length |
| NioBroker.BegunOrRefused | amiga/nio.device/fujinet_nio_device.c:672-762 | BeginIO queues a request that is in order, if there is memory, at the end and with the worker signalled; every other one is refused with its error and nothing else happens |
| NioBroker.WordsAndPackets | amiga/nio.device/fujinet_nio_device.c:672-762 | SET_BAUD and GET_BAUD are accepted exactly with one 32-bit word, an exchange exactly with at most one packet each way |
| NioBroker.CompletionFits | amiga/nio.device/fujinet_nio_device.c:246-276 | for every answer of the backend the reported length fits the request's buffer, and is zero on failure |
| NioBroker.ExpungeOnlyWhenIdle | amiga/nio.device/fujinet_nio_device.c:564-613 | every return of the segment list follows a locked check that found the device idle, a window in which anything may happen, and a stopped worker |
| NioBroker.StillIdleIff | amiga/nio.device/fujinet_nio_device.c:569-612 | the device is idle when the segment list is returned if and only if every open since the locked check has been closed and every submission since then has been replied |
| NioBroker.UndisturbedUnload | amiga/nio.device/fujinet_nio_device.c:569-612 | callers that neither open nor submit after the check find the device idle at the return |
| NioBroker.DeferredIff | amiga/nio.device/fujinet_nio_device.c:515-597 | over every run an expunge is deferred if and only if one has found the device in use or its worker still running, and the device has not been opened nor an expunge passed since |
| NioBroker.IdleDeviceUnloads | amiga/nio.device/fujinet_nio_device.c:564-612 | an idle device whose worker waits unloads when asked to |
| NioBroker.UnloadUnderOpenDevice | amiga/nio.device/fujinet_nio_device.c:569-612 | a concrete run in which the segment list is returned under an open device with a queued request |
| NioBroker.QuietIffAnswered | amiga/nio.device/fujinet_nio_device.c:210-381 | nothing is queued or running if and only if every submission has been replied |
| NioBroker.NoLostWorkIff | amiga/nio.device/fujinet_nio_device.c:621-660 | in every reachable state of a loaded device the worker can serve all that waits, by itself, if and only if nothing waits, it has not been told to stop, or it is still pumping |
| NioBroker.AliveIff | amiga/nio.device/fujinet_nio_device.c:141-175 | the worker has not been told to stop if and only if no expunge has got past its check as far as that |
| NioBroker.TimedOutTeardownLosesWork | amiga/nio.device/fujinet_nio_device.c:579-593 | a concrete run in which a wait for the worker runs out, the worker ends later, and a request submitted to the still loaded device is never served |
| NioBroker.ServesAll | amiga/nio.device/fujinet_nio_device.c:357-381 | an attended worker, left to itself, serves request after request until none is left |
| NioBroker.EndsForGood | amiga/nio.device/fujinet_nio_device.c:621-660 | a worker that has ended stays so in every run |
| NioBroker.ComesToRest | amiga/nio.device/fujinet_nio_device.c:357-381 | from every reachable state of a loaded device the worker alone comes to rest; unless it has been told to stop, nothing waits then |
| NioBroker.RequestQueue.Enqueue | amiga/nio.device/fujinet_nio_device.c:734-752 | the linked queue with the request structures refines the sequence of submissions: one more at the end |
| NioBroker.RequestQueue.Dequeue | amiga/nio.device/fujinet_nio_device.c:196-208 | dequeueing the linked queue takes the oldest submission |
| NioBroker.RequestQueue.Unqueue | amiga/nio.device/fujinet_nio_device.c:771-778 | removal from the linked queue takes exactly the given request's submission |
| NioBroker.NioDevice.BeginIO | amiga/nio.device/fujinet_nio_device.c:672-762 | exactly the protocol's submission step: the verdict on the request's fields, then queueing |
| NioBroker.NioDevice.TakeNext | amiga/nio.device/fujinet_nio_device.c:357-381 | exactly the worker's locked dequeue, or going idle |
| NioBroker.NioDevice.CallBackend | amiga/nio.device/fujinet_nio_device.c:210-276 | result, length and backend state after open on demand, call, and close after a fault or reconfiguration |
| NioBroker.NioDevice.Process | amiga/nio.device/fujinet_nio_device.c:246-282 | exactly the locked completion: an aborted request is replied as aborted, any other with its result, and the abort flag is cleared |
| NioBroker.NioDevice.AbortIO | amiga/nio.device/fujinet_nio_device.c:764-788 | exactly the abort step: a queued request is withdrawn and replied, the running one is flagged, any other is untouched |
| NioBroker.NioDevice.CloseDevice | amiga/nio.device/fujinet_nio_device.c:527-562 | exactly the locked part of the close: the caller's queued request is aborted; the result says whether the caller goes on to a deferred expunge |
| NioBroker.NioDevice.TryExpunge | amiga/nio.device/fujinet_nio_device.c:564-577 | exactly the locked check: defers unless nothing is open, queued or running |
| NioBroker.NioDevice.WakeUp | amiga/nio.device/fujinet_nio_device.c:621-660 | a signalled worker starts to pump, or ends for good if it has been told to stop |
| NioBroker.NioDevice.RequestStop | amiga/nio.device/fujinet_nio_device.c:141-175 | worker_stop is set for good and the worker signalled |
| NioBroker.NioDevice.FinishExpunge | amiga/nio.device/fujinet_nio_device.c:579-612 | the teardown returns the segment list exactly if the worker has ended; otherwise expunge is deferred again |
| DiskBroker.StepKeepsInv | amiga/disk.device/fujinet_disk_device.c:831-1005 | every atomic step of callers, worker and expunge keeps wakefulness, conservation and unit range |
| DiskBroker.NoLostWork | amiga/disk.device/fujinet_disk_device.c:389-458 | in every reachable state a worker neither signalled nor draining leaves only requests held by stopped units, none of them START or FLUSH |
| DiskBroker.ServesAll | amiga/disk.device/fujinet_disk_device.c:831-861 | from every reachable state of a loaded device the worker alone comes to rest: nothing is in progress, and only requests of stopped units other than START and FLUSH wait |
| DiskBroker.StoppedIff | amiga/disk.device/fujinet_disk_device.c:669-674 | over every run a unit is stopped if and only if a CMD_STOP for it has been processed and no CMD_START since |
| DiskBroker.HeldWhileStopped | amiga/disk.device/fujinet_disk_device.c:441-458 | after a processed CMD_STOP and before the next processed CMD_START the worker takes no request of the unit but CMD_START and CMD_FLUSH |
| DiskBroker.AcceptedIff | amiga/disk.device/fujinet_disk_device.c:863-969 | BeginIO queues exactly the requests of valid units for which there is memory, except those completed on the spot; an accepted request waits at the end with the worker signalled |
| DiskBroker.FlushAtOnce | amiga/disk.device/fujinet_disk_device.c:891-899 | a flush by BeginIO replies every waiting request of the unit, no other, whatever the worker does |
| DiskBroker.FinishReplies | amiga/disk.device/fujinet_disk_device.c:669-676 | the worker replies exactly the request it was processing, and with CMD_FLUSH every waiting request of its unit |
| DiskBroker.RegisterSettles | amiga/disk.device/fujinet_disk_device.c:744-764 | a processed change request is retained if there is memory, given back if it was retained already, and replied otherwise |
| DiskBroker.RegisteredIff | amiga/disk.device/fujinet_disk_device.c:744-782 | over every run a change request is retained if and only if it has been processed with memory to retain it, and neither removed nor aborted nor closed since |
| DiskBroker.AbortReplies | amiga/disk.device/fujinet_disk_device.c:971-1008 | AbortIO replies the retained change request of that unit and request, if there is one, otherwise the oldest queued entry of the request, and nothing else |
| DiskBroker.WithdrawReplies | amiga/disk.device/fujinet_disk_device.c:277-290 | a close gives back the request's change registrations without a reply and replies its oldest queued entry |
| DiskBroker.EveryRequestAccounted | amiga/disk.device/fujinet_disk_device.c:831-969 | every accepted request is queued, running, replied, retained or given back, with the multiplicity with which it was accepted |
| DiskBroker.ExpungeOnlyWhenIdle | amiga/disk.device/fujinet_disk_device.c:389-439 | every return of the segment list follows a locked check that found the device closed, its queue empty and its worker idle, and a window in which anything may happen |
| DiskBroker.StillQuietIff | amiga/disk.device/fujinet_disk_device.c:389-439 | the device is quiet when the segment list is returned if and only if every open since the locked check has been closed and as many requests were replied, retained or given back as were accepted |
| DiskBroker.UndisturbedUnload | amiga/disk.device/fujinet_disk_device.c:389-439 | callers that neither open nor submit after the check find the device quiet at the return |
| DiskBroker.DeferredIff | amiga/disk.device/fujinet_disk_device.c:262-313 | over every run an expunge is remembered if and only if it has been asked for, and the device has not been opened nor a check passed since |
| DiskBroker.QuietDeviceUnloads | amiga/disk.device/fujinet_disk_device.c:388-425 | a closed device at rest with nothing waiting unloads when asked to; no registration is kept and every accepted request is settled |
| DiskBroker.UnloadUnderOpenDevice | amiga/disk.device/fujinet_disk_device.c:389-439 | a concrete run in which the segment list is returned under an open device with a queued request |
| DiskBroker.RequestQueue.Dispatch | amiga/disk.device/fujinet_disk_device.c:441-458 | dispatching from the linked queue takes the first runnable request of the sequence |
| DiskBroker.RequestQueue.Remove | amiga/disk.device/fujinet_disk_device.c:990-999 | removal from the linked queue takes the first entry of the request |
| DiskBroker.RequestQueue.TakeAllOf | amiga/disk.device/fujinet_disk_device.c:322-332 | the flush loop over the linked queue takes out exactly the unit's requests |
| DiskBroker.FlushedLeavesOthers | amiga/disk.device/fujinet_disk_device.c:322-332 | a flush leaves nothing of its unit in the queue and every other unit's requests in their order |
| DiskBroker.DiskDevice.AbortQueuedUnit | amiga/disk.device/fujinet_disk_device.c:322-332 | exactly the unit's queued requests are replied |
| DiskBroker.DiskDevice.BeginIO | amiga/disk.device/fujinet_disk_device.c:863-969 | exactly the submission step: immediate commands (with TD_REMCHANGEINT giving a retained request back), status commands unless busy, otherwise queueing with wake-up |
| DiskBroker.DiskDevice.FetchNext | amiga/disk.device/fujinet_disk_device.c:831-847 | exactly the locked dispatch: the first runnable request, or going idle |
| DiskBroker.DiskDevice.FinishRequest | amiga/disk.device/fujinet_disk_device.c:741-847 | exactly the completion step with the effects of START, STOP and FLUSH; TD_ADDCHANGEINT is retained once, or replied if there is no memory |
| DiskBroker.DiskDevice.AbortIO | amiga/disk.device/fujinet_disk_device.c:971-1005 | exactly the abort step: a retained change request is replied, otherwise a queued request is removed and replied |
| DiskBroker.DiskDevice.Withdraw | amiga/disk.device/fujinet_disk_device.c:277-290 | exactly the unlocked head of the close: the request's registrations go, and its queued request is replied |
| DiskBroker.DiskDevice.Close | amiga/disk.device/fujinet_disk_device.c:291-303 | exactly the locked part of the close; the result says whether the caller goes on to a deferred expunge |
| DiskBroker.DiskDevice.CheckExpunge | amiga/disk.device/fujinet_disk_device.c:389-408 | exactly the locked check: only when wanted, closed, empty and idle |
| DiskBroker.DiskDevice.FinishExpunge | amiga/disk.device/fujinet_disk_device.c:410-438 | exactly the teardown: registrations are discarded and the segment list is returned, whatever happened since the check |
| PaulaRing.StatusBits | amiga/include/fujinet_paula_uart.h:6-18 | the receive-full and overrun tests are the masks 0x4000 and 0x8000 of SERDATR |
| PaulaRing.MaskWraps | amiga/serial.device/fujinet_paula_uart.c:47-68 | masking a 16-bit index of a power-of-two ring, possibly negative, is wrapping it by one lap |
| PaulaRing.AcceptsSize | amiga/serial.device/fujinet_paula_uart.c:25-36 | accepts exactly the powers of two from 2 up |
| PaulaRing.NoLossKeepsAll | amiga/serial.device/fujinet_paula_uart.c:53-68 | without a loss every signalled byte is in the queue, in order |
| PaulaRing.ArriveKeepsFirst | amiga/serial.device/fujinet_paula_uart.c:47-75 | a full ring keeps exactly the first bytes there is room for, and loses one if and only if there are more |
| PaulaRing.ArriveExtends | amiga/serial.device/fujinet_paula_uart.c:53-68 | arrivals only extend the queue and never beyond its room |
| PaulaRing.ArriveConcat | amiga/serial.device/fujinet_paula_uart.c:53-68 | contents and loss of two bursts are those of their concatenation |
| PaulaRing.Rx.constructor | amiga/serial.device/fujinet_paula_uart.c:25-36 | starts empty with both latches clear |
| PaulaRing.Rx.Available | amiga/serial.device/fujinet_paula_uart.c:47-51 | the number of bytes waiting |
| PaulaRing.Rx.Ingest | amiga/serial.device/fujinet_paula_uart.c:53-68 | appends a signalled byte if there is room, otherwise keeps the contents and latches overflow; hardware overrun is latched whatever the ring does |
| PaulaRing.Rx.Interrupts | amiga/serial.device/fujinet_serial_device.c:180-214 | a burst of interrupts is the sequence of its arrivals; overflow is latched exactly if a byte found the ring full |
| PaulaRing.Rx.Read | amiga/serial.device/fujinet_paula_uart.c:70-89 | with interrupts before the snapshot, before every byte copied and before the tail moves, the call returns exactly the oldest bytes at the snapshot and behaves as one atomic read when the tail moves; later arrivals are all behind; loss only when full, with overflow latched |
| PaulaRing.Rx.CopyOldest | amiga/serial.device/fujinet_serial_device.c:355-377 | the two copies around the end of the buffer deliver the oldest bytes although the ring keeps filling |
| PaulaRing.Rx.Advance | amiga/serial.device/fujinet_paula_uart.c:84-88 | moving the tail drops exactly the bytes returned |
| SerialLifecycle.TbeKeeps | amiga/serial.device/fujinet_serial_lifecycle.c:410-431 | each transmitter interrupt keeps committed + remaining = length and the number of interrupts = committed + accepted |
| SerialLifecycle.StartKeeps | amiga/serial.device/fujinet_serial_lifecycle.c:369-408 | accepting a write while none is pending keeps the accounts |
| SerialLifecycle.ResolveKeeps | amiga/serial.device/fujinet_serial_lifecycle.c:23-57 | resolving a write by any one owner replies it once, with the full length on success and exactly the bytes sent on abort |
| SerialLifecycle.WriteCompletes | amiga/serial.device/fujinet_serial_lifecycle.c:410-431 | exact state after k transmitter interrupts: a write left alone is flagged complete after length + 1 of them and not earlier |
| SerialLifecycle.CompletedWriteRepliesInFull | amiga/serial.device/fujinet_serial_lifecycle.c:433-444 | the completion then replies success with the full length |
| SerialLifecycle.RepliedWriteIsOver | amiga/serial.device/fujinet_serial_lifecycle.c:369-431 | a write that has been replied, aborted or not, sends nothing more |
| SerialLifecycle.OverwriteLosesPending | amiga/serial.device/fujinet_serial_lifecycle.c:298-301 | a zero-length read loses exactly the pending read: it is in no reply and no longer pending |
| SerialLifecycle.StepLosesIff | amiga/serial.device/fujinet_serial_lifecycle.c:260-359 | one step loses a read if and only if it is a zero-length read while another is pending; replies are only added |
| SerialLifecycle.LostIff | amiga/serial.device/fujinet_serial_lifecycle.c:165-473 | over every run a read is lost if and only if some event is a zero-length read while another read is pending; replies already given stay |
| SerialLifecycle.EveryReadRepliedIff | amiga/serial.device/fujinet_serial_lifecycle.c:165-473 | over every run every accepted read that is no longer pending has been replied, if and only if no zero-length read has come while another read was pending |
| SerialLifecycle.FlaggedReadIsFull | amiga/serial.device/fujinet_serial_lifecycle.c:260-316 | over every run: a reply is Ok with exactly the oldest bytes asked for if its flag was raised for the read that is still pending and no write, flush, clear, abort, open or overwrite came between flag and delivery |
| SerialLifecycle.FlagsExactlyTheSatisfied | amiga/serial.device/fujinet_serial_lifecycle.c:271-314 | a receive interrupt and an accepted read leave the pending read flagged if the ring satisfies it, and raise no other flag |
| SerialLifecycle.WaitingBytesAreDelivered | amiga/serial.device/fujinet_serial_lifecycle.c:271-296 | a pending read for which enough bytes wait, in the ring and in Paula together, is replied by the next interrupt and its delivery: Ok, with the oldest bytes |
| SerialLifecycle.RepliesOf | amiga/serial.device/fujinet_serial_lifecycle.c:260-359 | every reply comes from a flagged delivery or from an abort, and what it carries |
| SerialLifecycle.RepliesAreFull | amiga/serial.device/fujinet_serial_lifecycle.c:260-359 | over every run without aborts, overwrites and discards every reply is full, and the flag never outlives its read |
| SerialLifecycle.BytesComeInOrder | amiga/serial.device/fujinet_serial_lifecycle.c:165-473 | over every run that destroys no bytes, what callers have got, what the ring holds and what Paula holds are, one after the other, exactly the bytes received |
| SerialLifecycle.WriteEmptiesFlaggedRead | amiga/serial.device/fujinet_serial_lifecycle.c:369-384 | a concrete run in which a write between flag and delivery makes the read complete successfully with no data |
| SerialLifecycle.StaleSoftintGivesShortRead | amiga/serial.device/fujinet_serial_lifecycle.c:281-293 | a concrete run in which the flag of a flushed read completes the next read successfully with no data |
| SerialLifecycle.Lifecycle.Open | amiga/serial.device/fujinet_serial_lifecycle.c:194-237 | busy, refused with every claim given back, or open with an empty ring and receive armed |
| SerialLifecycle.Lifecycle.CloseLast | amiga/serial.device/fujinet_serial_lifecycle.c:239-246 | the last close aborts what is pending, reporting exactly the bytes sent, silences both interrupts and completes a deferred expunge |
| SerialLifecycle.Lifecycle.Teardown | amiga/serial.device/fujinet_serial_lifecycle.c:122-147 | nothing is pending when the interrupt vector goes back to its owner |
| SerialLifecycle.Lifecycle.Read | amiga/serial.device/fujinet_serial_lifecycle.c:295-316 | exact result and new state of a read for every length and state |
| SerialLifecycle.Lifecycle.Softint | amiga/serial.device/fujinet_serial_lifecycle.c:281-293 | hands the oldest bytes, at most as many as asked for, to the pending read |
| SerialLifecycle.Lifecycle.FlushAll | amiga/serial.device/fujinet_serial_lifecycle.c:325-359 | aborts what is pending and empties the ring |
| SerialLifecycle.Lifecycle.Write | amiga/serial.device/fujinet_serial_lifecycle.c:369-408 | exact result and new state of a write, the ring discarded first |
| SerialLifecycle.Lifecycle.WriteSoftint | amiga/serial.device/fujinet_serial_lifecycle.c:433-444 | completes the pending write as its transmitter owner |
| SerialLifecycle.Lifecycle.AbortWrite | amiga/serial.device/fujinet_serial_lifecycle.c:446-456 | aborts the pending write with exactly the bytes sent |
| SerialLifecycle.Lifecycle.WriteByte | amiga/serial.device/fujinet_serial_lifecycle.c:458-473 | with interrupts enabled the pump completes the byte within its bound; with interrupts off the write stays pending |
| SerialLifecycle.Lifecycle.RbfHandler | amiga/serial.device/fujinet_serial_lifecycle.c:271-279 | waiting words are drained into the ring up to its room; a pending read that the ring now satisfies is flagged; with interrupts off at the master nothing moves |
| SerialLifecycle.Lifecycle.SetParams | amiga/serial.device/fujinet_serial_lifecycle.c:165-187 | refused while closed, while anything is pending or for bad parameters; otherwise the ring is discarded and reception armed |
| SerialLifecycle.Lifecycle.Query | amiga/serial.device/fujinet_serial_lifecycle.c:361-367 | arms reception and counts the bytes waiting |
| SerialLifecycle.Lifecycle.Run | amiga/serial.device/fujinet_serial_lifecycle.c:165-473 | for every sequence of calls and interrupts: each accepted write is replied exactly once by one owner, replies once given stay, the vector is never restored under a pending write, a pending read has reception armed and is flagged as soon as the ring satisfies it, and the receive side goes through a run of read steps, so that a read is lost if and only if a zero-length read comes while another is pending |
| SectorCache.WriteKeepsAgreementIff | msdos/src/driver/commands.c:242-251 | after a written sector the cache agrees with the disk if and only if every other copy of that sector, of this unit or of one sharing the slot, already held the new data |
| SectorCache.FailedWriteKeepsAgreementIff | msdos/src/driver/commands.c:673-690 | after a write that reached the disk but was reported failed, agreement holds if and only if every cached copy already held the new data |
| SectorCache.DuplicateGoesStale | msdos/src/driver/commands.c:529-600 | a run of the driver itself (two reads with batches of two, one write) after which a cached copy differs from the disk |
| SectorCache.WriteAllKeepsAgreement | msdos/src/driver/commands.c:628-706 | writing a run of sectors with at most one cached copy each keeps agreement |
| SectorCache.LostWriteKeepsAgreement | msdos/src/driver/commands.c:673-690 | sectors that reached the disk in a call reported as failed do no harm if none of them is cached |
| SectorCache.UniqueIsSole | msdos/src/driver/commands.c:222-262 | without duplicates, every sector of a unit that shares its slot with no other has at most one cached copy |
| SectorCache.PutAllReads | msdos/src/driver/commands.c:628-706 | after a run of sectors is written they read back in order, and every other sector of every slot is unchanged |
| SectorCache.Find | msdos/src/driver/commands.c:222-230 | the lowest-index copy |
| SectorCache.DosDriver.CacheFind | msdos/src/driver/commands.c:222-230 | finds the lowest-index copy, or none |
| SectorCache.DosDriver.CacheStore | msdos/src/driver/commands.c:232-240 | replaces exactly the round-robin victim |
| SectorCache.DosDriver.CacheRefresh | msdos/src/driver/commands.c:242-251 | refreshes only the lowest-index copy |
| SectorCache.DosDriver.CacheInvalidateUnit | msdos/src/driver/commands.c:253-262 | invalidates exactly the unit's entries |
| SectorCache.DosDriver.FetchBatch | msdos/src/driver/commands.c:544-587 | retries until a call completes, up to the retry limit, unless the limit is lowered: exactly a short frame, wrong length or wrong checksum of more than one sector halves the batch; a fetched batch is the disk |
| SectorCache.DosDriver.FillCache | msdos/src/driver/commands.c:599-600 | the whole batch goes to consecutive round-robin positions, in agreement with the disk, whether or not parts of it were cached |
| SectorCache.DosDriver.ReadSome | msdos/src/driver/commands.c:513-609 | each round delivers sectors equal to the disk, lowers the batch limit, or gives up; with one-sector batches no duplicate appears |
| SectorCache.DosDriver.Input | msdos/src/driver/commands.c:481-610 | terminates for every pattern of failures; the delivered sectors equal the disk sector by sector; the cache stays in agreement and the batch limit at least 1; delivers everything whenever one of any retries + 1 calls completes, and, whatever the retry limit, after m damaged frames if the batch can be halved m times; other errors leave the batch limit alone; damaged frames alone are fatal only to a single sector |
| SectorCache.DosDriver.WriteBatch | msdos/src/driver/commands.c:673-703 | an acknowledged batch is on the disk and refreshed in the cache, sector by sector |
| SectorCache.DosDriver.Output | msdos/src/driver/commands.c:628-706 | the disk receives exactly the leading sectors that reached it and nothing else changes, acknowledged or not; exactly the acknowledged ones are refreshed; agreement is kept if each of these had at most one copy and the others none; inside the image whole batches are written up to the first call that fails |
| SectorCache.DosDriver.BuildBpb | msdos/src/driver/commands.c:416-462 | reports the boot sector of the disk, from the cache or fetched and cached, creates no duplicate, and takes the sector count that bounds later reads and writes from it |
| SectorCache.CountIsRead | msdos/src/driver/commands.c:493-496 | a boot sector that describes an image of n sectors, in its 16-bit or its 32-bit field, is read as n |
| SectorCache.DosDriver.SetUnitMap | msdos/src/driver/commands.c:349-363 | a remapped unit's sectors are dropped, so agreement survives; bad units and slots change nothing |
| SectorCache.DosDriver.WriteAlone | msdos/src/driver/commands.c:628-706 | a write to a unit with a slot of its own, whose failed calls leave the disk alone, keeps agreement and creates no duplicate |
| SectorCache.DosDriver.Serve | msdos/src/driver/commands.c:222-706 | with one-sector batches, every run of reads, writes, BPB builds and arbitrary remaps keeps at most one entry for each unit and sector, equal to the disk, if each write goes to a unit that shares its slot with no other at that time and failed writes leave the disk alone |
| NioTransaction.FrameChecksum | msdos/src/nio/nio_protocol.c:40-48 | checksumming header and payload in turn gives the residue of the whole frame with its checksum byte zeroed |
| NioTransaction.Validate | msdos/src/nio/nio_protocol.c:13-68 | decides exactly what a frame means to the waiting caller, in the order of the checks: nine outcomes |
| NioTransaction.MeaningIff | msdos/src/nio/nio_protocol.c:13-68 | each outcome by the bytes of the frame: a reply if and only if the frame is intact, of this device and command, with one status byte and data that fits; stale if and only if intact and of another device or command |
| NioTransaction.FailureIff | msdos/src/nio/nio_transaction.c:32-62 | exactly the receptions that are neither a reply nor stale and in which line, wait or frame is broken are retried, and which error names them |
| NioTransaction.SealedIsIntact | msdos/src/nio/nio_transaction.c:163-173 | every frame the sender builds has a right length field and checksum, its device, command and field bytes, and its payload |
| NioTransaction.IntactIffSealed | msdos/src/nio/nio_protocol.c:40-48 | the intact frames are exactly the sealed ones |
| NioTransaction.ResponseRoundTrip | msdos/src/nio/nio_protocol.c:13-68 | a service's response comes back as its status and data exactly when the data fits the caller's buffer |
| NioTransaction.CorruptionNoticed | msdos/src/nio/nio_protocol.c:3-48 | exactly which single corrupted byte goes unnoticed: a swap of 0x00 and 0xFF outside length field and checksum |
| NioTransaction.StaleLoopEndsIff | msdos/src/nio/nio_transaction.c:112-116 | the byte-sized stale counter can end the loop if and only if the limit is below 255, and then after limit + 1 stale responses |
| NioTransaction.Once | msdos/src/nio/nio_transaction.c:64-135 | one frame out; every reception but the last is an intact frame of another device or command, and the last is one only after limit + 1 of them; success if and only if the last is a reply; result, status, data and error are exactly those of the last reception, even if the reply buffer is the receive buffer or the payload |
| NioTransaction.Prepare | msdos/src/nio/nio_transaction.c:158-173 | header and payload together are the sealed frame of the request |
| NioTransaction.Call | msdos/src/nio/nio_transaction.c:137-202 | at most retries + 1 byte-identical frames, each followed by at most limit + 1 receptions of which only stale ones are skipped; an attempt is followed by another if and only if its last reception is broken and attempts are left; success if and only if the last reception is an intact frame of this device and command with a status byte and data that fits, which is copied exactly |
| NioTransaction.MoveDown | msdos/src/nio/nio_transaction.c:127-131 | the overlapping move copies right when the reply buffer is the receive buffer |
| Checksum.Compute | msdos/src/nio/nio_protocol.c:3-11 | the accumulating loop yields the fold and, for byte-sized seeds, 0 for a zero total and otherwise 1 + (total - 1) mod 255 |
| Checksum.FoldIsResidue | msdos/src/nio/nio_protocol.c:3-11 | closed form of the fold for every byte-sized seed |
| Checksum.FoldConcat | msdos/src/nio/nio_protocol.c:43-48 | seeding the second piece with the first piece's checksum is checksumming the concatenation |
| Checksum.FoldIgnoresOrder | msdos/src/nio/nio_protocol.c:3-11 | rearranging bytes keeps the checksum |
| Checksum.SkipIsZeroing | amiga/tools/fujinet-nio-native-test-probe.c:25-37 | skipping one byte gives the checksum with that byte zeroed |
| Checksum.SingleByteChange | msdos/src/nio/nio_protocol.c:3-11 | a changed byte keeps the checksum if and only if it swaps 0x00 and 0xFF while seed and remaining bytes do not all sum to zero |
| DiskDriver.Driver.Mount | amiga/common/fujinet_disk_driver.c:123-179 | succeeds exactly when every client call does and both reported geometries are those of a raw DD or HD floppy in this unit's slot; success is a new generation, strictly newer before 32-bit wrap; failure keeps the generation, and the old medium if one is still mounted |
| DiskDriver.Driver.RestoreBoot | amiga/common/fujinet_disk_driver.c:181-209 | succeeds exactly with a valid boot medium; success is a new generation; failure keeps it |
| DiskDriver.Driver.Eject | amiga/common/fujinet_disk_driver.c:237-255 | succeeds exactly for a mounted medium that the client unmounts; success is a new generation; failure changes nothing mounted |
| DiskDriver.Driver.AcknowledgeChange | amiga/common/fujinet_disk_driver.c:222-235 | a pending remote acknowledgement is retried, stays pending exactly if that fails, and never changes the local generation |
| DiskDriver.Driver.Commit | amiga/common/fujinet_disk_driver.c:161-178 | a new medium is committed with its generation counted, twice when it replaces a mounted one |
| DiskDriver.Driver.ChangeNum | amiga/disk.device/fujinet_disk_device.c:680-683 | the stamp handed out is the present generation of the present medium |
| DiskDriver.Driver.Admit | amiga/disk.device/fujinet_disk_device.c:591-651 | admits exactly the transfers of whole sectors inside a mounted medium, writable for a write, whose ETD count is not older than the generation; a stamp taken under the mounted medium is honoured; before wrap an admitted ETD count was stamped under this very medium |
| DiskDriver.Driver.Read | amiga/common/fujinet_disk_driver.c:295-351 | the client is reached exactly for admitted transfers; the blocks reported hold the mounted medium's data; the first sector call that fails or comes up short ends the transfer with its error; an ETD read never touches a later medium than its stamp's |
| DiskDriver.Driver.Write | amiga/common/fujinet_disk_driver.c:257-293 | exactly the blocks reported are written, to the mounted medium and no other; the first sector call that fails ends the transfer with its error; an ETD write never touches a later medium than its stamp's |
| SerialConfig.NameOk | amiga/include/fujinet_nio_serial_config.h:14-27 | accepts exactly non-empty names of at most 30 permitted characters |
| SerialConfig.Encode | amiga/include/fujinet_nio_serial_config.h:29-42 | encodes exactly valid names that fit, writes exactly the payload, and nothing on failure |
| SerialConfig.Decode | amiga/include/fujinet_nio_serial_config.h:44-64 | accepts exactly the encodings of valid names that fit the caller's buffer and returns what was encoded |
| SerialConfig.EncodedInjective | amiga/include/fujinet_nio_serial_config.h:29-64 | different configurations have different payloads |
| SerialConfig.PayloadLengths | amiga/include/fujinet_nio_serial_config.h:29-42 | the lengths of payloads are exactly those from 6 to 35 |
| SerialConfig.DecodeEncoded | amiga/include/fujinet_nio_serial_config.h:29-64 | decoding an encoding returns unit and name |
| SessionDiag.ParseLayout | amiga/include/fujinet_nio_session_diag.h:95-126 | a stored record parses back, whatever follows it |
| SessionDiag.CountDelimiters | amiga/include/fujinet_nio_session_diag.h:66-69 | the number of 0xC0 bytes, saturated at 255 |
| SessionDiag.Measure | amiga/include/fujinet_nio_session_diag.h:40-67 | the saturated lengths, count and prefix lengths that a record of this capacity can hold |
| SessionDiag.SummaryIsMaximal | amiga/include/fujinet_nio_session_diag.h:40-93 | the summary loses nothing it has room for: lengths and the 0xC0 count are those of the session unless saturated, and the prefixes are cut short only at 16 bits, at 255 bytes of leftover, or by the end of the record |
| SessionDiag.Fill | amiga/include/fujinet_nio_session_diag.h:40-93 | for every capacity of at least 16 the buffer parses back to the saturated lengths, the saturated 0xC0 count and the exact raw and leftover prefixes, nothing beyond the record is written; smaller capacities write nothing |

## Left out

- Real file I/O, path joining, name-cache effects and the Kickstart 1.3 branches of the directory backend: the directory is abstract, with atomic rename and remove. A remove that fails may have happened; a rename that fails has not.
- DirectoryRecovery.StepKeepsInv: does not include a publishing rename that reports failure although it has happened, because the protocol does not survive it (DirectoryRecovery.FailedRenameMustNotPublish).
- DirectoryBackend.DirectoryGuest.Quiesce: models the time limit as a number of polls, because delays are not observable.
- Power loss of the host's disk: amiga/README.md makes no claim about it.
- The serial backend of nio.device and SLIP framing: the codec is not part of this model; a reception is a received frame.
- Exec internals, process creation, resident tags, memory release and interrupt-vector assembly: Disable/Enable sections are atomic steps, Signal is a flag, ReplyMsg is a history entry.
- NioBroker.StepKeepsInv: assumes that callers do not resubmit an outstanding request, as Exec demands of them.
- DiskBroker.DiskDevice.Withdraw: is one atomic step, although the code removes registrations and the queued request outside Disable; the locked close and the expunge check are steps of their own.
- Clearing of io_Unit of a running request at close, signalling of media changes, and the order of change registrations: registrations are a set, at most one for each unit and request, as the code keeps them.
- NioBroker.ExpungeOnlyWhenIdle: treats a second expunge that passes its check during a teardown as the same teardown, and closing the backend and freeing the memory as one step after the wait for the worker.
- DiskBroker.ExpungeOnlyWhenIdle: takes the removal of the worker task and the release of transport and memory as one step at the end of the window.
- PaulaRing.Rx.Read: takes reading one ring byte and updating an index as atomic, as they are on the 68000.
- SerialLifecycle.Lifecycle.Run: delivers software interrupts only while flagged, which the code itself does not re-check.
- Baud-rate and word-format checks (a parameter of SetParams), the overrun flag of Query and the claim traces of the lifecycle file: straight-line code, settled by reading it.
- SectorCache.DosDriver.Serve: assumes one-sector batches, and of writes that their unit shares its slot with no other and that failed calls leave the disk alone; the `Iff` lemmas cover what happens otherwise.
- SectorCache.DosDriver.Input: takes any 16-bit count; in 16-bit C the buffer offset `done * SECTOR_SIZE` wraps at 64 KB, so the statement holds of the code for up to 128 sectors in one call.
- SectorCache.DosDriver.Output: likewise, for up to 128 sectors in one call.
- Cached disk information and media check of the MS-DOS driver: readiness, write protection and the early exit are parameters; a medium swapped behind the driver's back is not modelled.
- NioTransaction.Call: requires a stale limit below 255 and a payload that is not the receive buffer; with a payload that is absent but has a length, only the sameness of the frames is stated.
- Checks for null pointers in arguments and in the ports of the transaction layer: arguments are present unless their absence is data here.
- Checksum.FoldIsResidue: states no closed form for seeds above 255, which no caller passes.
- DiskDriver.Driver.Admit: promises the medium of an ETD stamp only before the 32-bit change counter wraps.
- The disk-service codecs of the sibling library, its packet checksum and its client: the checksum is the same end-around sum, the client is a script of results.
- SerialConfig.Encode: takes the name without its terminator, so an unterminated name cannot be passed.
- DosEnvec tables, media profiles, filesystem classification, command-line tools, printing and configuration parsing: straight-line code, settled by reading it.
