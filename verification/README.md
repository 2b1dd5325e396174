# A verified model of the cache-upload daemon

The daemon listens on a Unix socket, receives store paths to push, computes their closures, and
uploads every path of those closures that no cache has yet: first the NAR, in parts, and only then
the NARInfo that makes it visible.  When it is told to stop it finishes what it has accepted, reports
its progress to the client that stopped it, and ends with a report.

This project models the four pieces that carry that behaviour and proves what they guarantee.

* **The wire protocol** (`Wire`, `Readers`, `Receiving`, `Sending`, `Connection`).  The receiver is the
  real algorithm over a 1024-byte array with `start..end` indices and in-place compaction; it is
  proved against a decoder that looks at the whole byte string at once.
* **The event loop** (`Scheduler`, `SchedulerInvariants`, `SchedulerTheorems`, `SchedulerHistory`,
  `ScheduleIndependence`, `EventLoop`).  A transition system whose runs are all interleavings of
  channel sends and of the arms of the `select!`; the theorems are about every run.  `EventLoop.Loop`
  is the imperative loop, proved to follow the transition system.
* **The uploads** (`Upload`, `UploadSafety`, `UploadTheorems`, `SharedServer`, `StreamAdapters`,
  `UploadMoves`, `UploadRequests`, `NarUpload`, `UploadRefinement`).  A transition system for one path in which the NAR writer, the
  bounded pipe, the uploader, the server's answers and the other handlers interleave freely, and in
  which any request can be refused or lose its answer after taking effect.  `SharedServer` runs the
  handlers of a daemon together on one server and proves that each one's view is a run of that system.
  `NarUpload.Uploading` is the imperative upload loop; every one of its histories is proved to be a run
  of the transition system.
* **The NAR traversal** (`FileNames`, `NarTree`, `NarOrder`, `NarTraversal`).  The calls made on the archive
  writer, a decoder for them, and the recursive writer with its path cursor.

`PushDecision` is the race between the cache and its upstreams.  `EndToEnd` joins all of it: from the
bytes on a client's connection, through the event loop, the decisions and the uploads, to the final
report and the NARInfos that are then visible.

## How to read the theorems

* A trace is a sequence of steps; `Valid` says that each step is possible where it happens, and
  `Exec` is the state reached.  What a trace says happened (`Sent`, `Consumed`, `Closures`,
  `Handled`) is read off its steps, not off the state.
* `u32` and `u64` counters wrap, as they do in the release build: the report is proved equal to the
  exact totals modulo 2^32 and 2^64, and to the exact totals while they are in range.
* Store-path printing and parsing, the UTF-8 check and SHA-256 belong to other crates; they are
  parameters, so the theorems hold for all of them.
* A read into an empty slice reads nothing.  A frame with no separator among its first 1024 bytes
  therefore ends the stream silently, and the simple decoder says so.
* The server is assumed to issue part URLs in the order of the requested numbers, to store a part
  under the number its URL was issued for, to complete an upload only if the etags match, and to give
  every upload its own id.  That the handlers of this daemon leave each other's uploads and hashes
  alone is proved (`OthersUntouched`, `ViewsAreRuns`); of whoever else uses the server it is assumed.
* A push is safe exactly if no stop was sent before it: `EarlyPushIsAccounted` for those before any
  stop, `LateEventIsLost` for a run that loses one sent after a stop, and `SafeExactlyBeforeStop` for
  the equivalence.
* `upload_nar` does not always terminate: it asks again for as long as refills bring no URL, or only
  expiring ones.  `WasteMakesLength` and `TerminatesExactly` show, for all runs with failures anywhere,
  that such wasted refills are the only cause; `LateRefillsSpin` is an endless run from every start.

## Model

| member | source | states |
|---|---|---|
| Wire.RoundTrip | src/protocol.rs:123-143 | for any list of messages that are sendable up to its first stop, decoding the concatenated encodings gives the list back up to and including that stop |
| Wire.RoundTripExact | src/protocol.rs:176-230 | for a path whose text has no newline, a single push comes back exactly if the text does not start with NUL, is at most 1023 bytes, is UTF-8 and reads back as the path |
| Wire.DecodeShape | src/protocol.rs:227-229 | all items of a stream but the last are pushes: only the last can be a stop or an error |
| Wire.StopEndsStream | src/protocol.rs:189-191 | a stream that goes on with byte 0 is a stop and nothing after it |
| Wire.FrameDecides | src/protocol.rs:193-225 | a frame of at most 1023 bytes up to byte 10 is, if not UTF-8, an invalid-data error, else, if no store path, an invalid-store-path error, each ending the stream, else a push, after which the stream goes on |
| Wire.NoFrameEndsStream | src/protocol.rs:193-204 | with no byte 10 among the first 1024 the stream ends: with the reader's failure if that shows before the buffer is full, else silently |
| Wire.StopOnlyFromSentinel | src/protocol.rs:189-191 | a stop comes from a byte 0 at the start of the stream or after a byte 10, and from nothing else |
| Wire.StoreDirRoundTrip | src/protocol.rs:233-254 | parsing accepts exactly the NUL-free texts, inverts printing and reports the first NUL; printing is inverted exactly for directories that are NUL-free and do not spell the default store |
| Receiving.Receiver.Compact | src/protocol.rs:195-197 | moving the unhandled bytes to the front keeps them |
| Receiving.Receiver.Advance | src/protocol.rs:186-225 | the retry loop terminates, and its answer is the next item, or the end, of the simple decoder on all undecoded bytes; a poll that is not ready loses no byte |
| Receiving.Receiver.PollNext | src/protocol.rs:176-230 | each poll takes exactly the first item off what the simple decoder makes of the undecoded bytes, and after a stop or an error the stream stays ended |
| Connection.Collect | src/protocol.rs:176-230 | chunking independence: whatever the splitting into reads, with pauses anywhere and a failure at any point, the items are those of the simple decoder |
| Connection.HandleIo | src/event_loop.rs:239-261 | a connection's task appends to the channel exactly the events of its decoded stream |
| Connection.ToEvents | src/event_loop.rs:246-260 | a push becomes the push of that path, a stop a stop with this connection's writer, and an error that error |
| Connection.ConnectionShape | src/event_loop.rs:246-260 | those events are pushes, then at most one stop or error, then nothing |
| Sending.Sender.StartSend | src/protocol.rs:123-143 | appends the message's encoding and keeps exactly-once delivery: accepted bytes followed by unwritten bytes are the encodings of all messages sent |
| Sending.Sender.DrainBuf | src/protocol.rs:81-108 | keeps exactly-once delivery; on success everything sent was accepted; it is not ready exactly if the writer was not, and fails exactly if the writer failed or, as write-zero, took nothing |
| Sending.Sender.Close | src/push.rs:45 | polling the close until it is ready ends, and fails only if the writer fails or takes nothing |
| Sending.Sender.PollFinish | src/protocol.rs:145-159 | flush and close drain first; on success everything sent was accepted; they fail only if the writer fails or takes nothing |
| Connection.Exchange | src/protocol.rs:81-230 | sending and receiving under any write and any read segmentation, with pauses anywhere, yields the messages up to and including the first stop, unless the writer fails or takes nothing |
| SchedulerInvariants.AlwaysWorkConserving | src/event_loop.rs:176-198 | on every run at most 32 handlers run, and if any waits exactly 32 run |
| SchedulerInvariants.ChannelAlwaysOk | src/event_loop.rs:134-150 | on every run the channel is first in, first out, the last consumed stop's writer is kept, and every consumed push is a closure in flight or computed |
| SchedulerInvariants.AlwaysInOrder | src/event_loop.rs:151-199 | on every run the handlers started followed by those waiting are the first occurrences of the discovered hashes in order, and those started are running or handled |
| SchedulerInvariants.ReportAlwaysExact | src/event_loop.rs:183-194 | on every run the report is the exact tally of the results so far, counters reduced to their width |
| SchedulerInvariants.PhaseAlwaysOk | src/event_loop.rs:203-236 | the calls on the reporter at every point of the drain, and that drained plus remaining handlers equal those left when it began |
| SchedulerTheorems.ExactlyOnce | src/event_loop.rs:154-199 | in every reachable state the seen hashes are the disjoint union of running, waiting and handled ones, each belonging to one path |
| SchedulerTheorems.DrainIsComplete | src/event_loop.rs:214-236 | when the drain loop ends nothing is running, waiting or in flight, every discovered hash was handled exactly once, and pushed + skipped + failed is their number |
| SchedulerTheorems.CountersExact | src/event_loop.rs:187-194 | while the totals fit their types the report's counters are the totals |
| SchedulerTheorems.FinishedByStop | src/event_loop.rs:126-147 | a run ends only by a stop, and reports to the last one consumed |
| SchedulerTheorems.StopCoversEarlierPushes | src/event_loop.rs:126-185 | a push that entered the channel before a consumed stop has, at the end, a closure error in the report or a closure all of whose hashes were handled |
| SchedulerTheorems.HandledDistinct | src/event_loop.rs:154-199 | on every run no two handlers have the same store hash |
| SchedulerTheorems.EarlyPushIsAccounted | src/event_loop.rs:125-185 | a push before which no stop was sent is accounted for on every run that ends |
| SchedulerTheorems.LateEventIsLost | src/event_loop.rs:125-147 | for every history of sends and every event after a stop in it, a run that ends without taking the event out |
| SchedulerTheorems.SafeExactlyBeforeStop | src/event_loop.rs:125-147 | for every history of sends, a push is taken out on all runs that end if and only if no stop was sent before it |
| SchedulerTheorems.AnnouncedEqualsReported | src/event_loop.rs:207-236 | the reporter hears the number of paths left modulo 2^32, then for exactly that many paths, in order, that each was pushed with its size, skipped, or failed with its error, then the final report, and nothing else |
| SchedulerTheorems.TallyMeaning | src/event_loop.rs:187-194 | the totals are the numbers of pushed and of skipped results, and the errors those of the failed ones |
| SchedulerHistory.StateIsHistory | src/event_loop.rs:125-199 | which handlers were started (all discovered ones up to 32 unfinished), wait and run, which closures are outstanding and what the channel holds, as functions of what was sent, received, computed and handled |
| SchedulerHistory.StepsAreHistory | src/event_loop.rs:125-236 | exactly what the loop may do after any run: it leaves the serving loop if and only if a stop was received and every closure asked for is computed, whatever runs or waits; until then it receives, takes closures and takes results; then it takes results until all are handled |
| SchedulerTheorems.DrainedIsSuffix | src/event_loop.rs:214-229 | the paths reported during the drain are the last ones handled, in order |
| SchedulerTheorems.BlockedOnlyWhenIdle | src/event_loop.rs:125-200 | the loop waits for outside events exactly if it has nothing left to do |
| SchedulerTheorems.DrainFinishes | src/event_loop.rs:214-234 | from any point of the drain, whatever the handlers answer, it finishes after exactly the running and waiting ones |
| ScheduleIndependence.ServeOk | src/event_loop.rs:154-194 | the sequential daemon reports the tally of the first occurrences over the closures of its pushes |
| ScheduleIndependence.AgreesWithSequentialDaemon | src/event_loop.rs:125-236 | any complete run reports what a daemon handling one push and one path at a time reports, for any order of the pushes, up to the order of the errors and the path naming a hash |
| ScheduleIndependence.ScheduleDoesNotMatter | src/event_loop.rs:125-236 | two complete runs that consumed the same pushes report the same |
| EventLoop.Loop.OnMessage | src/event_loop.rs:134-150 | the receiving arm is the `Receive` step |
| EventLoop.Loop.OnClosure | src/event_loop.rs:151-185 | the closure arm, with its loop over the paths, is the `ClosureDone` step |
| EventLoop.Loop.OnPathHandled | src/event_loop.rs:186-199 | the path arm is the `PathDone` step, in the serving and in the drain loop |
| EventLoop.Loop.ServeLoop | src/event_loop.rs:125-201 | the serving loop follows the schedule, does nothing more once a stop was received and every closure asked for is computed, and leaves then and only then |
| EventLoop.Loop.DrainLoop | src/event_loop.rs:214-234 | the drain loop follows the schedule and leaves only when nothing is running |
| EventLoop.Loop.Run | src/event_loop.rs:109-237 | the whole function follows any valid schedule to the state the transition system reaches |
| EndToEnd.EveryPushIsAccountedFor | src/event_loop.rs:109-261 | paths and a stop encoded on one connection, interleaved with any others: on every run that ends, if the stop was taken out or no other stop was sent before it, each of the paths is accounted for in the report |
| EndToEnd.UploadsAreApart | src/event_loop.rs:154-181 | because every hash is handled once, the uploads of a run have different store hashes |
| EndToEnd.EveryPushIsDealtWith | src/event_loop.rs:109-357 | then also, with the handlers uploading to one server in any interleaving: each path has a closure error in the report, or every hash of its closure failed and is in the report, was found in a cache, or has a visible NARInfo with the hash and size of its completed NAR |
| UploadSafety.UrlsAligned | src/sub60_cache.rs:430-446 | a refill in request order leaves the queue consecutive from the current part number and of one batch |
| UploadSafety.StepKeepsInv | src/sub60_cache.rs:406-486 | every step of any participant keeps alignment, stored parts, byte conservation and the absence of false positives |
| UploadTheorems.NoFalsePositives | src/event_loop.rs:289-357 | in every interleaving, with failures anywhere, a visible NARInfo belongs to a completed upload and describes exactly the stored bytes, which are the whole NAR |
| UploadTheorems.CompletedBeforePublished | src/event_loop.rs:294-355 | the NARInfo lands only after the server granted the completion of the same upload |
| UploadTheorems.UrlsStayAligned | src/sub60_cache.rs:418-478 | part i goes only to a URL issued for i in this upload; the queue continues after it, or at the loop head from the current part number, within one batch; and etag i is the server's for part i |
| UploadTheorems.UrlsFreshWhenTaken | src/sub60_cache.rs:419-430 | a URL is taken exactly if there is one whose batch outlives the clock reading by more than ten seconds |
| UploadTheorems.FinishedGeometry | src/sub60_cache.rs:449-486 | a finished upload has ceil(length / part size) parts, all full but a non-empty last one, that join to the NAR, which is shorter than 65535 full parts |
| UploadTheorems.LengthDecides | src/sub60_cache.rs:467-478 | if nothing fails, the outcome is too many parts exactly from 65535 full parts on, an error exactly for an empty NAR, and success exactly in between |
| UploadTheorems.FailureIsFinal | src/event_loop.rs:301-355 | whatever fails first, the handler ends with the error of that failure |
| UploadTheorems.VisibleExactly | src/event_loop.rs:350-355 | the NARInfo is visible if and only if a request to publish it was not refused: no earlier failure leaves one behind |
| UploadTheorems.PipeBlocks | src/event_loop.rs:297-309 | the producer can write exactly while something is left and the pipe of 65536 bytes is not full, and shut down exactly when nothing is left; the uploader can read exactly while the pipe is not empty or shut |
| UploadTheorems.SuccessCountsAllBytes | src/event_loop.rs:352-357 | a push reports the NAR's size plus the NARInfo's, saturating |
| UploadTheorems.NeverStuck | src/event_loop.rs:297-309 | writer, pipe and uploader never deadlock: until the path is settled a step that is not a failure is possible |
| UploadTheorems.WasteMakesLength | src/sub60_cache.rs:418-478 | on every run, with failures anywhere, the handler takes at most 12 * length + 9 steps and two more for each refill that brought no usable URL, and each such refill costs two steps |
| UploadTheorems.RefillsTakeOrWaste | src/sub60_cache.rs:418-447 | on every run there is at most one refill more than URLs taken and refills wasted |
| UploadTheorems.TerminatesExactly | src/sub60_cache.rs:418-478 | in an endless run of the system the handler takes finitely many steps if and only if finitely many refills are wasted |
| UploadTheorems.CooperativeRunsEnd | src/sub60_cache.rs:418-478 | if every refill brings a URL that is fresh at the next check, every run, with failures anywhere, has at most 12 * length + 9 steps and at most one refill more than URLs taken |
| UploadTheorems.LateRefillsSpin | src/sub60_cache.rs:430-447 | from every start and for whatever URLs the server issues, an endless run in which every batch has expired when the clock is read, nothing fails and nothing is stored |
| SharedServer.OthersUntouched | src/event_loop.rs:289-355 | no step of a handler changes anything on the server under another upload id or store hash |
| SharedServer.ViewsAreRuns | src/event_loop.rs:170-181 | with all handlers of a daemon on one server, each one's view of any interleaving is a run of the single-upload system |
| SharedServer.FleetHasNoFalsePositives | src/event_loop.rs:289-357 | whatever the handlers do at once, the NARInfo visible for any of them belongs to its completed upload and describes exactly its NAR |
| SharedServer.OnlyTruthBecomesVisible | src/event_loop.rs:289-357 | if nobody else uses the server, every NARInfo that becomes visible is that of a handler and describes exactly its completed NAR |
| StreamAdapters.TryFill.Poll | src/async_read_ext.rs:30-48 | across pauses no byte is lost; it is ready with the first min(buffer, stream) bytes, with fewer than the buffer only at the end of the stream |
| StreamAdapters.HashAndCountWriter.PollWrite | src/event_loop.rs:441-456 | answers what the inner writer answers; exactly the bytes accepted by the inner writer are hashed and counted |
| UploadMoves.StepsAreMoves | src/sub60_cache.rs:406-486 | the uploader's part of every step of the transition system is a move of the imperative loop's machine, and no other step touches it |
| UploadRequests.RequestsAreHonest | src/sub60_cache.rs:406-486 | on every history: the parts put are non-empty and full but for the last; each request for URLs lists the numbers of the next four parts, or up to 65535; completion is asked for at most once, last, with exactly the etags granted, one per part put, when the bodies put are all the bytes read |
| UploadRequests.PutsGoToTheirUrls | src/sub60_cache.rs:430-463 | the k-th part put goes to a URL issued for k in this upload |
| NarUpload.Uploading.TakeUrl | src/sub60_cache.rs:419-430 | drops expiring URLs and takes the next one, as the machine does |
| NarUpload.Uploading.Refill | src/sub60_cache.rs:437-446 | adds the issued URLs and their expiry, or stops |
| NarUpload.Uploading.FillPart | src/sub60_cache.rs:449-459 | reads one part, fewer bytes than a full one only at the end of the NAR |
| NarUpload.Uploading.FinishPart | src/sub60_cache.rs:463-477 | records the etag and goes on, ends, or fails at the last part number |
| NarUpload.Uploading.UploadNar | src/sub60_cache.rs:406-486 | the loop's history is a legal run of the machine, its requests are those of that run, its answers are used in order, and success means that the bodies of the parts put, joined, are the whole stream, and that completion was asked for with exactly the etags granted |
| UploadRefinement.LoopIsSimulated | src/sub60_cache.rs:406-486 | for every history of the upload loop on a NAR, with URLs issued as asked, some run of the transition system brings the uploader to the same state |
| UploadRefinement.LoopDeliversTheNar | src/sub60_cache.rs:480-486 | an upload loop that succeeds has stored the whole NAR, complete and in parts of the right sizes, each the body the loop put, under its number, to its URL |
| UploadRefinement.LoopRefusesOnlyLongNars | src/sub60_cache.rs:475-477 | an upload loop that fails with too many parts was given at least 65535 full parts |
| FileNames.LessIsBytewise | src/nix_store.rs:242-251 | the comparison of names is the bytewise lexicographic order: after the longest common prefix one name ends or has the smaller byte |
| FileNames.SortOk | src/nix_store.rs:250 | sorting a listing gives its names, once each, in strictly increasing byte order |
| FileNames.IncreasingIsUnique | src/nix_store.rs:242-251 | a directory has one sorted listing, whatever the order of its enumeration |
| FileNames.ReadDirEntries | src/nix_store.rs:244-252 | the result is the sorted listing of the names enumerated |
| NarTree.WalkSucceeds | src/nix_store.rs:209-239 | the traversal succeeds exactly on trees of directories, regular files and symlinks |
| NarTree.RoundTrip | src/nix_store.rs:205-240 | the calls made for a tree decode back to it, leaving any suffix intact |
| NarTree.Canonical | src/nix_store.rs:205-252 | the decoder, which demands strictly increasing names, accepts only the calls of the tree it returns |
| NarTree.WalkIsInjective | src/nix_store.rs:205-240 | different trees have different calls |
| NarOrder.EntriesAreOrdered | src/nix_store.rs:213-221 | in the calls made for a tree, the entries of every directory, found by counting open directories, are in strictly increasing bytewise order |
| NarOrder.DecoderDemandsOrder | src/nix_store.rs:242-251 | the decoder accepts no calls in any other order |
| NarTraversal.WriteNar | src/nix_store.rs:205-240 | the calls made for a path are those of the tree there, for every enumeration order, up to the first unsupported node |
| NarTraversal.WriteEntries | src/nix_store.rs:213-221 | the loop over the entries, whose path cursor is restored after each child |
| NarTraversal.WriteTree | src/nix_store.rs:72-82 | writing a tree succeeds exactly if it is supported, and then decodes back to it; the entries of every directory come in strictly increasing bytewise order; a file is written with its executable bit, size and contents |
| PushDecision.UpstreamCachesHaveNarInfo | src/event_loop.rs:420-426 | true exactly if some upstream answered 200; any other status and no response count as not having the path |
| PushDecision.ShouldPushStorePath | src/event_loop.rs:360-393 | for any completion order and either winner of the race: skip exactly if the cache has the path or an upstream answered 200, the cache's error exactly if it failed and none did, push exactly otherwise |

## Left out

- HTTP requests, URL building, header and body parsing and error texts: only whether a request was granted, refused or lost its answer is modelled.
- The accept arm of the event loop: it only spawns the task whose sends are the `Enqueue` steps; the tasks' scheduling is covered by letting sends happen at any time.
- Reading references, deriver, signatures and content address of a path: one answer that succeeds or fails.
- The NAR byte format inside the archive-writer crate, and I/O errors or concurrent changes of the file system during the traversal.
- The owner-executable test on the file mode: a regular file carries the bit.
- The `any` and no-op caches, process start-up, argument parsing, the text of the progress reports and the GitHub Action around the daemon.
- Panics, task cancellation inside the runtime, and time other than the clock readings of the upload loop.
- The hand-over of the part buffer between frozen and mutable bytes: the buffer is one array, reused.
