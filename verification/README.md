# A verified model of winasio

winasio is an asynchronous I/O library for Windows: overlapped operations over completion ports and the
Win32 thread pool, and on top of them an HTTP client (WinHTTP) and server (HTTP.sys). This project models
its four hardest parts in Dafny and proves what they promise, for every input, every schedule and every
answer of the platform.

**The operation lifecycle.** One heap record per operation is shared by the future that awaits it, the
kernel, a proactor's pending table and a completion dispatcher. `Lifecycle` is the code of one submission
as atomic steps (43 of them: leaking a reference, starting, claiming an address, the compare-exchanges, the
waker slot, abandoning, cancelling, draining, dropping). `LifecycleInvariant` is what every step keeps.
`System` puts any number of submissions on one heap whose freed addresses are handed out again, with the
process-wide live set, the pending tables, the thread pool's counters and shared handles. `Guarantees`
reads the invariant as statements about whole runs, and `Effects` says what it would be for a step to go
wrong. `Proactor` is the driver's own loops.

**HTTP framing.** `Server`, `Streaming`, `Client` and `H2` choose a framing and write a body of arbitrary
data, empty, trailer and error frames in bounded pieces while the platform refuses calls or takes less than
it is offered. The specification is `Recipient` and the decoder in `Wire`, written from sections 6.3 and
7.1 of RFC 9112 alone. `Duplex` is the second half of an HTTP/2 exchange.

**Transfer loops.** `ResponseBody`, `Transfer` and `Receive` run against an adversarial platform: short
reads, empty messages, early ends, a buffer with unwritten cells, an allocator that gives more room than it
was asked for, a queue that is closed at any moment.

**Header blocks.** `Headers` prints and parses them, after section 5 of RFC 9112.

Asynchronous code is modelled with a script of platform answers. Running out of answers leaves the call
suspended, so a statement about every script covers every point at which a future can be observed. Logs
hold what was handed to the platform; what the peer receives is read off the log.

## What the environment is assumed to do

- A start that returns pending produces exactly one completion packet; an inline result produces none.
- Packets of foreign overlapped calls may carry any address that is not live, and a packet arrives only at
  the backend its operation was submitted to.
- The allocator does not hand out an address that is still allocated.
- A proactor is driven by one thread, which is not polling while it is inside `submit`.
- A platform read reports no more bytes than the room it was given.
- The `http` crate takes a header value from text when it holds no control character but the tab, and gives
  text back only for visible ASCII.
- HTTP.sys declares the length of a reply sent whole when the caller has not; WinHTTP declares the total
  length it was given.

## Where the code falls short of a plain reading

Each has a concrete instance and the exact condition under which the property does hold.

- A reply to a successful `CONNECT` is read by its recipient as a tunnel (rule 2 of section 6.3 of RFC
  9112), so it is understood if and only if it is known to be empty (`Server.SendParts`,
  `Server.TunnelledReplyIsMisread`).
- A reply with a declared length whose body comes to that length and then fails, or goes on, is not closed but
  complete to its recipient; any other reply the body spoils is unfinished for it (`Server.SendParts`,
  `Server.HandedAllIffReached`, `Server.LateFailureIsMisread`).
- `Vec::with_capacity` gives a lower bound, so a response can deliver more than it declared. Delivered plus
  remaining is conserved whatever the platform returns if and only if the buffer has no more room than the
  response owes (`ResponseBody.ConservedIffRoomFits`, `ResponseBody.SurplusRoomOverruns`).
- The client notices a body longer than its declaration after writing it, and a body that fails once it has
  produced all it declared leaves the peer with a complete request; these are all the ways in which a body can
  spoil a declared request without leaving it unfinished (`Client.Request`, `Client.TooLongBodyIsMisread`,
  `Client.LateFailureIsMisread`). The HTTP/2 path never compares the two, and is understood if and only if
  they agree (`H2.ExactRequestIsUnchecked`, `H2.ExactRequestCanMislead`).
- A retry of a receive is in a larger buffer if and only if the attempt before it was below 64 MiB; a caller
  who configures more is retried in less (`Receive.RetryIsLargerIffBelowTheCeiling`,
  `Receive.RetryCanShrink`).
- A header value with a blank at an edge is accepted and does not survive (`Headers.RoundTrip`,
  `Headers.PaddedValueIsLost`).

## Model

| member | source | states |
|---|---|---|
| `LifecycleInvariant.StepKept` | crates/winasio/src/iocp/raw.rs:206-526 | every atomic step of submitting, completing, polling, dropping and cancelling keeps the invariant of the shared record, raises no fault, and changes the handle's owners and the pool's count only by its own share |
| `System.SubmitKept` | crates/winasio/src/iocp/raw.rs:355-372 | a new record at any free address, a recycled one included, disturbs no other submission |
| `System.FileKept` | crates/winasio/src/fs/file.rs:210-222 | the steps of dropping a file, in the order of its destructor, keep the invariant |
| `System.ForeignIsIgnored` | crates/winasio/src/iocp/proactor.rs:316-348 | a packet of a foreign overlapped call changes nothing, although the pending table is searched for its address |
| `System.PerformKept` | crates/winasio/src/iocp/raw.rs:237-605 | every step any actor may take keeps the invariant of the whole process |
| `System.CallersAreFree` | crates/winasio/src/iocp/raw.rs:355-372 | anyone may submit on an open file at any free address, however much is in flight, and may drop a file nobody is submitting on |
| `System.FaultsAreSeen` | crates/winasio/src/iocp/raw.rs:206-605 | a step that goes wrong marks every later state |
| `Effects.FreedMemoryFaults` | crates/winasio/src/iocp/raw.rs:65-99 | in any state whatever, a step through a pointer whose record is freed goes wrong |
| `Effects.ClosedHandleFaults` | crates/winasio/src/iocp/raw.rs:333-346 | so does a start or a cancellation on a closed handle |
| `Effects.ResultMisuseFaults` | crates/winasio/src/iocp/raw.rs:256-288 | so does reading a result that is not there, writing over one that is, and completing twice |
| `Effects.OperationMisuseFaults` | crates/winasio/src/iocp/raw.rs:94-98 | so does using an operation that was moved out, and reclaiming a reference that is not owed |
| `Effects.ReleaseMisuseFaults` | crates/winasio/src/iocp/raw.rs:206-216 | so does freeing a record with a result its state does not show, and letting go of a handle once too often |
| `Guarantees.NoRunFaults` | crates/winasio/src/iocp/raw.rs:237-605 | no interleaving touches freed or recycled memory, reads an unwritten result, loses one, moves an operation out twice, completes one twice or uses a closed handle |
| `Guarantees.CountsMatchHolders` | crates/winasio/src/iocp/raw.rs:237-290 | in every reachable state a record is allocated exactly while it has holders and its count is their number: future, kernel, pending entry, shutdown entry, dispatcher |
| `Guarantees.NeverFreedUnderTheKernel` | crates/winasio/src/iocp/raw.rs:383-416 | while Windows may write to a record, or a dispatcher or future uses it, it is allocated, and in the kernel's case live |
| `Guarantees.NothingLeaks` | crates/winasio/src/iocp/future.rs:94-112 | once every party has let go, the record has been freed |
| `Guarantees.FreedOnce` | crates/winasio/src/iocp/raw.rs:206-216 | a freed record stays freed, once, although its address is allocated again |
| `Guarantees.LiveNamesOneLeak` | crates/winasio/src/iocp/raw.rs:65-99 | every live address names one allocated record whose leaked reference nobody has reclaimed |
| `Guarantees.PacketsFindTheirOwner` | crates/winasio/src/iocp/raw.rs:581-605 | dispatching a bare address, all that a packet carries, does exactly what completing the operation leaked there does, and to any address that is not live nothing, the search of the pending table included |
| `Guarantees.OneDispatcherPerLeak` | crates/winasio/src/iocp/raw.rs:94-98 | over a whole run a leaked reference is reclaimed at most once, by a dispatcher or by the submitter after an inline result, and that is when its address leaves the live set |
| `Guarantees.ResultsAreConserved` | crates/winasio/src/iocp/raw.rs:206-289 | the result cell is live exactly in state Completed or inside a write or read window, and a written result is taken, discarded or dropped once |
| `Guarantees.FuturesGetTheirOwnResult` | crates/winasio/src/iocp/raw.rs:476-511 | a future resolves with what Windows reported for its own operation, inline or later, after one completion hook, and the operation is moved out at most once |
| `Guarantees.ResolvedWithWhatWasReported` | crates/winasio/src/iocp/raw.rs:476-511 | what a future resolves to is the status of an earlier step in which Windows completed this operation |
| `Guarantees.NoLostWakeup` | crates/winasio/src/iocp/future.rs:66-91 | if the latest poll returned Pending and the operation is completed, its waker has been signalled or a completer still holds it, however set_waker and the compare-exchanges interleave |
| `Guarantees.BoundCompleterSignals` | crates/winasio/src/iocp/raw.rs:267-276 | in every reachable state a completer bound to wake has its next step enabled, and once it has finished the latest pending poll has been signalled |
| `Guarantees.PendingPollsAreWoken` | crates/winasio/src/iocp/raw.rs:267-276 | once the completer has returned, an earlier step woke the very task whose poll is still pending, after that poll |
| `Guarantees.AbandonedWakesNobody` | crates/winasio/src/iocp/raw.rs:277-288 | an abandoned operation wakes nobody, and no operation wakes twice |
| `Guarantees.PendingIsInFlight` | crates/winasio/src/iocp/proactor.rs:161-201 | between calls a proactor's pending keys are exactly the live addresses of its operations in flight |
| `Guarantees.PoolDrainsEverything` | crates/winasio/src/iocp/threadpool.rs:157-229 | the pool's pending-I/O count is the number of callbacks owed, and after teardown's wait only references of unwound starts remain |
| `Guarantees.HandlesCloseOnce` | crates/winasio/src/iocp/handle.rs:45-61 | a handle is closed at most once, exactly when its file and every operation have let go |
| `Guarantees.CancelsThroughOpenHandles` | crates/winasio/src/iocp/raw.rs:333-346 | in every drop order a cancellation goes through a handle that is still open |
| `Guarantees.DroppedInFlightIsCancelled` | crates/winasio/src/iocp/future.rs:94-112 | a future lets go of its operation only when the result came inline, when its completion has been published, or after Windows was asked to cancel it |
| `Guarantees.DropsCancelOnTheirHandle` | crates/winasio/src/iocp/future.rs:103-108 | that request goes to the handle the operation was submitted on |
| `Guarantees.EntriesAreCancelledFirst` | crates/winasio/src/iocp/proactor.rs:364-369 | a shutdown lets go of no table entry before it has asked Windows to cancel through it |
| `Guarantees.NobodyIsStuck` | crates/winasio/src/iocp/raw.rs:237-526 | in every reachable state a call on a submission or its future can go on, and once the submission has returned so can its packet, its dispatcher and a shutdown that holds its entry |
| `Guarantees.FuturesMayBePolledOrDropped` | crates/winasio/src/iocp/future.rs:66-112 | in every reachable state a waiting future may be polled with any waker and may be dropped |
| `Guarantees.FilesGoInTheEnd` | crates/winasio/src/iocp/threadpool.rs:157-229 | a file that is being dropped can go on, or a callback on its handle is still owed |
| `Proactor.OneDispatchEach` | crates/winasio/src/iocp/proactor.rs:332-350 | a batch dispatches once each live address it names, however often it names it, and no other |
| `Proactor.OneDispatchOverAll` | crates/winasio/src/iocp/proactor.rs:374-382 | over any run of waits every live address some packet names is dispatched once, and no other |
| `Proactor.PacketsCountByKey` | crates/winasio/src/iocp/proactor.rs:316-328 | a packet counts by its key and address alone, whatever its result: of those that name a live address every one, and none with another key |
| `Proactor.Driver.Submit` | crates/winasio/src/iocp/proactor.rs:161-201 | the table of pending keys stays equal to the live set, whichever way the start went |
| `Proactor.Driver.Collect` | crates/winasio/src/iocp/proactor.rs:309-330 | the batch's own packets are collected in order and untracked before anything is woken |
| `Proactor.Driver.Poll` | crates/winasio/src/iocp/proactor.rs:305-351 | a poll removes from both sets what the batch names and counts exactly the live addresses among them, which are all the live ones that any packet names |
| `Proactor.Driver.Shutdown` | crates/winasio/src/iocp/proactor.rs:362-394 | operations leave the live set only by being dispatched, once each, in the order their packets arrive; the count is theirs; a drain that ends without a port error has dispatched every operation, and it waits no longer than that takes; and it ends once a packet has come for every operation, whatever the packets report |
| `Wire.PrintedNumberReadsBack` | crates/winasio-util/src/server/mod.rs:1056-1058 | printed lengths, lower-case hexadecimal and decimal, parse back |
| `Wire.PrintIsHex` | crates/winasio-util/src/server/mod.rs:1056-1058 | a chunk size is printed in lower-case hexadecimal digits of its value, without leading zeros |
| `Wire.HexReads` | crates/winasio-util/src/server/mod.rs:1056-1058 | the recipient reads a size exactly where there are such digits, in either case, and their value |
| `Wire.ChunkFormat` | crates/winasio-util/src/server/mod.rs:1055-1062 | a chunk is its size in hexadecimal, a line end, its data and a line end, and the last one a zero and two line ends |
| `Wire.DecodingIsStable` | crates/winasio-util/src/server/mod.rs:1053-1081 | a recipient's verdict on a chunked body is not changed by bytes that follow |
| `Wire.ChunkedBodyReadsBack` | crates/winasio-util/src/client.rs:456-484 | non-empty chunks and the terminator decode to their concatenation, whatever follows |
| `Wire.ChunkedBodyIsPrefixFree` | crates/winasio-util/src/h2.rs:131-165 | no proper prefix of a chunked body passes for a complete or a malformed message |
| `Wire.EmptyChunksEndTheBody` | crates/winasio-util/src/server/mod.rs:1143-1149 | the body reads back if and only if no chunk is empty, which is why empty frames are skipped |
| `Body.NextChunk` | crates/winasio-util/src/server/mod.rs:1129-1155 | the next non-empty piece of a body, skipping empty frames and trailers, or its end or its error |
| `Body.ContentIsAllData` | crates/winasio-util/src/server/mod.rs:1129-1155 | what the pieces make up is every byte of every data frame up to the failure |
| `Reply.DeclaredLength` | crates/winasio-util/src/server/head.rs:260-280 | a length if and only if every declaration is the text of it, decimal digits of a `u64` after a plus sign or none and between blanks, and an error if and only if there are some and they do not agree on one |
| `Reply.LengthOfMeans` | crates/winasio-util/src/server/head.rs:262-264 | the parser reads a length exactly where such a text is, and its value |
| `Reply.PrintedLengthIsDeclared` | crates/winasio-util/src/server/head.rs:262-264 | a printed length, with blanks around it or none, declares itself |
| `Reply.FromHttp` | crates/winasio-util/src/server/head.rs:300-336 | refused if and only if a transfer coding is given; otherwise every other header arrives, repeats and order included, with no framing |
| `Reply.ListedKeeps` | crates/winasio-util/src/server/head.rs:286-333 | every header but content-length, transfer-encoding, date and server keeps all its values in order |
| `Recipient.DeclaredBodyReadsBack` | crates/winasio-util/src/server/mod.rs:986-1005 | a body behind its own printed length is read as itself |
| `Recipient.ChunkedMessageReadsBack` | crates/winasio-util/src/server/mod.rs:1006-1015 | a chunked message is read as the concatenation of its pieces, whatever length is also declared |
| `Server.WritesHandOverTheBuffer` | crates/winasio-util/src/server/mod.rs:1085-1103 | split at 64 KiB or not, a write hands over its buffer in bounded pieces, and only its final piece can close the message |
| `Server.Write` | crates/winasio-util/src/server/mod.rs:1085-1103 | the calls made are a prefix of that split, all of it on success, and the outcome is the platform's |
| `Server.Stream` | crates/winasio-util/src/server/mod.rs:1019-1083 | the exchange is a prefix of head, framed pieces and terminator; with a declared length no byte beyond it is handed over and the message is closed only over a body of exactly that length; a failing or short body stops it once all its pieces were handed over, a long one just before the piece that would exceed, and the error names the running count |
| `Server.StreamHandsOver` | crates/winasio-util/src/server/mod.rs:1037-1083 | a finished exchange hands over the framed pieces and then the terminator |
| `Server.Pull` | crates/winasio-util/src/server/mod.rs:965-972 | fewer than two pieces pulled means that the body is over without an error |
| `Server.SendBodied` | crates/winasio-util/src/server/mod.rs:974-1015 | each branch (empty, buffered, exact, chunked) carries out its own exchange in full or a declared prefix of it |
| `Server.ReadUnlessTunnelled` | crates/winasio-util/src/server/mod.rs:974-1015 | whichever branch was taken, the recipient reads exactly the data frames, unless a tunnel opened first |
| `Server.TunnelledReplyIsMisread` | crates/winasio-util/src/server/mod.rs:1006-1015 | a chunked reply to a successful `CONNECT` is not read as its body |
| `Server.PartIsRead` | crates/winasio-util/src/server/mod.rs:1019-1083 | a chunked reply cut anywhere is unfinished for the peer, and a declared one exactly until all that was declared has arrived |
| `Server.HandedAllIffReached` | crates/winasio-util/src/server/mod.rs:1037-1079 | a body that fails its own declared reply had handed over all that was declared if and only if its pieces come to that length at some point |
| `Server.LateFailureIsMisread` | crates/winasio-util/src/server/mod.rs:1062-1066 | two bytes declared, delivered one by one and then a failure, are a complete reply to the peer |
| `Server.SendParts` | crates/winasio-util/src/server/mod.rs:909-1016 | for every method, status, headers, size hint and body, a reply that succeeds is read as exactly the concatenated data frames, or as empty where no body is allowed, if and only if it is not a non-empty answer to a successful `CONNECT`; failed or not, a declared length is never exceeded; a reply without a body declares the caller's length, or the hint, or nothing where it may not; the other headers arrive; a failed reply is unfinished for the peer unless all the bytes of a declared length have arrived; and every failure is the platform's, the body's or the headers' own |
| `Streaming.NextFrame` | crates/winasio-util/src/server/mod.rs:1170-1198 | the next non-empty data or trailers frame, nothing else skipped |
| `Streaming.Drain` | crates/winasio-util/src/server/mod.rs:794-822 | data goes out raw and in order, and trailers are folded, later fields replacing earlier ones |
| `Streaming.LastTrailersWin` | crates/winasio-util/src/server/mod.rs:806-818 | a field is in the closing trailers exactly if some trailers frame before a failure names it, with the values of the last that does |
| `Streaming.SendStreaming` | crates/winasio-util/src/server/mod.rs:772-848 | once the head is out the response is closed exactly once and last, whatever failed in between; on success with the body's trailers where they are supported and not empty; failed or waiting, the calls are the exchange up to there, and every refusal and every wait is the platform's |
| `Transmit.TakenIsNext` | crates/winasio-util/src/client.rs:494-518 | a log whose offers start where the platform left off hands over a prefix, nothing lost or repeated |
| `Transmit.WriteAll` | crates/winasio-util/src/client.rs:494-518 | under any short writes every offer is what is left; success if and only if everything was taken; a stall reports the bytes left |
| `Client.CuttingKeepsTheBytes` | crates/winasio-util/src/client.rs:456-459 | slicing frames at 64 KiB keeps every byte and makes no empty chunk |
| `Client.WriteFrame` | crates/winasio-util/src/client.rs:455-469 | one frame, slice by slice, whole if and only if it succeeds |
| `Client.WriteBody` | crates/winasio-util/src/client.rs:433-485 | the platform is handed the framed body in order; success if and only if all of it was taken, the body did not fail and a declared length matches; a mismatch is reported with the true count, after everything was written |
| `Client.ExactArrival` | crates/winasio-util/src/client.rs:418-429 | up to the 32-bit limit the truncated total length declares the true one |
| `Client.ChunkedArrival` | crates/winasio-util/src/client.rs:456-484 | any part of a chunked request is read as its body when whole and as unfinished otherwise |
| `Client.Request` | crates/winasio-util/src/client.rs:335-373 | a written request is read as exactly its body; an interrupted chunked one is never taken for a whole message; a declared one that the body spoilt is unfinished for the peer if and only if it is neither too long nor fails when it is whole; every error is true of the body |
| `Client.TooLongBodyIsMisread` | crates/winasio-util/src/client.rs:473-481 | a body longer than declared leaves the peer with a whole request and the surplus |
| `Client.LateFailureIsMisread` | crates/winasio-util/src/client.rs:443-446 | a body that fails after all it declared leaves the peer with a complete request |
| `H2.WithRecv` | crates/winasio-util/src/h2.rs:393-408 | the write gets the first answer its ticks bring, the receive is polled first at every tick until the head is there, and nothing is given up |
| `H2.UntilHead` | crates/winasio-util/src/h2.rs:422-441 | a pull is given up only when the head is there and the pull was not ready at any of its ticks |
| `H2.WriteAllWithRecv` | crates/winasio-util/src/h2.rs:456-488 | a buffer goes out whole unless the head has come or an error is reported; every offer carries the answer the script brings it, and a broken write is an error only before the head |
| `H2.EndStreamWithRecv` | crates/winasio-util/src/h2.rs:497-513 | the empty closing write is submitted whatever becomes of it, and its answer is the script's |
| `H2.DriveFrame` | crates/winasio-util/src/h2.rs:363-375 | a frame goes out whole unless the head comes; what is left of it then is dropped, all of it if the head came with it |
| `H2.Close` | crates/winasio-util/src/h2.rs:340-356 | each framing is closed in its own way: a last chunk, an empty write or nothing |
| `H2.DriveHead` | crates/winasio-util/src/h2.rs:312-385 | in every run, replayed tick by tick with every write and pull answered by the script, the receive is polled before the first write, no write is abandoned and what is taken is a prefix of the framed body; true means that every data byte was taken and then the closing write submitted, exactly when the end of the body was pulled; each frame is pulled once, none after the head, and a pull is given up only when it is not ready; at the hand-over only what is left of the last frame pulled is lost; and a body fails only once everything before the failure was taken, and one that was pulled is what the call reports |
| `H2.ChunkedRequestReadsBack` | crates/winasio-util/src/h2.rs:131-165 | a hand-framed request is read as its data when it went out whole and as unfinished otherwise |
| `H2.PlainIsContent` | crates/winasio-util/src/h2.rs:131-142 | a body that is not framed by hand goes out as its data and nothing else |
| `H2.ExactRequestIsUnchecked` | crates/winasio-util/src/h2.rs:116-129 | a declared request that went out whole is understood if and only if its length was declared right |
| `H2.ExactRequestCanMislead` | crates/winasio-util/src/h2.rs:145-172 | two bytes declared as one leave the peer with a whole request and a stray byte |
| `Duplex.SendReady` | crates/winasio-util/src/h2.rs:609-661 | every frame that is ready is sent until a write is refused or the body is over, by the platform's own answers, that of the empty closing write included; what a turn takes and what is left make up the body; the stream is ended only over a whole body |
| `Duplex.TurnYields` | crates/winasio-util/src/h2.rs:663-713 | a turn yields the bytes that came, the code of the call that failed, the trailers that parse, and the end only when there are none |
| `Duplex.PrintedTrailersArrive` | crates/winasio-util/src/h2.rs:701-703 | trailers printed from a header map arrive as that map |
| `Duplex.DuplexBody.PollFrame` | crates/winasio-util/src/h2.rs:751-794 | a completed turn yields its own read, or the failure of the request body it came to; over any run of polls the request goes on in order, and the response yields non-empty data, then at most one of trailers, an error or the end, then the end for ever |
| `ResponseBody.ReadOnce` | crates/winasio-util/src/body.rs:318-350 | a turn yields everything the platform put into its buffer, an error if and only if a call failed, and no more than the room of the read |
| `ResponseBody.ReadsMakeProgress` | crates/winasio-util/src/body.rs:327-336 | a read takes all that fits what was available, 64 KiB, a declared remainder and the surplus room, so that bytes that are there are never taken for the end |
| `ResponseBody.Native.PollFrame` | crates/winasio-util/src/body.rs:232-296 | a poll is one step of the body's machine, with its one operation kept across polls |
| `ResponseBody.RunsAreProper` | crates/winasio-util/src/body.rs:232-296 | any run yields non-empty data, then one end or one error, then the end for ever |
| `ResponseBody.RunCounts` | crates/winasio-util/src/body.rs:280-287 | after any run the counters are the bytes yielded and the rest of the declaration, never below zero |
| `ResponseBody.NothingIsLost` | crates/winasio-util/src/body.rs:232-350 | the frames of any run are what the platform delivered, in order: no byte lost, repeated or invented |
| `ResponseBody.VerdictIsTrue` | crates/winasio-util/src/body.rs:222-230 | a clean end means the declared bytes arrived; a truncation names the true two numbers |
| `ResponseBody.DeclaredBodyIsConserved` | crates/winasio-util/src/body.rs:222-296 | after every run the counters are the bytes yielded and the rest of the declaration, and the end is clean exactly when all of it was delivered; with exact buffers the two add up to the declaration |
| `ResponseBody.ConservedIffRoomFits` | crates/winasio-util/src/body.rs:327-336 | a read keeps that sum whatever the platform returns if and only if its buffer has no more room than is owed |
| `ResponseBody.SurplusRoomOverruns` | crates/winasio-util/src/body.rs:336-336 | one byte of surplus room is enough to deliver more than was declared |
| `ResponseBody.EndStreamIsTrue` | crates/winasio-util/src/body.rs:298-300 | a body that says it is over yields nothing more, and one that does not can still yield something |
| `ResponseBody.HintIsKept` | crates/winasio-util/src/body.rs:302-311 | the size hint is exactly what a run that ends cleanly still delivers |
| `Transfer.Fill` | crates/winasio/src/io.rs:400-417 | writing into a window publishes nothing unwritten and leaves everything before it alone |
| `Transfer.ReadOnce` | crates/winasio/src/iocp/ops/stream.rs:61-80 | one read keeps the buffer valid, takes everything delivered that fits its window, and publishes exactly the bytes the platform vouched for |
| `Transfer.ReadOnceAnswers` | crates/winasio/src/net/outcome.rs:27-75 | the logged read is the platform's answer: all of its bytes that had room, and the classification of its verdict |
| `Transfer.ReadMeansItsCode` | crates/winasio/src/fs/outcome.rs:31-48 | a file or pipe read goes on after bytes and after part of a message, ends at the end of a file or a closed peer, and surfaces any other error |
| `Transfer.SocketReadMeansItsCode` | crates/winasio/src/net/outcome.rs:27-75 | a socket read goes on after bytes, ends when there are none, and surfaces every error |
| `Transfer.ClosedCodes` | crates/winasio/src/io.rs:331-360 | the eleven codes of a vanished peer, and no other, are reported as a closed peer |
| `Transfer.ReadExact` | crates/winasio/src/io.rs:226-277 | the front of the buffer is exactly the bytes delivered into the windows, in order and none dropped; success if and only if they fill the capacity; every failure is what the last read said; a file is read at advancing positions |
| `Transfer.ReadToEnd` | crates/winasio/src/io.rs:279-318 | the buffer is the caller's content followed by exactly the bytes delivered into the windows, none dropped, while it grows as its capacity runs out; success only after an end or a close |
| `Transfer.OnlyAnOrderlyCloseEnds` | crates/winasio/src/net/outcome.rs:27-75 | on a socket that success means a graceful close and no failed read before it, never a reset |
| `Transfer.OnlyTheEndEnds` | crates/winasio/src/io.rs:279-318 | on a file or a pipe a success means that the last code says the end, and every code before it said to go on |
| `Transfer.ReadsAdvance` | crates/winasio/src/io.rs:226-318 | every read starts where the bytes before it ended, in the buffer and, on a file, in the file, saturating |
| `Transfer.WriteAllOf` | crates/winasio/src/io.rs:199-224 | every call offers the whole window of 4 KiB, or what is left, from where the platform left off, at the advancing position of a file; all is taken if and only if it succeeds; a write of nothing is a closed peer |
| `Transfer.WritesAdvance` | crates/winasio/src/io.rs:199-224 | on a file every write goes to where the bytes taken before it end, and offers the next 4 KiB |
| `Receive.GrowthFollowsTheSchedule` | crates/winasio/src/httpsys/queue.rs:336-340 | saturating, capped growth from attempt to attempt is the closed form min(16^k * first, 64 MiB) |
| `Receive.RetryIsLargerIffBelowTheCeiling` | crates/winasio/src/httpsys/queue.rs:336-340 | a retry is larger than the attempt before it if and only if that was below the ceiling |
| `Receive.RetryCanShrink` | crates/winasio/src/httpsys/queue.rs:298-298 | an initial capacity above the ceiling is retried in less |
| `Receive.ReceiveId` | crates/winasio/src/httpsys/queue.rs:297-345 | at most max_retries + 1 attempts, each at its scheduled capacity and each retry for the identifier just recovered; too large only after all of them and exactly one reject of that identifier; no attempt after the queue was closed, and that is the only failure that is not the platform's |
| `Headers.Encode` | crates/winasio-util/src/headers.rs:71-97 | one line per entry, nothing for an empty map, or the first entry that is content-length, transfer-encoding or not visible ASCII |
| `Headers.ParseFields` | crates/winasio-util/src/headers.rs:128-154 | fields are appended in order, and the first line that is not a field is the error |
| `Headers.Parse` | crates/winasio-util/src/headers.rs:119-157 | the status line is set aside and every later line parsed |
| `Headers.ParseTrailers` | crates/winasio-util/src/headers.rs:168-192 | every line is parsed except those that look like a status line |
| `Headers.EveryLineCounts` | crates/winasio-util/src/headers.rs:128-192 | a block parses exactly if every line is empty, set aside as a status line, or a field, and then every field is there |
| `Headers.LineIsNameAndValue` | crates/winasio-util/src/headers.rs:134-150 | of any line, what is before the first colon is the name, trimmed, a token and in lower case, and all that follows is the value, trimmed |
| `Headers.NoColonNoField` | crates/winasio-util/src/headers.rs:134-138 | a line without a colon is no field |
| `Headers.LinesRejoin` | crates/winasio-util/src/headers.rs:120-120 | splitting loses nothing: the lines joined by breaks are the text |
| `Headers.TrimTakesBlanks` | crates/winasio-util/src/headers.rs:139-145 | what trimming takes away is blanks |
| `Headers.BlanksAgree` | crates/winasio-util/src/headers.rs:139-145 | the blanks trimmed from text and those trimmed from bytes are the same characters |
| `Headers.TokensAreNotDelimiters` | crates/winasio-util/src/headers.rs:139-143 | a name is made of visible characters that are no delimiters, as section 5.6.2 of RFC 9110 has it |
| `Headers.OpaqueByBytes` | crates/winasio-util/src/headers.rs:144-148 | a character is accepted in a value exactly when every byte of it is |
| `Headers.ParsedNamesAreLower` | crates/winasio-util/src/headers.rs:139-143 | a parsed name is a token in lower case |
| `Headers.BlockReadsBack` | crates/winasio-util/src/headers.rs:71-97 | either parser reads a printed block as every entry in order, repeats and colons included, values trimmed |
| `Headers.RoundTrip` | crates/winasio-util/src/headers.rs:71-157 | printing and parsing is the identity if and only if every value is trimmed |
| `Headers.MapRoundTrip` | crates/winasio-util/src/headers.rs:71-192 | in whatever order a map is listed, the same multimap comes back if and only if every value is trimmed |
| `Headers.PaddedValueIsLost` | crates/winasio-util/src/headers.rs:143-147 | a legal value with a blank at its edge is not what comes back |
| `Headers.StatusLineIsNoField` | crates/winasio-util/src/headers.rs:171-173 | a line that looks like a status line never parses as a field |
| `Headers.ParsersAgree` | crates/winasio-util/src/headers.rs:119-192 | without such a line the two parsers agree, errors included; the plain one succeeds if and only if the other does and there is none |
| `Headers.StatusLineIsSetAside` | crates/winasio-util/src/headers.rs:119-125 | a block after a status line has the lines of the block alone |
| `Headers.AppendedLineArrives` | crates/winasio-util/src/headers.rs:104-109 | an appended framing line parses after everything else, its name in lower case |
| `Headers.ChunkedLineArrives` | crates/winasio-util/src/client.rs:340-343 | the line appended for a body of unknown length arrives as the header transfer-encoding: chunked |
| `Headers.ContentLength` | crates/winasio-util/src/headers.rs:236-246 | a length if and only if every declaration is visible text that reads as that number |

## Left out

- Object identity in the lifecycle: records, futures and tables are values of a transition system rather than Dafny classes, since what matters is every interleaving of their atomic steps; the driver, the response bodies and the loops are classes and methods.
- Weak memory: atomics and locks are sequentially consistent steps.
- Memory layout, the header magic, vtables and pointer provenance: an allocation is an address and a record.
- Panics and poisoned locks, except that an unwinding start balances the pool and strands its reference.
- Re-entrancy: a waker that submits to a proactor while that proactor is shutting down.
- Proactor.Driver.Submit: covers starts that return; a start that unwinds strands its address, which `Guarantees` accounts for.
- Proactor.Driver.Shutdown: the cancellations it issues are part of `Lifecycle`, not repeated in the driver, and that a cancelled operation completes is Windows's promise.
- Registration, attaching handles, skip modes, event waits, `block_on`, pipes, listeners, sessions, URL groups and TLS binding: set-up code.
- Counters of 64 bits that would wrap after 2^64 bytes (`written`, `delivered`, `produced`): unbounded here; 32-bit truncation, saturation and capping are modelled.
- Server.SendParts: the reason phrase, the `http` crate's size limits on header maps, and what HTTP.sys does with a reply besides declaring its length.
- Transfer.ReadExact: buffers other than `Vec<u8>`; a boxed slice is always initialised and its length never changes.
- Transfer.WriteAllOf: a count larger than what was offered, which the platform does not report.
- Client.Request: connecting, opening and configuring the request before its head is sent, and receiving the response after its body.
- H2.DriveHead: what became of the body across the hand-over to the duplex phase, where the code drops the rest of a frame on purpose; only each phase on its own is covered.
- Duplex.DuplexBody.PollFrame: a turn enters the log when it is complete, and one whose write is never answered counts that write as failed.
- HTTP/2 frames and trailers on the wire: the platform makes them, and only the order of calls is covered.
- Error texts, stage vocabularies, header-name tables and the HTTP version: settled by reading.
- The axum executor, the serve loop, the tonic channel, URI decomposition, pipe names, socket addresses and request accessors: thin.
