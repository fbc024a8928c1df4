# AetherBond: a verified model

AetherBond stripes one stream of payloads over several links and rebuilds it at the far end.  This
project models the parts of it where that can go wrong, and proves what they keep.

**Reordering.**  `Reorder` is the machine behind both receivers: it holds a cursor, the packets ahead
of it and the log of everything handed to the callback, and it can only accept a packet that is not
late, deliver the packet at the cursor, or skip a gap up to the lowest packet held.  Whatever it does,
the log is strictly increasing, the cursor never moves back, and packets are conserved.

* `Receiver` is the Python `ResequencingBuffer`: a class whose methods are the critical sections
  under its lock, a step system over all interleavings of arrivals and flush rounds, and the proof that
  every run is a run of the reordering machine.  `ReceiverRuns` adds lossless exactness and the bounded
  wait, whose measure survives lower arrivals that restart the flush timer.
* `Resequencing` is the Rust `Resequencer`, which refines the machine **if and only if** every packet
  meets a guard when it comes in: `put` tests lateness before its own forced flush may move the cursor
  past the packet.  The guard is given in terms of what the buffer holds, its necessity is proved for
  every run, and a concrete trace shows a packet delivered twice and out of order.
* `ResequencingRuns` proves that a tick never jumps ahead before the timeout: a burst that falls within one
  timeout is delivered exactly, ticks included.
* `Agreement` proves that, fed the same arrivals of one sent list between two timeouts, both end with
  the same deliveries, cursor and packets held, as long as the Rust buffer has room for them.
* `Striping` puts a counter-stamping sender, a network that loses, repeats and reorders, the wire format
  and the Python buffer together and proves end-to-end order, and lossless exactness when every number
  arrives.  `Protocol` has the layered framing round
  trips, `Bytes` the big-endian integers below them.

**The multipath downloader.**  `Chunking` proves that a plan partitions the file.  `Downloading` is the
worker and queue protocol as a concurrent step system: no chunk is lost or duplicated, the unfinished
count is right, and `join` returns exactly when everything is COMPLETED.  `Assembly` is about the output
file: over any interleaving of failures, resumptions and re-queues, what was downloaded of every chunk is
right at every moment, for every remote file, **if and only if** no byte is ever received on a stream that
carries it to a foreign position; and then the file is the remote file when `join` returns.  A stream
goes astray exactly when a response ignores the Range header of a request that resumes behind byte 0.
`DownloadRuns` adds what a run leaves behind: the queue is served first in, first out, a first attempt asks
for its whole chunk, a retry for exactly what its worker has not received, and a chunk is given up after
three failures.  `DownloadTraces` shows both ways in which that happens: a server without byte ranges and a retry after
a partial body; and a server with byte ranges and a retry after all bytes of a chunk arrived, whose
request names an empty interval.

**The de-duplicator.**  `Redundancy` proves that the ring and the hash set agree with "the last N
accepted", except that the number 0, which also marks an empty slot, never ages out.

**The estimators.**  `Kalman` (gain, covariance contraction, hull, geometric forgetting), `PathMetrics`
and `PathRuns` (window and pacing, windowed extremes, closed form and exact flag on a steady path), `Metrics` (rolling
mean and deviation) and `Scheduler` (weighted selection) are stated over real numbers.  `Stun` proves
the STUN attribute loop against an encoder after sections 15, 15.1 and 15.2 of RFC 5389, and exactly when
it stays inside its buffer.

Objects that the sources update in place are classes; each method ties its new state to a function of
its old one, and the theorems are about those functions, over whole runs.  The heap of the Python buffer
and the `BTreeMap` of the Rust one are maps whose least key is found by its contract.  Clock readings,
random draws, received bytes and the cipher are parameters.

What the code does not keep, each with a concrete input and the exact condition: order in the Rust
resequencer (`Resequencing.RunInOrderIff`, `Resequencing.GuardFailsExactly`,
`Resequencing.DuplicateAtCapacityIsDeliveredTwice`); the output file of a download
(`Assembly.RightThroughoutIff`, `Assembly.RightIffNoStrayBytes`,
`Assembly.RangesAreUsableWhileBytesAreMissing`, `DownloadTraces.RetryWithoutRangesCorrupts`,
`DownloadTraces.RetryOfWholeChunkCorrupts`); the sliding window for the number 0
(`Redundancy.WindowExactly`, `Redundancy.ZeroNeverAgesOut`); the bounds of the STUN parser, which panics
on some responses of 508 bytes or more (`Stun.StaysInBoundsExactly`, `Stun.OverrunIsRead`); a CONNECT
without an address (`Protocol.ParseInvertsFrame`); and the window of a fresh path tracker
(`PathMetrics.CoherentFromFirstSample`).

Where the documentation and the code differ, the model follows the code: the flush timeout of the
Python buffer is fixed at 40 ms (docs/architecture.md speaks of 20 ms, and README.md of an adaptive
formula), the Rust timeout is 1.5 times the jitter clamped to 15 to 250 ms, and the de-duplicator is a
ring with an exact set, not a Bloom filter.

## Model

| member | source | states |
|---|---|---|
| Reorder.FindLowest | aetherbond/server/receiver.py:77 | The head of the heap is the least number held |
| Reorder.MachineKeepsOrder | aetherbond/server/receiver.py:26-92 | Over every run of accept, deliver and skip: the log is strictly increasing and only grows, the cursor never moves back, and what was accepted is delivered or held, never both |
| Reorder.MachineKeepsPayloads | aetherbond/server/receiver.py:51-57 | A payload is delivered under the number it was accepted with |
| Reorder.ReleaseMeaning | aetherbond/server/receiver.py:47-61 | A release hands over exactly the longest run of consecutive numbers at the cursor, in order, and touches nothing else |
| Receiver.ResequencingBuffer.constructor | aetherbond/server/receiver.py:10-24 | An empty buffer at number 0 without a flush task |
| Receiver.ResequencingBuffer.HeapPush | aetherbond/server/receiver.py:37 | A push under a number that is not in the heap, so payloads are never compared |
| Receiver.ResequencingBuffer.ReadyAtCursor | aetherbond/server/receiver.py:51 | Looking at the head of the heap decides whether the number at the cursor is held |
| Receiver.ResequencingBuffer.ReleaseContiguousPackets | aetherbond/server/receiver.py:47-61 | The loop computes the release, and seen_seqs loses exactly the numbers that left |
| Receiver.ResequencingBuffer.Put | aetherbond/server/receiver.py:26-45 | The whole new state of put, and the invariant: seen_seqs is the set of held numbers, all above the cursor, watched by one live task |
| Receiver.ResequencingBuffer.WaitAndFlushMissing | aetherbond/server/receiver.py:63-92 | The whole new state of one flush round; the flush task ends exactly when the heap is empty; the invariant |
| Receiver.StepRefines | aetherbond/server/receiver.py:26-92 | Each critical section is a run of the reordering machine that accepts just the number that is neither late nor a duplicate |
| Receiver.ActionsAcceptTheArrival | aetherbond/server/receiver.py:33-37 | What a critical section accepts is the packet that arrived, payload and number |
| Receiver.RunRefines | aetherbond/server/receiver.py:26-92 | Every run of the buffer is a run of the reordering machine |
| Receiver.RunKeepsOrder | aetherbond/server/receiver.py:26-92 | Deliveries strictly increasing, earlier ones kept, expected_seq never decreasing, over every run |
| Receiver.ConservationAndWatchdog | aetherbond/server/receiver.py:31-92 | At every lock release: accepted = delivered + held, disjoint; seen_seqs = held; held numbers above the cursor, so the already-releasable branch is never taken; a nonempty heap has exactly one live flush task |
| Receiver.PutExactly | aetherbond/server/receiver.py:31-45 | put drops duplicates and late packets, stores a packet that is ahead with its arrival time, hands over the run an awaited one completes, and starts a flush task exactly when packets stay held and none is alive |
| Receiver.RoundExactly | aetherbond/server/receiver.py:71-92 | A flush round waits while the lowest packet is younger than the timeout, and otherwise passes one gap and hands over the run behind it |
| ReceiverRuns.RunKeepsPrefix | aetherbond/server/receiver.py:31-61 | Without skips the log is at all times an exact prefix of the sent list, and nothing that arrived is lost |
| ReceiverRuns.LosslessExactness | aetherbond/server/receiver.py:31-61 | If everything sent arrives, in any order with any duplicates, and nothing is skipped, the log is the sent list and heap and seen_seqs end empty |
| ReceiverRuns.BurstWithinTimeoutIsExact | aetherbond/server/receiver.py:77-89 | The same when the run fits in one flush timeout, whatever the flush task does |
| ReceiverRuns.ArrivalStage | aetherbond/server/receiver.py:33-41 | A lower arrival may restart the wait only by filling one of the numbers waited for |
| ReceiverRuns.RoundStage | aetherbond/server/receiver.py:71-92 | A flush round lowers the count of missing numbers or finds the timeout not yet over |
| ReceiverRuns.StagesBoundTheClock | aetherbond/server/receiver.py:63-92 | While a packet is held, the clock is bounded by one timeout and one round gap for every number it still waits for |
| ReceiverRuns.BoundedWait | aetherbond/server/receiver.py:63-92 | An accepted packet is handed over within (its number - cursor) * (timeout + round gap), whatever arrives meanwhile |
| ReceiverRuns.LowerArrivalRestartsTheWait | aetherbond/server/receiver.py:77-82 | One timeout and one gap alone are not a bound: a trace where a lower arrival restarts the timer |
| Resequencing.Clamp | aetherbond-core/src/resequencing/mod.rs:43-47 | The timeout is 1.5 times the jitter, 15 ms where that is less and 250 ms where it is more |
| Resequencing.Resequencer.constructor | aetherbond-core/src/resequencing/mod.rs:31-40 | An empty buffer with the 40 ms timeout |
| Resequencing.Resequencer.UpdateTimeout | aetherbond-core/src/resequencing/mod.rs:43-47 | Only the timeout changes |
| Resequencing.Resequencer.FlushConsecutive | aetherbond-core/src/resequencing/mod.rs:98-110 | The loop computes the release at the cursor; no 32-bit overflow |
| Resequencing.Resequencer.ForceFlushHead | aetherbond-core/src/resequencing/mod.rs:113-118 | Jumps to the lowest number held and releases from there |
| Resequencing.Resequencer.Put | aetherbond-core/src/resequencing/mod.rs:50-70 | The whole new state of put: late test, forced flush when full, insertion with replacement, release |
| Resequencing.Resequencer.Tick | aetherbond-core/src/resequencing/mod.rs:74-95 | The whole new state of tick |
| Resequencing.Resequencer.Len | aetherbond-core/src/resequencing/mod.rs:124-126 | The number of packets held |
| Resequencing.PutExactly | aetherbond-core/src/resequencing/mod.rs:54-70 | A packet that is not late is stored, over an older one of its number, after a full buffer has handed over the run at its lowest packet; at the cursor it is handed over with the run it completes |
| Resequencing.TickExactly | aetherbond-core/src/resequencing/mod.rs:74-95 | A tick does nothing while the lowest packet is not older than the timeout, and then passes one gap and hands over the run behind it |
| Resequencing.PutKeepsOrderIff | aetherbond-core/src/resequencing/mod.rs:50-70 | A call leaves no packet below the cursor if and only if it meets the guard |
| Resequencing.GuardFailsExactly | aetherbond-core/src/resequencing/mod.rs:54-66 | The guard in terms a caller can check: it fails exactly for a packet ahead of the cursor that meets a full buffer and lies below its lowest number or in the run that starts there |
| Resequencing.UnguardedPutBreaksOrder | aetherbond-core/src/resequencing/mod.rs:50-95 | After any unguarded call the next expired tick delivers out of order and does not advance the cursor |
| Resequencing.RunInOrderIff | aetherbond-core/src/resequencing/mod.rs:50-118 | A run, cut anywhere and followed by any tick, delivers in strictly increasing order if and only if every packet met the guard |
| Resequencing.PutRefinesIff | aetherbond-core/src/resequencing/mod.rs:50-118 | A call is a run of the reordering machine if and only if it meets the guard |
| Resequencing.GuardedRunRefines | aetherbond-core/src/resequencing/mod.rs:50-118 | A guarded run is a run of the reordering machine: order, monotone cursor, conservation |
| Resequencing.RunStaysWithinCapacity | aetherbond-core/src/resequencing/mod.rs:59-66 | The buffer never holds more than its cap, guarded or not (one packet if the cap is 0) |
| Resequencing.DuplicateAtCapacityIsDeliveredTwice | aetherbond-core/src/resequencing/mod.rs:50-95 | A trace, for any two neighbouring packets held at cap 2: the duplicate of the lower one is delivered a second time, out of order, and the cursor moves back |
| ResequencingRuns.BurstWithinTimeoutIsExact | aetherbond-core/src/resequencing/mod.rs:50-95 | If everything of one sent list arrives, in any order with any duplicates, the cap has room for it, and all arrivals and ticks fall within one timeout of a start, the log is the sent list and nothing is held |
| ResequencingRuns.FreshBurstIsExact | aetherbond-core/src/resequencing/mod.rs:31-40 | As shipped, that timeout is 40 ms |
| ResequencingRuns.LaterTickSkips | aetherbond-core/src/resequencing/mod.rs:81-93 | A tick more than 40 ms after the arrival passes the gap, and the missing packet is late for good |
| Agreement.SameDeliveries | aetherbond-core/src/resequencing/mod.rs:50-70 | Between timeouts, on arrivals of one sent list and with room in the Rust buffer, both buffers end with the same deliveries, cursor and packets held, although one ignores duplicates and the other replaces them |
| Bytes.BigEndianRoundTrip | aetherbond/common/protocol.py:10-11 | A number that fits its field reads back |
| Bytes.FromBigEndianRoundTrip | aetherbond/common/protocol.py:59 | Every field content is the encoding of exactly the number read from it |
| Bytes.MostSignificantFirst | aetherbond/common/protocol.py:10 | Network order |
| Protocol.UnpackInvertsPack | aetherbond/common/protocol.py:26-71 | Packing succeeds exactly for a 32-bit number, a 64-bit timestamp and a 32-bit path, and unpacking then returns payload and all three |
| Protocol.UnpacksOnlyPackings | aetherbond/common/protocol.py:47-71 | With an authenticating cipher, a datagram unpacks to an envelope if and only if it is the packing of that envelope |
| Protocol.HeaderLayout | aetherbond/common/protocol.py:34-38 | Number, timestamp and path stand in the header in this order, in network order, and the nonce is its first twelve bytes |
| Protocol.NoncesDiffer | aetherbond/common/protocol.py:38 | Two packets share a nonce exactly if they share number and timestamp |
| Protocol.HeaderIsAuthenticated | aetherbond/common/protocol.py:42 | A sealed payload behind another header opens only if the cipher seals something under that header to the same bytes |
| Protocol.ParseInvertsFrame | aetherbond/server/router.py:157-201 | The server reads back every CONNECT with an address, DATA and CLOSE frame of the client (vpn.py), and drops a CONNECT without one |
| Protocol.FrameLayout | aetherbond/client/vpn.py:232-268 | The bytes of CONNECT, DATA and CLOSE frames |
| Protocol.ParseInvertsReply | aetherbond/client/vpn.py:157-175 | The client reads back every response frame of the server |
| Protocol.ReplyLayout | aetherbond/server/router.py:212-213 | The bytes of a response frame |
| Protocol.CommandSurvivesTheTunnel | aetherbond/client/vpn.py:232-268 | Frame, pack, unpack, parse: the server acts on the command that was framed |
| Striping.Sender.SendToVps | aetherbond/client/vpn.py:117-136 | Without a socket nothing happens; else the payload is stamped with the count of payloads before it, and the number is used up even if packing fails |
| Striping.Sender.SendBackToClient | aetherbond/server/router.py:203-223 | A reply is framed so that the client reads it back, then stamped from the server's own counter |
| Striping.ReceiveDatagram | aetherbond/server/router.py:128-139 | A datagram that opens goes into the buffer under its number; any other changes nothing |
| Striping.ReceiverKeepsSender | aetherbond/server/receiver.py:26-92 | If arrivals carry the sender's payloads under their numbers, so does everything held and delivered |
| Striping.NextKeepsSound | aetherbond/client/vpn.py:124-129 | Every send, loss, repetition, arrival and round keeps wire, buffer and log genuine |
| Striping.OrderedLogIsSubsequence | aetherbond/server/receiver.py:47-61 | An ordered genuine log reads off a subsequence of what was sent |
| Striping.EndToEndOrder | aetherbond/client/vpn.py:124-129 | For every interleaving, the payloads handed to the callback are a subsequence of the payloads in number order, each number at most once; the log only grows and the cursor never moves back |
| Striping.SendAddsOneDatagram | aetherbond/client/vpn.py:124-134 | A send puts one datagram on the wire that opens to the payload, the count of payloads before it, the timestamp and the path, or none if one of these does not fit |
| Striping.TunnelRunsTheBuffer | aetherbond/server/router.py:133-137 | The buffer is fed every datagram that opens, in order of arrival, and every flush round, and nothing else |
| Striping.LosslessTunnel | aetherbond/client/vpn.py:124-136 | If a datagram of every number arrives at least once and no round skips, the payloads handed to the callback are exactly the payloads sent |
| Striping.LosslessBurst | aetherbond/client/vpn.py:124-136 | The same if all arrivals and rounds fall within one flush timeout |
| Redundancy.SlidingDeDuplicator.constructor | aetherbond-core/src/redundancy/mod.rs:55-63 | An empty history of any size; from size 1 on it satisfies the invariant |
| Redundancy.SlidingDeDuplicator.Register | aetherbond-core/src/redundancy/mod.rs:67-89 | Ring, set and write position agree with the list of accepted numbers; a nonzero number is rejected if and only if it is among the last N accepted, 0 if and only if it was ever accepted |
| Redundancy.SlidingDeDuplicator.Size | aetherbond-core/src/redundancy/mod.rs:91-93 | The size of the remembered set |
| Redundancy.RingAdvances | aetherbond-core/src/redundancy/mod.rs:75-86 | Overwriting the slot at the write position keeps the ring equal to the last N accepted |
| Redundancy.MembersAdvance | aetherbond-core/src/redundancy/mod.rs:75-83 | Removing the number that leaves the last N accepted, unless it is 0, and adding the new one keeps the set equal to the nonzero ones of them plus 0 if it was ever accepted |
| Redundancy.RingAndSetAgree | aetherbond-core/src/redundancy/mod.rs:46-52 | In every reachable state nonzero ring entries are distinct, and the set is the nonzero ring entries plus 0 if it was ever accepted |
| Redundancy.RunSeparates | aetherbond-core/src/redundancy/mod.rs:67-89 | Over any run, equal accepted numbers are more than N acceptances apart, and 0 is accepted at most once |
| Redundancy.SizeBound | aetherbond-core/src/redundancy/mod.rs:91-93 | At most N + 1 numbers are remembered, at most N if 0 never comes in |
| Redundancy.WindowExactly | aetherbond-core/src/redundancy/mod.rs:76-79 | The set is the last N accepted as long as no 0 came in, and after the first 0 if and only if register has returned true fewer than N times since |
| Redundancy.ZeroNeverAgesOut | aetherbond-core/src/redundancy/mod.rs:76-79 | With room for one, a number pushed out by another is accepted again if and only if it is not 0 |
| Chunking.PlanChunks | aetherbond/client/downloader.py:66-81 | The loop plans nonempty contiguous ranges from byte 0 to the last, at most chunk_size long; exactly when initialization fails |
| Chunking.SizesAddUp | aetherbond/client/downloader.py:22-24 | The chunk sizes add up to the file size |
| Chunking.ByteLiesInItsQuotient | aetherbond/client/downloader.py:73-77 | Byte b lies in exactly one chunk, the one with index b / chunk_size |
| Downloading.DownloadSession.Start | aetherbond/client/downloader.py:103-116 | The filled queue and the idle workers satisfy the queue invariant |
| Downloading.DownloadSession.NextChunk | aetherbond/client/downloader.py:107-109 | A worker leaves on an empty queue, else takes the first chunk |
| Downloading.DownloadSession.OpenStream | aetherbond/client/downloader.py:141-197 | The stream is written from start + bytes_downloaded on; only a nonempty requested interval can be honoured |
| Downloading.DownloadSession.WriteBlock | aetherbond/client/downloader.py:199-202 | A received block goes to the file position and counts as downloaded |
| Downloading.DownloadSession.Succeed | aetherbond/client/downloader.py:204-208 | The chunk is COMPLETED |
| Downloading.DownloadSession.CatchError | aetherbond/client/downloader.py:210-214 | The chunk is FAILED, its bytes stay counted, one retry is used |
| Downloading.DownloadSession.Resteer | aetherbond/client/downloader.py:216-220 | The chunk starts over at the end of the queue |
| Downloading.DownloadSession.TaskDone | aetherbond/client/downloader.py:112 | The unfinished count is positive when task_done lowers it |
| Downloading.NextKeepsQueue | aetherbond/client/downloader.py:107-112 | Every move keeps: each chunk queued, held or COMPLETED, exactly one of them; unfinished = queued + busy; a nonempty queue has a live worker |
| Downloading.MovesKeepQueue | aetherbond/client/downloader.py:102-118 | The same in every reachable state |
| Downloading.JoinMeansCompleted | aetherbond/client/downloader.py:118 | join returns exactly when nothing is queued and nobody busy, and then every chunk is COMPLETED; until then some worker can move on it; workers never all leave with work behind |
| Assembly.NextKeepsFile | aetherbond/client/downloader.py:183-220 | Every move that does not misplace a byte keeps the downloaded prefix of every chunk equal to the remote bytes |
| Assembly.DownloadAssemblesFile | aetherbond/client/downloader.py:183-220 | Over any interleaving, mid-stream failure, resumption and re-queue that misplaces no byte: prefixes are right, and the file is the remote file when join returns |
| Assembly.RightThroughoutIff | aetherbond/client/downloader.py:183-220 | For every run of every download: at every moment the downloaded prefix of every chunk is right, for every remote file of that length, if and only if no byte is received on a stream whose next byte belongs elsewhere |
| Assembly.RightIffNoStrayBytes | aetherbond/client/downloader.py:183-202 | The same in terms of responses: if and only if no byte is received from a response that ignores the Range header of a request resuming behind byte 0; for a server that honours every nonempty range, that is a retry of a chunk all of whose bytes are there |
| Assembly.UsableRunsMisplaceNothing | aetherbond/client/downloader.py:183-202 | A run all of whose responses are of that kind misplaces no byte |
| DownloadRuns.QueueIsFifo | aetherbond/client/downloader.py:103-109 | What was queued and what was given up since, in that order, is what was taken and what is still queued |
| DownloadRuns.FirstAttemptAsksForEverything | aetherbond/client/downloader.py:115-220 | In every reachable state: at most eight workers; a queued chunk is PENDING without bytes; the first attempt after a take asks for the whole range, and for the chunk at byte 0 any response is then usable |
| DownloadRuns.AttemptsSinceTheTake | aetherbond/client/downloader.py:133-219 | In every reachable state an attempt resumes behind exactly the bytes its worker received since it took the chunk, and the chunk is given up after exactly three failures |
| DownloadRuns.MovesKeepStatus | aetherbond/client/downloader.py:141-218 | The status of a chunk says where it is: PENDING before the first attempt, DOWNLOADING on a stream, FAILED between attempts |
| DownloadTraces.MisalignedRetry | aetherbond/client/downloader.py:197-202 | A retry of a body sent from byte 0 writes it where the last attempt stopped |
| DownloadTraces.RetryWithoutRangesCorrupts | aetherbond/client/downloader.py:79-81 | Single-link fallback broken after n bytes and retried: the download completes, with the remote file if and only if n = 0 |
| DownloadTraces.RetryOfWholeChunkCorrupts | aetherbond/client/downloader.py:184-214 | With ranges: all bytes of a chunk arrive, the attempt fails, the retry asks for an empty interval and gets the whole file: the next chunk, already there, is overwritten, and the download completes |
| Kalman.JitterKalmanFilter.constructor | aetherbond-core/src/congestion/mod.rs:27-35 | The initial filter |
| Kalman.JitterKalmanFilter.Update | aetherbond-core/src/congestion/mod.rs:38-48 | The whole new state of an update whose division is defined; positive noises and covariance stay positive |
| Kalman.GainAndCovariance | aetherbond-core/src/congestion/mod.rs:39-45 | The gain lies in (0, 1) and the covariance is r times the gain |
| Kalman.EstimateStaysInHull | aetherbond-core/src/congestion/mod.rs:44 | The estimate never leaves the hull of its start and all measurements |
| Kalman.ShippedEstimateStaysInHull | aetherbond-core/src/congestion/mod.rs:15-23 | The shipped filter's estimate stays in the hull of 0 and all measurements |
| Kalman.ShippedFirstUpdate | aetherbond-core/src/congestion/mod.rs:15-47 | Its first update in numbers: gain 21/61, estimate 21/61 of the measurement, covariance 42/61 |
| Kalman.CovarianceContracts | aetherbond-core/src/congestion/mod.rs:39-45 | One update multiplies the distance to the settled covariance by a positive factor below (r / (q + r)) squared |
| Kalman.CovarianceSettles | aetherbond-core/src/congestion/mod.rs:39-45 | Over any run the covariance approaches the p with p*p + q*p = q*r geometrically and from one side |
| Kalman.DefaultFilterFalls | aetherbond-core/src/congestion/mod.rs:15-23 | The default filter's covariance falls monotonically and stays above the settled one |
| Kalman.DefaultFilterEnclosed | aetherbond-core/src/congestion/mod.rs:15-23 | In numbers: it never falls below 0.292 and is below 0.293 from the 22nd update on, whatever is measured |
| Kalman.DifferenceShrinks | aetherbond-core/src/congestion/mod.rs:43-44 | Two filters that differ in their estimate differ, after the same inputs, by the product of (1 - gain) |
| Kalman.ForgettingIsGeometric | aetherbond-core/src/congestion/mod.rs:43-45 | That product is positive and at most (r / (q + r)) to the number of inputs |
| Kalman.StartIsForgotten | aetherbond-core/src/congestion/mod.rs:38-48 | Both together; nothing but the estimate differs |
| PathMetrics.BbrPathMetrics.constructor | aetherbond-core/src/congestion/mod.rs:77-93 | The initial tracker |
| PathMetrics.BbrPathMetrics.RegisterRttSample | aetherbond-core/src/congestion/mod.rs:96-115 | The whole new state after an RTT sample |
| PathMetrics.BbrPathMetrics.RegisterBandwidthSample | aetherbond-core/src/congestion/mod.rs:118-134 | The whole new state after a throughput sample; a zero duration changes nothing |
| PathMetrics.LossRateIsProportion | aetherbond-core/src/congestion/mod.rs:137-141 | In every run the loss rate stays between 0 and 1 |
| PathMetrics.ConstantOutcomeFades | aetherbond-core/src/congestion/mod.rs:137-141 | While all transmissions have one outcome, the distance of the loss rate to 1 or 0 is 0.95 to the number of transmissions times what it was, whatever else is registered |
| PathMetrics.BbrPathMetrics.RecalculateCongestionWindow | aetherbond-core/src/congestion/mod.rs:151-171 | Window and pacing rate from the current estimates |
| PathMetrics.CoherentFromFirstSample | aetherbond-core/src/congestion/mod.rs:96-171 | Window and pacing rate equal the recomputation from the current estimates if and only if some sample has counted |
| PathMetrics.RunWindowAndPacing | aetherbond-core/src/congestion/mod.rs:144-171 | From then on, in every run: with multiple 1.25 if smoothed RTT > 1.3 * min RTT + 15 ms and 2 otherwise, and bdp = bandwidth * min RTT / 8, max(5888, multiple * bdp - multiple - 1) bounds cwnd from below and max(5888, multiple * bdp) from above; the pacing rate is 0.75 or 1.25 times the bandwidth |
| PathMetrics.RunningMinimum | aetherbond-core/src/congestion/mod.rs:99-108 | Without expiry min_rtt is the running minimum and at most the smoothed RTT |
| PathRuns.MinimumIsWindowed | aetherbond-core/src/congestion/mod.rs:104-108 | min_rtt is the start value or a sample with its time; no sample since was lower, and none came more than ten seconds later |
| PathRuns.MaximumIsWindowed | aetherbond-core/src/congestion/mod.rs:124-131 | The same for the maximal bandwidth, eight bits to the byte |
| PathRuns.RunningMaximum | aetherbond-core/src/congestion/mod.rs:124-131 | Without expiry the maximal bandwidth is the running maximum |
| PathRuns.JitterIsFiltered | aetherbond-core/src/congestion/mod.rs:110-112 | The jitter filter is fed 875 times the distance of each sample from the smoothed RTT before it |
| PathRuns.FirstSample | aetherbond-core/src/congestion/mod.rs:96-115 | What a fresh tracker makes of one RTT sample, in numbers |
| PathMetrics.SteadyPathClosedForm | aetherbond-core/src/congestion/mod.rs:96-108 | On a constant RTT c: min_rtt = c, smoothed RTT = c + 0.875^n (50 ms - c), and the flag exactly, expired or not |
| PathMetrics.FlagClearsWithinTen | aetherbond-core/src/congestion/mod.rs:144-148 | The queue flag is clear after at most ten samples and stays clear |
| PathMetrics.NineAreNotEnough | aetherbond-core/src/congestion/mod.rs:144-148 | Nine samples do not suffice |
| Metrics.LinkMetrics.constructor | aetherbond/client/metrics.py:143-153 | An empty history |
| Metrics.LinkMetrics.MarkDown | aetherbond/client/metrics.py:126-127 | An outage overwrites rtt_ms and leaves the history alone |
| Metrics.LinkMetrics.RecordRtt | aetherbond/client/metrics.py:143-153 | After an outage too: the history is the last ten samples, rtt_ms is their mean and within their bounds, jitter_ms is their mean deviation and at most half their spread |
| Metrics.MeanIsWithin | aetherbond/client/metrics.py:149 | The mean lies within any bounds of the samples |
| Metrics.JitterIsAtMostHalfTheSpread | aetherbond/client/metrics.py:150-153 | The mean deviation is at most (max - min) / 2 |
| Metrics.JitterIsAtLeastTheSpreadByCount | aetherbond/client/metrics.py:150-151 | The distance of any two samples, divided by their count, bounds the jitter from below |
| Metrics.TwoSamples | aetherbond/client/metrics.py:149-151 | For two samples the mean is half the sum and the jitter half the distance |
| Metrics.HistoryIsLastTen | aetherbond/client/metrics.py:144-146 | Over any run, append and pop keep exactly the last ten samples |
| Scheduler.GetActiveLinks | aetherbond/client/scheduler.py:13-21 | The online links with a positive score, in order |
| Scheduler.AllUsable | aetherbond/client/scheduler.py:17-21 | Active links are the usable ones, all of them |
| Scheduler.ActiveOfConcat | aetherbond/client/scheduler.py:17-21 | Filtering keeps order and multiplicity, and a single link stays exactly if it is online with a positive score |
| Scheduler.SelectInterfaceWrr | aetherbond/client/scheduler.py:23-46 | The link whose region holds the draw is returned, an error exactly when no link is active, and neither fallback is reached |
| Scheduler.RegionsPartitionDraws | aetherbond/client/scheduler.py:38-44 | Every draw picks exactly one link, online with a positive score, and each link exactly on a half-open interval as wide as its score |
| Stun.ParseResponse | aetherbond-control/pkg/nat/stun.go:70-126 | The parser computes the attribute scan, with every early exit and every out-of-range access |
| Stun.XorTwice | aetherbond-control/pkg/nat/stun.go:109-114 | Exclusive or with the cookie undoes itself |
| Stun.XorBits | aetherbond-control/pkg/nat/stun.go:112-117 | Bit k of an exclusive or is set exactly if bit k of the two numbers differs |
| Stun.MaskedAddressInNumbers | aetherbond-control/pkg/nat/stun.go:94-119 | The bytes 00 01 A1 47 E1 12 A6 43 mean 192.0.2.1 and port 32853 as an XOR-mapped address, and 225.18.166.67 and port 41287 as a mapped one |
| Stun.ValueParsesBack | aetherbond-control/pkg/nat/stun.go:94-119 | An encoded address value reads back, mapped or XOR-mapped |
| Stun.ScanReadsAttributes | aetherbond-control/pkg/nat/stun.go:88-124 | The loop visits every attribute with its padding and ends on the last address |
| Stun.StaysInBoundsExactly | aetherbond-control/pkg/nat/stun.go:88-124 | The parser never indexes outside its buffer, whatever it received, if and only if it received fewer than 508 bytes |
| Stun.ParseInvertsEncode | aetherbond-control/pkg/nat/stun.go:70-126 | For every list of encoded attributes that fits, the parser stays in bounds and returns the last address and port encoded, or none exactly if there was none |

## Left out

- Sockets, asyncio streams, HTTP, the SOCKS5 handshake, DNS, netlink and XDP: input and output over other libraries; the network is a multiset of datagrams in flight.
- Cryptography: the cipher is a pair of functions with a round-trip law, and a second law where authenticity is used; padding of the secret key and the Rust `ring` code are not modelled.
- heapq and BTreeMap: both are maps whose least key is found by contract; their own algorithms are not modelled.
- Everything after the resequencer callback on the server (one task per payload, session lookup, connect in progress, close racing with writes): the code does not keep order past that point in all interleavings.  The tuple of client address and path that travels with a payload is part of the payload type, and one server buffer serves one client.
- A callback that raises: the buffer logs the error and goes on, so a delivery means that the callback was called.
- Text encoding of addresses: an address is its bytes.
- Protocol.UnpackInvertsPack: does not state the latency that unpacking also reports, because it is a difference of two clock readings.
- Resequencing.Resequencer.Put: requires a number below 2^32 - 1, because delivering that last number overflows the 32-bit cursor; the time of the last flush, which nothing reads, is not kept.
- Resequencing.Resequencer.UpdateTimeout: jitter is in whole microseconds, so rounding below that is not modelled.
- Redundancy.SlidingDeDuplicator.Register: requires room for at least one number; with none, the first registration indexes an empty vector.
- Assembly.DownloadAssemblesFile: assumes that a response which ends normally is complete, and says nothing about a chunk that fails for ever, whose workers keep trying; buffering of the file by the operating system is not modelled.
- Agreement.SameDeliveries: leaves out ticks, because the two timers differ (the Rust one restarts on a duplicate, compares strictly and uses another timeout).
- The simulated download path, which writes zero bytes, throttling, progress reporting and elapsed times.
- Chunking.PlanChunks: does not model a negative chunk size, with which the code plans no chunk, or for a one-byte file one of negative size.
- The moves of a download worker may interleave at more points than its awaits allow; what is proved holds for the fewer real interleavings too.
- Kalman.JitterKalmanFilter.Update: requires that predicted covariance and measurement noise do not cancel, where the code divides by zero; the stability results are for positive noises.
- IEEE rounding and the truncation of durations: the estimators are over real numbers, with a floor where the code casts to an integer.
- The scheduling score, should_duplicate, the QUIC stream map, lowest-latency selection, telemetry, the interface monitor, logger and Prometheus output: single branches or sums whose properties could be read off the body.
- Formatting of IP addresses and the NAT classification behind the STUN loop.
