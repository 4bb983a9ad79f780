# Model of an HFT messaging server and its clients

The repository is a TCP server for fixed-size trading messages, and a family of clients that
measure round-trip latency. Around the sockets and threads sit a few stateful algorithms; this
project models those and proves what they keep, over every interleaving, every run or every
input. Sockets, epoll, clocks and the scheduler are the environment: their answers are inputs
or nondeterministic steps.

Check everything with `dafny verify dfyconfig.toml` (Dafny 4.11).

| module | what it models | main sources |
|---|---|---|
| `Words`, `Wrappers` | 64-bit unsigned words, wrap-around, sums; optional values | |
| `AtomicStats` | the lock-free min/max/total of the latency client, for any number of concurrent calls, with spurious failures of `compare_exchange_weak` | `src/latency_client.cpp:297-309` |
| `StampPipeline` | one run of the latency client: sender, network and server, receiver, clock; the atomic steps of `AtomicStats` are steps of the receiver | `src/latency_client.cpp:103-147`, `254-309`, `374-397`, `442-454` |
| `StatsMutexes` | window and aggregates of the full client under two mutexes, updates and resets by any number of threads | `src/hft_tcp_client.cpp:288-298`, `648-673` |
| `SendQueue` | the full client's send queue: many producers, one drain loop that lets the mutex go | `src/hft_tcp_client.cpp:136-154`, `389-424` |
| `Reconnect` | the full client's connection state machine with its recursive retry | `src/hft_tcp_client.cpp:31-130`, `498-534` |
| `ServerTable` | the server's connection table, epoll registrations, raw pointers in an event batch, descriptors | `src/hft_server.cpp:24-244`, `400-408` |
| `ServerAverage` | the exponential moving average in the three overloads | `src/hft_server.cpp:304-316`, `341-352`, `376-387` |
| `Framing` | the clients' frame loop on a byte stream and the server's one-message-per-recv dispatch | `src/hft_tcp_client.cpp:536-562`, `src/hft_server.cpp:228-283` |
| `StampMatching` | matching responses by index (100k test) and by popping a queue (latency client) | `src/hft_latency_test_100k.cpp:129-175`, `src/latency_client.cpp:254-295` |
| `RunningAverage` | the window and the running averages of the simple and the full client | `src/hft_tcp_client_simple.cpp:170-198`, `322-344`, `src/hft_tcp_client.cpp:648-679` |
| `Percentiles` | the two percentile reports, and the round trips of the simple test | `src/simple_latency_test.cpp:39-119`, `src/hft_latency_test_100k.cpp:177-199` |

Concurrent parts are transition systems: a state, a step type, `Enabled` and `Next`, and a run
is a sequence of states in which each leads to the next by one step. Fields named as history
(accepted messages, popped stamps, opened descriptors) record the past and never influence a
step. Code that updates fields step by step is a class whose methods are proved against the
functions of the model; in `AtomicStats`, `ServerTable` and `SendQueue` the methods are proved
to perform runs of the transition system, under any interference, on any batch of events, and
with any messages pushed meanwhile.

What the proofs show about the code as it stands:

- Recorded latencies are free of wrap-around in every interleaving if and only if, when a run
  starts, the responses of earlier runs still to be processed come to less than one frame. That
  counts bytes not received, messages the server has not answered yet, and frames left of a
  chunk the receiver is in. A fresh connection has none; a second run on the same connection,
  which starts after a fixed sleep, can have some. (`StampPipeline.WrapFreeExactlyWhenDrained`)
- Between resets `messages_sent` of the full client counts accepted messages and successful
  sends, `errors` counts failed sends and failed recvs, and `connection_attempts` counts
  successes only.
- The full client divides its total by one message less than the simple client does, and
  reports no average after the first message. From the second on its average is right if and
  only if the total is zero. (`RunningAverage.FullAverageIsTooHigh`)
- The simple client counts messages without a time stamp, so its average can be below its
  minimum. Whatever is measured it is not, if and only if there is a stamped message and none
  comes after an unstamped one. (`RunningAverage.NeverBelowMinIffStampedFirst`)
- Bytes at the end of a recv are dropped. The number of frames is short by what the dropped
  bytes would make up; but a client can deliver the right number and wrong contents, as after a
  dropped byte every later frame is cut at the wrong place. The client delivers the frames of
  every stream that arrives in recvs of given lengths, if and only if less than a frame is
  dropped in all and no recv holds a frame after one that is not whole frames.
  (`Framing.ChunksDoNotMatterIff`)
- The server handles one message of a recv, and an order if and only if the recv is at least as
  long as an order message. An order in a frame of plain message size is not handled if it is
  alone in its recv; if others follow in the same recv, it is handled with their bytes as its
  fields, and they are not. (`Framing.CoalescedOrders`)
- The 100k test does not clear `send_times_`, so a second run matches responses with the stamps
  of the first. It records what a fresh test would, whatever it receives, if and only if there
  are no old stamps; if stamps increase, it is wrong as soon as it receives one frame.
  (`StampMatching.RightExactlyWhenNoOldStamps`, `StampMatching.WrongOnEveryFrame`)
- A failed `initialize` closes what it has opened, but leaves the closed numbers in its fields.
  If the server is started all the same, `stop` closes them again, unless there was no socket
  to begin with. The main program checks the result. (`ServerTable.HftServer.Serve`)
- The main loop prints `total_connections` under the label "Active Connections"; the two are
  equal if and only if no connection has been closed.
  (`ServerTable.PeakIsHistoricalMaximum`)

## Model

| member | source | states |
|---|---|---|
| AtomicStats.ExtremesAreMonotone | src/latency_client.cpp:297-309 | Over any schedule of atomic steps min never rises and max never falls |
| AtomicStats.ExtremesAreSamples | src/latency_client.cpp:297-309 | In every reachable state min and max are the first value or a submitted sample, and every call past its min (max) loop is bounded by min (max) |
| AtomicStats.FinishedIsExact | src/latency_client.cpp:297-309 | When all calls have returned, total is the sum modulo 2^64 and min and max are exactly the extremes of the samples and the words before, whatever the interleaving |
| AtomicStats.FinishedAfterReset | src/latency_client.cpp:442-448 | After a reset and at least one call, both extremes are samples and bound all samples |
| AtomicStats.FailureShrinksTheGap | src/latency_client.cpp:300-308 | A failure that is not spurious strictly moves the local copy towards the sample, in both loops |
| AtomicStats.FewFailures | src/latency_client.cpp:300-308 | Among n calls none fails more than n - 1 times per loop, spurious failures aside |
| AtomicStats.RunsAreBounded | src/latency_client.cpp:297-309 | Any schedule of n calls has at most n(2n + 3) steps besides spurious failures, so the loops end |
| AtomicStats.LatencyStats.UpdateLatencyStats | src/latency_client.cpp:297-309 | The code, under any interference between its atomic operations, ends and performs exactly a legal interleaving of one call with the others |
| AtomicStats.AnyScheduleCanInterfere | src/latency_client.cpp:297-309 | The interference that the code is proved against includes every legal schedule of the other calls |
| AtomicStats.LatencyStats.LowerMin | src/latency_client.cpp:300-303 | The min loop: ends past the loop, each pass an atomic step of the model |
| AtomicStats.LatencyStats.RaiseMax | src/latency_client.cpp:305-308 | The max loop, likewise |
| AtomicStats.LatencyStats.ExchangeMin | src/latency_client.cpp:301 | One weak exchange on min: on failure the local copy is the current word; without interference and with a current copy it succeeds |
| AtomicStats.LatencyStats.ExchangeMax | src/latency_client.cpp:306 | One weak exchange on max, likewise |
| StampPipeline.RunInv | src/latency_client.cpp:118-137 | Every state of every run keeps the stamp, answer, wire, matching, statistics and (with less than a frame of backlog) causality invariants, from any backlog of earlier runs |
| StampPipeline.WireInvStep | src/latency_client.cpp:254-284 | Each step keeps the ledger of response bytes: frames processed, left or still to be answered are paid for by responses of this run or by the backlog |
| StampPipeline.CauseInvStep | src/latency_client.cpp:260-284 | Causality is kept by each step: frame n is never received before stamp n was taken, though the stamp is pushed after the send and the time is read before the lock |
| StampPipeline.TimesComeFromTheClock | src/latency_client.cpp:118-130 | Every stamp and every receive time is what the clock showed in the state in which it was read for that message or frame |
| StampPipeline.ReceivedAfterEmission | src/latency_client.cpp:260-268 | Without a backlog frame n is received no earlier than any time before response n was emitted |
| StampPipeline.OneMessageRecorded | src/latency_client.cpp:118-137 | A run in full: stamp 10, receipt at 25, latency 15 in total, min and max, one message sent and one received |
| StampPipeline.NoLatencyWraps | src/latency_client.cpp:260-276 | With less than one frame of earlier responses to be processed, sent by the server or not, every recorded latency is the true integer difference of receipt and popped stamp, in every interleaving |
| StampPipeline.BacklogWraps | src/latency_client.cpp:442-454 | Each cause of a backlog, be it frames left of a chunk, bytes not received or messages not answered, leads to a run that records a wrapped latency |
| StampPipeline.WrapFreeExactlyWhenDrained | src/latency_client.cpp:254-284 | All runs are free of wrap-around if and only if the earlier responses to be processed, sent or not, come to less than one frame; the only exception is a clock at its last value |
| StampPipeline.NeverUnderReports | src/latency_client.cpp:254-284 | No backlog, as on a fresh connection, responses in order, whole chunks: the recorded latency is never below the time from the stamp of the answered message to its receipt, nor to the emission of the response by the clock; it is equal to the first when nothing before was lost |
| StampPipeline.NothingIsLost | src/latency_client.cpp:123-132 | In every state pushed stamps are popped stamps followed by the queue, messages_sent_ counts the pushed stamps, frames counted are pops plus misses, and total plus popped stamps equals the receive times modulo 2^64, each on top of what it was at the start |
| StampPipeline.SnapshotIsSound | src/latency_client.cpp:374-382 | If the loads of get_stats interleave with the receiver in any way, min and max, and the total while it has not overflowed, cover every latency recorded for the messages it counted |
| StatsMutexes.SamplesAreAccountedFor | src/hft_tcp_client.cpp:648-673 | Outside the middle of a reset: pushed and carried samples equal folded and in-flight samples as multisets, the window is the newest pushed samples in order, the aggregates are exact |
| StatsMutexes.ResetCarriesOnlyInFlight | src/hft_tcp_client.cpp:288-298 | A reset leaves an empty window and cleared aggregates, and shifts the account by exactly the samples in flight |
| StatsMutexes.QuietSamples | src/hft_tcp_client.cpp:648-673 | When all threads are done, folded samples equal pushed samples plus those carried over the last reset |
| StatsMutexes.NoWaitCycle | src/hft_tcp_client.cpp:288-298 | No chain of threads waiting for each other's mutexes has more than three members, and none is a cycle |
| StatsMutexes.SomeThreadCanStep | src/hft_tcp_client.cpp:288-298 | There is no deadlock: as long as a thread is not done some thread can step |
| StatsMutexes.RunsAreBounded | src/hft_tcp_client.cpp:648-673 | Each step of a run uses up one of the steps its threads had before them, so every run ends |
| StatsMutexes.EveryRunCompletes | src/hft_tcp_client.cpp:288-298 | A run that cannot go on has every update, reset and look done |
| StatsMutexes.NewestAreLast | src/hft_tcp_client.cpp:653-656 | The window is the last 10000 samples in order, or all if there are no more |
| StatsMutexes.FoldAllIsExact | src/hft_tcp_client.cpp:661-669 | Folding samples one by one gives their sum modulo 2^64 and their extremes |
| StatsMutexes.PushKeepsNewest | src/hft_tcp_client.cpp:651-656 | Pushing and erasing the front keeps the window at the newest 10000 samples |
| SendQueue.NothingIsLostOrReordered | src/hft_tcp_client.cpp:389-421 | In every state of every run, accepted messages are those handed to send_data, then at most one in flight, then the queue, in order |
| SendQueue.QuietCounters | src/hft_tcp_client.cpp:136-154 | At quiescence successes + failures + queue = accepted; messages_sent = accepted + successes and errors = failed sends + failed recvs, less what resets have put back to zero |
| SendQueue.SenderTakes | src/hft_tcp_client.cpp:392-403 | In every step the send thread takes the front of the queue only when it holds the mutex and the client is connected, it leaves its wait for the loop only while running, and nobody else changes the queue while it holds the mutex |
| SendQueue.OneMessageSent | src/hft_tcp_client.cpp:136-154 | A run in full: one message accepted and sent is counted twice, and the thread stops |
| SendQueue.Client.SendMessage | src/hft_tcp_client.cpp:136-154 | Accepts exactly when connected, appends to the queue and counts at once; the call is a piece of a run |
| SendQueue.Client.DrainLoop | src/hft_tcp_client.cpp:400-420 | Hands out messages in order, each while connected, whatever is pushed meanwhile, counts each once more on success, and stops only when empty or disconnected; the loop is a piece of a run |
| SendQueue.Client.SendFront | src/hft_tcp_client.cpp:401-419 | One pass: takes the front message, sends and counts it with the mutex released, as a piece of a run |
| ServerTable.PointersAreLive | src/hft_server.cpp:199-208 | Every pointer left in a batch is a live object held in the table under the reported descriptor, whatever earlier events of the batch closed or accepted |
| ServerTable.DescriptorLedger | src/hft_server.cpp:103-138 | In every single-worker run: table keys = epoll clients, objects know their keys, opened = closed + live, nothing closed twice, nothing open after stop |
| ServerTable.PeakIsHistoricalMaximum | src/hft_server.cpp:175-181 | Peak is exactly the largest table size so far and at most total connections; until stop the size is accepted minus erased, and equals total connections if and only if none was erased |
| ServerTable.EndStopClosesAll | src/hft_server.cpp:124-135 | The second half of stop leaves nothing open, with every descriptor closed once |
| ServerTable.EndsInEofIff | src/hft_server.cpp:229-244 | The reads end in a close exactly if an end of file comes after nothing but data |
| ServerTable.PeerCloses | src/hft_server.cpp:240-244 | A client that has closed leaves table, epoll and open descriptors, and its object is freed; any other end of the reads changes nothing |
| ServerTable.ArrivalIsStored | src/hft_server.cpp:144-181 | An arrival is stored and registered under its descriptor and counted, or closed again if it cannot be registered |
| ServerTable.HftServer.Initialize | src/hft_server.cpp:24-86 | Succeeds exactly if every call does; opens as many descriptors as it gets to, keeps both on success, and closes them all again on failure |
| ServerTable.HftServer.Start | src/hft_server.cpp:88-101 | After a successful initialize, leads to the first state of a run |
| ServerTable.HftServer.AcceptConnections | src/hft_server.cpp:140-185 | Performs the accept step with table, epoll and counters in agreement, and closes the descriptor if it cannot be registered |
| ServerTable.HftServer.Disconnect | src/hft_server.cpp:400-408 | Closes an open descriptor once and frees exactly its object; the invariant is kept |
| ServerTable.HftServer.HandleClientEvents | src/hft_server.cpp:212-244 | Closes the connection exactly if the reads end at end of file; otherwise the table is unchanged |
| ServerTable.HftServer.HandleEvent | src/hft_server.cpp:199-208 | Dispatch of one event is exactly the step of the run that the event and the answers call for; the pointer it follows is live |
| ServerTable.HftServer.WorkerPass | src/hft_server.cpp:187-210 | The loop over a batch performs a piece of a run, and ends in the state after all events handled in order |
| ServerTable.HftServer.Stop | src/hft_server.cpp:103-138 | A first stop closes everything, each descriptor once, or after a start on a failed initialize each one that the fields still name a second time; a second stop changes nothing |
| ServerTable.HftServer.Serve | src/hft_server.cpp:24-138 | Initialize, start, any batches, stop: every opened descriptor has been closed, and none twice, if and only if initialize succeeds, has no socket, or its result is checked |
| Reconnect.ConnectedIffSocket | src/hft_tcp_client.cpp:31-130 | After every sequence of non-overlapping calls the client is connected exactly if it holds a socket, and opens minus closes is 1 or 0 accordingly |
| Reconnect.ReconnectsExactlyWhenARoundSucceeds | src/hft_tcp_client.cpp:498-534 | From connected or in error, with reconnection on, handle_disconnection ends connected if and only if the deciding round n succeeds, after n + 1 counted attempts and one counted connection; otherwise in error without a socket |
| Reconnect.AttemptsOutcome | src/hft_tcp_client.cpp:516-534 | What the recursion leaves, from the round that decides it: state, socket, flag, counters and the sockets opened |
| Reconnect.NoRetryWhenTurnedOff | src/hft_tcp_client.cpp:510-513 | With reconnection turned off a lost connection is closed and not tried again |
| Reconnect.RetriesWhenTurnedOn | src/hft_tcp_client.cpp:510-526 | With it turned on and a server that answers, the client is connected on the new socket, and each counter is up by one |
| Reconnect.EndsIffSomeRoundDecides | src/hft_tcp_client.cpp:524-532 | The recursion ends if and only if some round connects or finds the flag off |
| Reconnect.TcpClient.Connect | src/hft_tcp_client.cpp:31-110 | Every failing branch closes the socket and ends in error; success counts one connection and holds the new socket; already connected changes nothing; no other field changes |
| Reconnect.TcpClient.Disconnect | src/hft_tcp_client.cpp:112-122 | Ends disconnected without a socket, which is closed once if one was held; no effect when disconnected; flag and counters stay |
| Reconnect.TcpClient.HandleDisconnection | src/hft_tcp_client.cpp:498-514 | Ends in the state of the specification over all rounds; with the flag off it closes the socket and stays disconnected |
| Reconnect.TcpClient.AttemptReconnection | src/hft_tcp_client.cpp:516-534 | The recursive code computes the specification over the rounds |
| ServerAverage.ClosedForm | src/hft_server.cpp:308-316 | The average is 0.99^n times the start plus the sum of 0.01 * 0.99^(n-1-i) times sample i |
| ServerAverage.WeightsAreGeometric | src/hft_server.cpp:313-315 | The last sample counts 0.01 and each earlier one 0.99 of the next |
| ServerAverage.ServerStats.ProcessMessage | src/hft_server.cpp:308-316 | One sample: 0.01 of it in microseconds and 0.99 of the average before |
| ServerAverage.AverageBounds | src/hft_server.cpp:344-352 | From zero it lies between (1 - 0.99^n) times the least and the greatest sample |
| ServerAverage.StaysBelowTarget | src/main.cpp:105 | If all samples are below the target of 20, so is the average |
| ServerAverage.StartFades | src/hft_server.cpp:379-387 | Two starts differ after n updates by exactly 0.99^n of their difference |
| ServerAverage.OneSampleMoves | src/hft_server.cpp:308-316 | Changing sample i moves the average by exactly its weight times the change |
| ServerAverage.ServerStats.ProcessAll | src/hft_server.cpp:285-388 | Any mix of the three overloads gives the average of their samples in lock order and counts each message once |
| Framing.RoundTrip | src/hft_tcp_client.cpp:536-562 | Parsing k encoded messages and a partial one delivers exactly those k, in order |
| Framing.AlignedChunksDoNotMatter | src/hft_tcp_client_simple.cpp:179-198 | If all inner boundaries are frame boundaries, parsing by chunks equals parsing the stream |
| Framing.BytesAreAccountedFor | src/hft_tcp_client.cpp:539-560 | Bytes received = frame size times frames delivered + bytes dropped between recvs |
| Framing.FramesLostToChunking | src/hft_tcp_client.cpp:539-560 | The number of frames delivered from arbitrary chunks is that of the stream less dropped / size; the same, if and only if less than one frame is dropped in all |
| Framing.HarmlessChunks | src/hft_tcp_client.cpp:539-560 | If less than a frame is dropped and no chunk holds a frame after a misaligned one, exactly the stream's frames are delivered |
| Framing.HarmfulChunks | src/hft_tcp_client.cpp:539-560 | For any other chunk lengths there is a stream of which the client delivers something else |
| Framing.ChunksDoNotMatterIff | src/hft_tcp_client.cpp:536-562 | All streams in chunks of given lengths are parsed as if they came whole, if and only if less than a frame is dropped in all and no chunk holds a frame after one that is not whole frames |
| Framing.GarbledStays | src/hft_tcp_client.cpp:539-560 | Once the frames delivered are not those of the stream, no later chunk repairs it |
| Framing.MisalignedFrame | src/hft_tcp_client.cpp:539-560 | A concrete run with three bytes dropped, the right number of frames and a wrong second frame |
| Framing.FrameCount | src/hft_tcp_client.cpp:539-560 | A chunk of length n yields floor(n / size) frames |
| Framing.Receiver.ProcessReceivedData | src/hft_tcp_client.cpp:536-562 | The loop over the buffer delivers and counts exactly the whole frames at its front |
| Framing.Receiver.ReceiveAll | src/hft_tcp_client_simple.cpp:170-198 | A receive loop delivers the parsed chunks, and bytes_received is size times frames plus dropped bytes |
| Framing.Dispatch | src/hft_server.cpp:248-281 | The server's branches handle a recv exactly if it is long enough for its type |
| Framing.ServerHandles | src/hft_server.cpp:248-281 | A recv is handled exactly if it has the length of an order, of market data or of a plain message, by its type |
| Framing.ServerCountAdds | src/hft_server.cpp:229-246 | Each recv is handled on its own |
| Framing.ClientCountIsParsed | src/hft_tcp_client.cpp:539-560 | The frames counted for a client are those its loop delivers |
| Framing.ServerAgreesExactlyOnSingleFrames | src/hft_server.cpp:228-283 | The server handles at most as many messages as a client would parse, and as many if and only if every recv holds no frame or one complete message |
| Framing.CoalescedOrders | src/hft_server.cpp:254-264 | Of k plain frames in one recv that starts with an order, the server handles one message if the recv is at least an order message long and none otherwise; a client would parse k |
| Framing.LoneOrderIsNotHandled | src/hft_server.cpp:254-264 | An order in a plain message frame, alone in its recv, is not handled, though a client would parse a frame |
| StampMatching.ByIndex | src/hft_latency_test_100k.cpp:149-153 | Latency i is receive time i minus stamp i, for every index below the count |
| StampMatching.PoppingIsIndexing | src/latency_client.cpp:266-278 | Popping the front of a queue of stamps gives the latencies of indexing |
| StampMatching.LatencyTest100K.SendAll | src/hft_latency_test_100k.cpp:93-113 | Appends one stamp per message to those already there, clears the measurements |
| StampMatching.LatencyTest100K.ReceiveResponses | src/hft_latency_test_100k.cpp:129-169 | All indices in range; exactly min(stamps, frames received) latencies, by index |
| StampMatching.LatencyClient.ReceiveResponses | src/latency_client.cpp:254-295 | Counts every frame, pops in order, leaves the unpopped stamps, counts an error exactly if recv fails before the end |
| StampMatching.ResultsUpToTheEnd | src/hft_latency_test_100k.cpp:136-166 | The frames received are the whole frames of the recvs before the first end or error, and an error is counted exactly if that is one |
| StampMatching.TwoRuns | src/hft_latency_test_100k.cpp:87-175 | A second run records by index into the stamps of both runs |
| StampMatching.SameLatenciesIffSameStamps | src/hft_latency_test_100k.cpp:149-150 | Latencies by index are the same exactly if as many stamps, and the same ones, were used |
| StampMatching.RightOnTheseResults | src/hft_latency_test_100k.cpp:129-169 | On given results and clock a run on top of old stamps is right exactly if the stamps it matches are those a fresh test would match |
| StampMatching.WrongOnEveryFrame | src/hft_latency_test_100k.cpp:93-113 | With increasing stamps a run is right if and only if there are no old stamps or it receives no frame |
| StampMatching.RightExactlyWhenNoOldStamps | src/hft_latency_test_100k.cpp:93-113 | A run records what a fresh test would, on all results and clocks, if and only if send_times_ is empty before it |
| StampMatching.OldStampIsMatched | src/hft_latency_test_100k.cpp:149-150 | A concrete second run that records 15 instead of 5 |
| StampMatching.BothRecordTheSame | src/hft_latency_test_100k.cpp:87-175 | On the same stamps, chunks and clock both programs record the same latencies |
| RunningAverage.WindowIsNewest | src/hft_tcp_client_simple.cpp:322-344 | In both clients the window is the newest 10000 latencies in order, the aggregates are those of all latencies, every message is counted |
| RunningAverage.WindowIsBounded | src/hft_tcp_client_simple.cpp:332-338 | Every element of the window lies between min and max |
| RunningAverage.TotalIsSum | src/hft_tcp_client.cpp:661 | Both clients' totals are the sum of the latencies modulo 2^64 |
| RunningAverage.AfterUnstamped | src/hft_tcp_client_simple.cpp:183-192 | A message without a stamp changes the count only, not the average, in both clients |
| RunningAverage.SimpleAverageIsExact | src/hft_tcp_client_simple.cpp:340-343 | After a stamped message, average * 1000 * received = total |
| RunningAverage.FullAverageIsExact | src/hft_tcp_client.cpp:675-679 | From the second message on, average * 1000 * (received - 1) = total |
| RunningAverage.FullAverageIsTooHigh | src/hft_tcp_client.cpp:548-558 | avg_full * (k - 1) = avg_simple * k on the same k messages, k >= 2; they are equal if and only if the total is zero |
| RunningAverage.FirstAverageIsMissing | src/hft_tcp_client.cpp:676-678 | After one stamped message the full client still reports zero, the simple client its latency |
| RunningAverage.SimpleAverageIsBetweenExtremes | src/hft_tcp_client_simple.cpp:332-343 | Without overflow the average is at most max after any messages, and at least min if no stamped message comes after an unstamped one |
| RunningAverage.NeverBelowMinIffStampedFirst | src/hft_tcp_client_simple.cpp:183-192 | For a given pattern of stamps the average is at least min on all messages without overflow if and only if the pattern has a stamped message and none after an unstamped one; if the last is stamped, if and only if all are |
| RunningAverage.RunsContinue | src/hft_tcp_client_simple.cpp:170-198 | How the messages are divided into recvs does not matter to the statistics of either client |
| RunningAverage.UnstampedMessagePullsAverageBelowMinimum | src/hft_tcp_client_simple.cpp:183-192 | A concrete run in which a message without a stamp makes the average fall below the minimum |
| RunningAverage.SimpleClient.ReceiveMessages | src/hft_tcp_client_simple.cpp:180-198 | From any statistics, the loop that counts before it measures ends in the simple client's specified ones |
| RunningAverage.SimpleClient.UpdateLatencyStats | src/hft_tcp_client_simple.cpp:322-344 | The new window, extremes, total and average are those of the specification |
| RunningAverage.FullClient.ProcessMessages | src/hft_tcp_client.cpp:536-562 | From any statistics, the loop that counts after it measures ends in the full client's specified ones |
| RunningAverage.FullClient.UpdateLatencyStats | src/hft_tcp_client.cpp:648-679 | Without interference, the same change of window, aggregates and average |
| RunningAverage.FullClient.ResetStats | src/hft_tcp_client.cpp:288-298 | Back to the empty statistics |
| Percentiles.RanksAreOrdered | src/simple_latency_test.cpp:114-119 | A larger index never gives a smaller percentile |
| Percentiles.SortedHasRanks | src/simple_latency_test.cpp:106-119 | The sorted sample at index k has at most k samples below it and more than k not above it |
| Percentiles.RankCounts | src/hft_latency_test_100k.cpp:193-199 | A value has rank k if and only if at least k + 1 samples are <= it and at least n - k are >= it |
| Percentiles.LeastIsRankZero | src/hft_latency_test_100k.cpp:188 | The minimum is exactly the value of rank 0, so front of the sorted list and min_element agree |
| Percentiles.GreatestIsLastRank | src/hft_latency_test_100k.cpp:189 | The maximum is exactly the value of rank n - 1 |
| Percentiles.ExactCutIsQuantile | src/simple_latency_test.cpp:115-119 | At an exact index more than q of the samples are <= the percentile and at least 1 - q are >= it |
| Percentiles.ExactReport | src/simple_latency_test.cpp:115-119 | At exact indices each reported percentile is the quantile of its name: 500, 900, 950, 990 and 999 permille |
| Percentiles.ReportIsUnique | src/simple_latency_test.cpp:100-119 | Samples determine every reported number |
| Percentiles.ReportOfPermutation | src/simple_latency_test.cpp:106-111 | The report does not depend on the order of the samples |
| Percentiles.ReportIsOrdered | src/simple_latency_test.cpp:109-119 | min <= p50 <= p90 <= p95 <= p99 <= p99.9 <= max, all of them samples, for any index map that is monotone and in range |
| Percentiles.AverageIsBetween | src/hft_latency_test_100k.cpp:190-191 | If the sum does not overflow, min <= average <= max |
| Percentiles.Accumulate | src/hft_latency_test_100k.cpp:190 | The accumulated total is the sum modulo 2^64 |
| Percentiles.SimpleStatistics | src/simple_latency_test.cpp:100-119 | Produces the report of its samples, or none for an empty list |
| Percentiles.Statistics100K | src/hft_latency_test_100k.cpp:177-199 | Produces the report of its samples, or none for an empty list |
| Percentiles.BothReportTheSame | src/hft_latency_test_100k.cpp:177-199 | On the same latencies, in any order, both programs report the same numbers |
| Percentiles.RoundTripAt | src/simple_latency_test.cpp:78-83 | Each answered message has its receipt minus its sending in the list, in order, and nothing else is there |
| Percentiles.RoundTripsFitInRun | src/simple_latency_test.cpp:50-88 | With a clock that does not go back, the round trips add up to at most the duration of the run |
| Percentiles.SimpleReportIsHonest | src/simple_latency_test.cpp:50-112 | So the simple test's sum never overflows, and its average is the exact mean, between min and max |
| Percentiles.RunTest | src/simple_latency_test.cpp:39-98 | Skips failed exchanges and reports on the others |

## Left out

- Sockets, epoll, select, clocks, sleeps, console output, argument parsing and signals are input and output; their answers appear as parameters or as nondeterministic steps.
- Message payloads are opaque and the frame size is a parameter: order and market data messages extend `Message`, whose payload cannot hold them (`inc/message.h:80`, `inc/message.h:140`), so no round trip through the payload exists.
- ServerTable.DescriptorLedger: one worker thread only, as close comes before erase (`src/hft_server.cpp:401-406`) and descriptor reuse or two workers break the table.
- ServerTable.PointersAreLive: one worker thread only, and given that epoll reports a registered descriptor at most once per batch.
- ServerTable.HftServer.Stop: does not model the joining of a worker that is inside a batch; that interleaving is in the runs of DescriptorLedger, where the listening socket closes between any two events.
- ServerTable.HftServer.AcceptConnections: the object, the table entry and the epoll registration appear together, since no other thread of the single-worker model can see them apart.
- Reconnect.ConnectedIffSocket: calls do not overlap; the check of the state and its change are separate in the code, so overlapping calls may close a socket twice.
- `epoll_fd_` of the full client, and the receive buffer it shares between two threads, are not modelled.
- Guaranteed completion of the full client's stop is not claimed: the flag is set without the queue mutex (`src/hft_tcp_client.cpp:234-237`), so a wake-up can be missed.
- ServerTable.HftServer.Serve: the number of a closed descriptor is not given out again between a failed initialize and stop.
- RunningAverage.NeverBelowMinIffStampedFirst: for fewer than 2^64 messages, which is what the message counter can hold.
- SendQueue.Client.DrainLoop: the statistics mutex and the disconnection that follows a failed send appear as the connection flag of the next pass.
- RunningAverage.FullClient.UpdateLatencyStats: one thread; interleavings of the two critical sections are in StatsMutexes.
- StampPipeline.WrapFreeExactlyWhenDrained: the clock does not go back, though `high_resolution_clock` need not be steady; and the server answers each message at most once, after receiving it, in one frame.
- StampPipeline.NoLatencyWraps: under the same assumptions; one run, from the moment at which reset_stats clears the queue; its own stores come before that and appear as the words and the count that the run starts on.
- StampPipeline.SnapshotIsSound: the total is covered only while the sum of all latencies is below 2^64; the average and the percentiles of get_stats are not modelled.
- Floating-point rounding: averages are reals, and the index of a percentile is any map that is monotone and in range.
- Percentiles.Sort: stands for std::sort, of which only the result matters.
- `LatencyTestClient::calculate_percentiles` sorts the stamps that are left over, which are not latencies.
- Order and market data services only log; `send_response` is unused; test data is random.
- The performance grades that the clients print are comparisons of the averages above with constants.
