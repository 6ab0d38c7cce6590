# my-redis: a verified model

my-redis is a small Redis-compatible server. One main thread executes commands against a
key-value store; a pool of IO threads owns the client sockets, decodes requests and writes
replies; the two sides talk through fixed-capacity lock-free rings and eventfds. The store
can be written to disk as JSON snapshots and restored at start-up.

The project models that pipeline from the bytes on the wire to the bytes on disk and proves
what holds of every input, every interleaving and every crash. Each layer has a reference
definition, the code's loops and in-place updates proved against it, and lemmas that say what
the reference means:

- `Text`, `Resp`, `RespGrammar`, `RespMethods`, `RespQueue`: RESP values, their wire form, the
  grammar of what is and is not one, the parser and the incremental decoder.
- `Spsc`: the ring, at the grain of its atomic loads and stores.
- `Channels`, `ReplyOrder`: the pipeline over plain message channels, with its invariant.
- `Pipeline`, `Refinement`, `Lifecycle`, `Counters`, `Progress`, `DeadlockRun`, `Settling`,
  `Answering`: rings, program counters and eventfds of all threads in any interleaving; refinement
  of `Channels`; what ends a connection; lost wake-ups; progress; the pipeline settles, and then
  every client is connected and has everything it asked answered.
- `IoThread`, `MainThread`: the loops of the IO threads and of the main thread, updating their
  objects in place, proved against the steps of `Channels`.
- `FdReuse`: the descriptor race, and exactly when it bites.
- `Store`, `Serialise`, `StoreJson`, `JsonGrammar`, `Snapshot`, `TempReuse`: the store with
  expiries, its JSON form, the texts that load, durable snapshots under crashes.
- `Dispatcher`, `Commands`, `Replies`: the command chain, a law for every command in its own words,
  and the whole server seen by a client.
- `LinearProbing`, `Chains`, `ChainedMap`: the two hash maps.
- `HandOff`: the first server's per-connection hand-off between worker threads.

## What turned out not to hold

Each of these promises fails as the code stands. Each has lemmas that show it, for every input or
state of the failing family, and the exact condition under which the promise holds.

- **The pipeline can stop for good.** The main thread spins on a full inbox while that IO thread
  spins on its full outbox. `DeadlockRun.DeadlockIsReachable` reaches it for every capacity and
  `Progress.DeadlockIsForever` shows it never ends. It is the only way to stop short:
  `Answering.EveryClientIsAnsweredUnlessDeadlock` continues every run, by steps of the threads alone,
  to that wait or to a state in which every client that was connected or accepted, and not on its
  way out, is connected and answered.
- **A reused descriptor crosses two clients.** An IO thread closes a socket before the main thread
  has seen the `Disconnect`. If the next client gets that number it is sent the replies to the old
  client's queued requests, and then loses its route (`FdReuse.NewClientIsCutOff`).
  `FdReuse.AcceptKeepsExactly` and `MainThread.AcceptAllExactly` give the condition.
- **An open-addressed key can come back.** Inserting a key that sits behind a tombstone stores it
  twice. `LinearProbing.InsertRefinesExactly` and `LinearProbing.RunsRefineExactly` give the
  condition, `LinearProbing.HiddenKeyComesBack` the failing family.
- **A failed write can cost another one its snapshot.** A write that fails after its rename unlinks
  a temporary name that may by then be another write's. `Snapshot.DoKeepsExactly` gives the
  condition, `TempReuse.HarmfulUnlinkLoses` a loss from every such moment.
- **The first server can dispatch one client's chunks out of order** when two workers race for the
  connection's lock (`HandOff.ChunksMayOvertake`). `HandOff.SubmissionOrderExactly` gives the
  condition.
- **GET and TTL disagree** at exactly the expiry millisecond, and about a key set to a null bulk
  string at every moment before that (`Store.GetAndTtlDisagreeExactly`).
- **The timestamp -1 doubles as "no expiry"**, so LT and GT stop being minimum and maximum and NX
  can succeed twice, exactly there (`Store.LtExactlyEarlier`, `Store.GtExactlyLater`,
  `Store.NxSucceedsOnceExactly`).

## Model

| member | source | states |
|---|---|---|
| Resp.ParseExtends | v2/src/resp_value/resp_value.cc:10-122 | a value parsed, or rejected, stays so whatever bytes follow |
| Resp.ParseTruncates | v2/src/resp_value/resp_value.cc:10-122 | the bytes a parse reports as consumed are enough to give the same value |
| Resp.ParsedIsWellFormed | v2/src/resp_value/resp_value.cc:10-122 | every value the parser returns can be printed and read back |
| Resp.RoundTrip | v2/src/resp_value/resp_value.cc:124-151 | printing a well-formed value and parsing it, with anything after it, gives the value and its length |
| Resp.RoundTripExact | v2/src/resp_value/resp_value.cc:124-151 | the round trip works if and only if the value is well formed: no CRLF inside a line, sizes and integers in 64 bits |
| Resp.PrefixFree | v2/src/resp_value/resp_value.cc:124-151 | two streams that start with printed values and are equal start with the same value: framing is unambiguous |
| Text.ParseLongLongOfToString | v2/src/resp_value/resp_value.cc:55-66 | reading back a printed 64-bit integer gives it, sign and extremes included |
| Text.FindCrlfIsFirst | v2/src/resp_value/resp_value.cc:31-41 | where there is a CRLF the search finds one, and none comes before it |
| Text.StollExactly | v2/src/resp_value/resp_value.cc:61 | each of the three outcomes of reading a number line, exactly: white space, an optional sign and digits that fit; the same but too big; no such thing |
| Text.FromCharsExactly | v2/src/store/serialise.cc:136-146 | `std::from_chars` takes exactly the integer text at the front, up to the first character that cannot go on with it |
| Text.ValueByPlaces | v2/src/store/serialise.cc:136-146 | digits added on the right multiply what was there by as many tens |
| RespGrammar.ParseExactly | v2/src/resp_value/resp_value.cc:10-122 | a parse gives a value if and only if the bytes consumed are a text of it, rejects if and only if the text is malformed (a bad type byte, a number line without digits, a bulk length below -1, a negative array length, or such a thing among the elements), and asks for more if and only if it is cut short or a number does not fit |
| RespGrammar.PrintedIsShortest | v2/src/resp_value/resp_value.cc:124-151 | of all texts the parser would take for a value, the printed one is the shortest, and the only one of that length |
| RespMethods.FromString | v2/src/resp_value/resp_value.cc:185-188 | the entry point gives a value if and only if the front is a text of it, and rejects or asks for more exactly on malformed and on unfinished text |
| RespMethods.ParseVariant | v2/src/resp_value/resp_value.cc:10-29 | the same from any position, for the text that is left |
| RespMethods.ParseSimpleString | v2/src/resp_value/resp_value.cc:31-41 | position-based code agrees with the reference on the suffix |
| RespMethods.ParseSimpleError | v2/src/resp_value/resp_value.cc:43-53 | position-based code agrees with the reference on the suffix |
| RespMethods.ParseInteger | v2/src/resp_value/resp_value.cc:55-66 | position-based code agrees with the reference on the suffix, rejected and over-long numbers included |
| RespMethods.ParseBulkString | v2/src/resp_value/resp_value.cc:68-99 | null, negative, short and unterminated payloads each give the reference's outcome, with every index in bounds |
| RespMethods.ParseArray | v2/src/resp_value/resp_value.cc:101-122 | the element loop agrees with the recursive reference |
| RespMethods.Print | v2/src/resp_value/resp_value.cc:124-151 | the printing loop gives the reference wire form |
| RespQueue.GreedyResumes | v2/src/resp_value/resp_value_queue.cc:10-35 | reading some bytes and carrying the rest over is reading all of them at once |
| RespQueue.GreedyOfSerialized | v2/src/resp_value/resp_value_queue.cc:10-35 | the printed form of any well-formed values decodes to exactly those values with nothing left |
| RespQueue.RespValueQueue.Push | v2/src/resp_value/resp_value_queue.cc:8 | appends the chunk to the buffer and touches nothing else |
| RespQueue.RespValueQueue.Pop | v2/src/resp_value/resp_value_queue.cc:10-35 | the parse loop leaves the queue and the buffer, and returns or throws, as one greedy reading of the buffer says |
| RespQueue.RunFaithful | v2/src/resp_value/resp_value_queue.cc:8-35 | after any pushes and pops, bytes consumed and bytes held are the bytes pushed, and the bytes consumed are the values returned and queued |
| RespQueue.ChunkingIndependence | v2/src/resp_value/resp_value_queue.cc:8-35 | however the stream is cut and whenever values are popped, those returned are a prefix of the one reading of the whole stream |
| RespQueue.NothingMeansAll | v2/src/resp_value/resp_value_queue.cc:10-35 | a pop that finds nothing means every complete value pushed has been returned |
| Spsc.PushStoreTailAppends | v2/src/concurrent/single_consumer_producer_queue.h:20-29 | the tail store, and it alone, appends the element |
| Spsc.PopStoreHeadRemoves | v2/src/concurrent/single_consumer_producer_queue.h:31-41 | the head store, and it alone, removes the oldest element, which is the one returned |
| Spsc.NeverSameSlot | v2/src/concurrent/single_consumer_producer_queue.h:20-41 | a producer writing a slot and a consumer reading one never mean the same slot |
| Spsc.PerformKeepsFifo | v2/src/concurrent/single_consumer_producer_queue.h:15-41 | each atomic operation of either side keeps the ring's invariant and its order |
| Spsc.EveryRunIsFifo | v2/src/concurrent/single_consumer_producer_queue.h:15-41 | in every interleaving, elements popped followed by those held are the elements pushed |
| ReplyOrder.RunBatchFacts | v2/src/server/server.cc:229-246 | executing a batch logs its requests in order, each at its clock reading, and the log is a serial run of the store |
| ReplyOrder.ReadKeeps | v2/src/server/io_thread.cc:139-180 | reading any bytes keeps every connection's requests and replies accounted for |
| ReplyOrder.FlushKeeps | v2/src/server/io_thread.cc:182-213 | so does writing any number of bytes or failing to |
| ReplyOrder.DeliverKeeps | v2/src/server/io_thread.cc:108-137 | so does handling the oldest inbox message, for a live connection or one already gone |
| ReplyOrder.CloseKeeps | v2/src/server/io_thread.cc:215-222 | so does closing a connection |
| ReplyOrder.AcceptKeeps | v2/src/server/server.cc:198-213 | so does accepting a descriptor that is not routed |
| ReplyOrder.TakeBatchKeeps | v2/src/server/server.cc:215-242 | so does executing a batch and posting its reply |
| ReplyOrder.TakeDisconnectKeeps | v2/src/server/server.cc:222-224 | so does dropping a route |
| Refinement.IoRefines | v2/src/server/io_thread.cc:77-235 | every atomic step of an IO thread is a step of the channel model, or no change to it |
| Refinement.IncomingRefines | v2/src/server/server.cc:207-213 | accepting is one step of the channel model although the message is posted later |
| Refinement.TakeReturnRefines | v2/src/server/server.cc:215-242 | processing one outbox message is one step of the channel model although the reply is posted later |
| Refinement.EveryClientIsServed | v2/src/server/server.cc:215-242 | in every reachable state of any number of threads: a client's executed and queued requests are the values of the bytes it sent, the bytes sent, buffered and under way are the replies to its executed requests in order, and the log is a serial run of the store |
| Lifecycle.ConnectionLaw | v2/src/server/io_thread.cc:108-222 | in every reachable state a step ends a connection if and only if it is its own thread's hang-up, error event, malformed read or broken write; otherwise the connection goes on with exactly the bytes read from it, brought back for it and taken by its socket |
| Lifecycle.EndsExactly | v2/src/server/io_thread.cc:131-222 | those four ways, for any step of any IO thread |
| Lifecycle.OtherwiseGoesOn | v2/src/server/io_thread.cc:131-213 | otherwise bytes sent and waiting are the old ones and the reply, in order, and sent grows by what the socket took |
| Lifecycle.BeginsExactly | v2/src/server/io_thread.cc:118-129 | a connection begins only with the handling of its assignment, with nothing read or sent |
| Counters.CommandCountsRings | v2/src/concurrent/event_fd.cc:17-33 | over every run the shared command counter is the number of nudges and signals since the main thread last attended |
| Counters.EventCountsNotifications | v2/src/concurrent/event_fd.cc:17-33 | over every run an inbox counter is the number of notifications to that thread since it last woke |
| Counters.FullRingNudges | v2/src/server/io_thread.cc:224-235 | a push rings and retries exactly when the ring is full, and does nothing before ringing |
| Progress.NoWakeupIsLost | v2/src/concurrent/event_fd.cc:17-33 | in every reachable state a non-empty ring has its event pending, its reader still due to look, or its writer about to notify |
| Progress.ProgressUnlessDeadlock | v2/src/server/io_thread.cc:58-75 | whenever work is pending some thread can do more than retry a failing push, unless the main thread and an IO thread wait for each other |
| Progress.DeadlockIsForever | v2/src/server/io_thread.cc:224-235 | that mutual wait survives every step of every thread, and no command is executed any more |
| DeadlockRun.DeadlockIsReachable | v2/src/server/io_thread.cc:58-75 | for every positive ring capacity a server with one IO thread has a run into it |
| Settling.ProductiveDrops | v2/src/server/io_thread.cc:77-235 | every step of any thread, other than an event from outside or a failing retry, uses up some of a measure of the work outstanding |
| Settling.PathsAreBounded | v2/src/server/server.cc:215-242 | so no path of such steps from a reachable state is longer than its measure |
| Settling.EveryRunSettles | v2/src/server/server.cc:150-196 | every run can be continued by such steps alone to rest, or to the mutual wait |
| Settling.AtRestAllIsAnswered | v2/src/server/server.cc:229-242 | in every reachable state at rest the requests executed for a live client are all the complete ones it sent, and the bytes sent or buffered are exactly their replies |
| Answering.EveryClientIsAnsweredUnlessDeadlock | v2/src/server/server.cc:215-242 | whatever has happened, without further events: every client connected or accepted and not on its way out is connected in the end and answered in full for the bytes it had sent, every one on its way out is gone, or the mutual wait is reached |
| Answering.ClientConnects | v2/src/server/server.cc:198-213 | a client accepted at any later moment is connected in the end, or the mutual wait is reached |
| Answering.ClientAsks | v2/src/server/io_thread.cc:139-180 | a connected client that then sends well-formed bytes is still connected and answered for them too |
| Answering.ThenAllIsSent | v2/src/server/io_thread.cc:182-213 | and once its socket takes what is offered it has been sent exactly the replies to all it asked |
| Answering.AtRestRoutedIsConnected | v2/src/server/server.cc:207-227 | at rest a thread holds a connection if and only if the main thread routes it there |
| Answering.PeerGoneHangsUp | v2/src/server/io_thread.cc:139-156 | a read that meets the end of the stream closes the connection or is about to |
| IoThread.Connection.ReadIntoParseQueue | v2/src/server/io_thread.cc:158-170 | every chunk read is pushed in order, and the peer counts as alive only if the socket ran dry |
| IoThread.Connection.EmitParsedCommands | v2/src/server/io_thread.cc:172-180 | the popping loop collects exactly the complete values of the buffer, or throws if they run into a malformed one |
| IoThread.Connection.FlushOutBuffer | v2/src/server/io_thread.cc:188-213 | for every possible sequence of kernel answers: what was taken is sent, the rest is kept in order, and the socket is watched for room exactly while bytes remain |
| IoThread.IoThread.CloseConnection | v2/src/server/io_thread.cc:215-222 | drops the connection and emits one disconnect, or does nothing for an unknown descriptor |
| IoThread.IoThread.HandleReadable | v2/src/server/io_thread.cc:139-156 | is the channel model's read of all the bytes at once, then a close if the peer is gone |
| IoThread.IoThread.HandleAssign | v2/src/server/io_thread.cc:118-129 | adds a fresh connection unless the descriptor is already held |
| IoThread.IoThread.HandleWriteResponse | v2/src/server/io_thread.cc:131-137 | is the channel model's delivery of a reply, ignored for a client that left; unless the write breaks, the client stays, bytes sent and waiting are the old ones and the reply in order, and sent grows by what the socket took |
| IoThread.IoThread.HandleWritable | v2/src/server/io_thread.cc:182-186 | is the channel model's flush, or nothing for an unknown descriptor |
| IoThread.IoThread.DrainInbox | v2/src/server/io_thread.cc:108-116 | delivers every waiting message in order, and those the main thread pushes meanwhile, and leaves the inbox empty |
| IoThread.DrainKeeps | v2/src/server/io_thread.cc:108-137 | draining a whole inbox that nobody pushes to keeps every client's account straight |
| MainThread.Server.constructor | v2/src/server/server.cc:110-128 | one IO thread fewer than cores, at least one, and the pipeline's invariant holds |
| MainThread.Server.AssignToIoThread | v2/src/server/server.cc:207-213 | is the channel model's accept |
| MainThread.Server.AcceptConnections | v2/src/server/server.cc:198-205 | whatever descriptors come, the channel model's accepts one after another |
| MainThread.AcceptAllRoutes | v2/src/server/server.cc:207-213 | the i-th accepted client goes to the i-th thread after the counter, round and round, the last of equal descriptors winning; no other route moves |
| MainThread.AcceptAllExactly | v2/src/server/server.cc:198-213 | the pipeline's invariant is kept throughout if and only if no descriptor is still routed, from before or by an earlier accept |
| MainThread.Server.Execute | v2/src/server/server.cc:244-246 | store and reply are those of dispatching the request and printing the answer |
| MainThread.Server.ExecuteAndRespond | v2/src/server/server.cc:229-242 | the loop runs the whole batch and posts the joined replies once, if the client is still routed; the store changes either way |
| MainThread.Server.ProcessCommands | v2/src/server/server.cc:215-227 | with IO threads running on in between: every message that waited is processed, thread by thread in order, with what is pushed behind it; the invariant is kept; if nothing is pushed all outboxes end empty; the k-th command of the sweep is executed at the k-th reading of the clock |
| MainThread.TimesNeverRunBackwards | v2/src/server/server.cc:215-246 | so a clock that never runs backwards gives a log whose times never do |
| FdReuse.AcceptKeepsExactly | v2/src/server/server.cc:198-213 | accepting a descriptor keeps the pipeline's invariant if and only if it is not still routed |
| FdReuse.NewClientIsCutOff | v2/src/server/server.cc:215-242 | if it is, wherever the old client's disconnect stands in the outbox: the new client is sent, right behind its assignment, the replies to the old client's queued requests, then loses its route, and what it asks is executed and never answered |
| FdReuse.HangUpIsReachable | v2/src/server/io_thread.cc:215-222 | for every capacity a run of the threads in which a client connects and hangs up ends with its descriptor closed, still routed, and its disconnect waiting |
| FdReuse.AskAndHangUpIsReachable | v2/src/server/io_thread.cc:172-222 | and one in which a request of it still waits ahead of the disconnect |
| Dispatcher.ParseCommandExactly | v2/src/server/handler/command.h:28-49 | a value reads as a command if and only if it is the array of bulk strings that spells it, with a non-empty name |
| Dispatcher.ParseCommandLoop | v2/src/server/handler/command.h:28-49 | the loop computes that reading |
| Dispatcher.ClaimsAreDisjoint | v2/src/server/handler/request_dispatcher.cc:24-54 | no request is claimed by two handlers other than the final catch-all |
| Dispatcher.DispatchIsTheClaimant | v2/src/server/handler/request_dispatcher.cc:56-64 | so the handler that answers does not depend on the order of the chain |
| Dispatcher.Claimant | v2/src/server/handler/request_dispatcher.cc:56-64 | the loop over the chain stops at the first claimant and always finds one |
| Dispatcher.DispatchLoop | v2/src/server/handler/request_dispatcher.cc:56-64 | run on the store object, the claimant's handler leaves the store and gives the reply of the reference dispatch, which the `Commands` laws describe request by request |
| Commands.GetLaw | v2/src/server/handler/get_request_handler.h:22-39 | GET answers the value if the key is present now, else the null bulk string, and changes nothing |
| Commands.SetLaw | v2/src/server/handler/set_request_handler.h:22-37 | SET answers OK; from then on, at every time, GET answers the value and TTL -1, and no other entry changes |
| Commands.DelLaw | v2/src/server/handler/del_request_handler.h:22-37 | DEL answers 1; from then on, at every time, GET answers null and TTL -2, and no other entry changes |
| Commands.TtlLaw | v2/src/server/handler/ttl_request_handler.h:26-39 | TTL in seconds and PTTL in milliseconds: -1 if and only if the key is present for ever, -2 if and only if it is gone from the next millisecond on, else the whole units up to its last moment |
| Commands.ExpireLaw | v2/src/server/handler/expire_request_handler.h:35-57 | EXPIRE and PEXPIRE from now, EXPIREAT and PEXPIREAT absolute, in seconds or milliseconds: a stored key is present exactly up to that moment with its value, and the reply is 1; else 0 and no change |
| Commands.ExpireOptionLaw | v2/src/server/handler/expire_request_handler.h:35-57 | with NX, XX, GT or LT the same happens if and only if the key is present for ever, not for ever, gone by the new moment, or there right after it; else 0 and no change |
| Commands.PersistLaw | v2/src/server/handler/persist_request_handler.h:22-39 | PERSIST answers 1 if and only if the key is present now and not for ever, and then it is for ever; else 0 and no change |
| Commands.EchoLaw | v2/src/server/handler/ping_request_handler.h:14-25 | ECHO and PING give back their argument, PING without one answers PONG |
| Commands.HelloLaw | v2/src/server/handler/hello_request_handler.h:15-42 | HELLO, and HELLO 2, answer the server's description with protocol 2; any other version is refused |
| Commands.UnknownLaw | v2/src/server/handler/unknown_request_handler.h:14-20 | every request of any other shape gets the one error and changes nothing |
| Commands.WholeIntegerExactly | v2/src/server/handler/expire_request_handler.h:60-70 | the integers accepted are exactly the 64-bit integer texts |
| Commands.PrintedInteger | v2/src/server/handler/expire_request_handler.h:60-70 | among them every printed 64-bit integer |
| Replies.ServeIsSound | v2/src/server/server.cc:244-246 | every reply is well formed and the store keeps fitting its machine types |
| Replies.CoalescedReply | v2/src/server/server.cc:229-246 | the one reply to the n requests of any read, decoded in any chunks, is exactly the n answers in order |
| Replies.EveryClientReadsItsAnswers | v2/src/server/server.cc:215-246 | in every reachable state what a client can decode is a prefix of its own requests' answers in the serial run, never malformed |
| Replies.ExpireThenTtl | v2/src/server/handler/expire_request_handler.h:45-56 | setting a relative expiry over the wire and asking for it later gives what is left of it, rounded down to the unit |
| Replies.DispatchTtl | v2/src/server/handler/ttl_request_handler.h:33-39 | TTL and PTTL answer the store's value, divided by the unit unless negative |
| Replies.SetNullDisagrees | v2/src/server/handler/set_request_handler.h:22-32 | SET with a null bulk string is accepted, and from then on GET finds nothing while TTL reports a key without expiry |
| Store.Store.DoSet | v2/src/store/store.cc:29-31 | from then on GET gives the value and TTL -1 at every time, and no answer about another key changes |
| Store.Store.DoDel | v2/src/store/store.cc:33 | from then on GET gives nothing and TTL -2 at every time, and no answer about another key changes |
| Store.Store.DoExpireAt | v2/src/store/store.cc:39-72 | succeeds exactly when the option's order on deadlines holds, with none as infinity; then GET gives the old value up to and including the timestamp and TTL counts down to it; no answer about another key changes |
| Store.Store.DoTtl | v2/src/store/store.cc:74-82 | a positive answer t means present exactly up to now + t, -1 present at all times, -2 at no later time, and nothing else is answered |
| Store.Store.DoPersist | v2/src/store/store.cc:86-94 | succeeds exactly when the key is present now and not for ever; then GET gives the value and TTL -1 at every time; otherwise nothing changes, and never another key |
| Store.AbsentStaysAbsent | v2/src/store/store.cc:19-94 | under a non-decreasing clock a key once absent stays absent over every run without SET or EXPIRE on it |
| Store.TtlIsExact | v2/src/store/store.cc:74-82 | a positive TTL t means the value is readable up to and including now + t and never after, whatever happens to other keys |
| Store.GetAndTtlDisagreeExactly | v2/src/store/store.cc:19-82 | GET and TTL disagree on whether a key is there if and only if it has a value and it is exactly the expiry millisecond, or it has a null value and is not yet at it |
| Store.LtKeepsEarliest | v2/src/store/store.cc:39-72 | any LT-only sequence leaves the minimum of the initial expiry and all proposals |
| Store.GtKeepsLatest | v2/src/store/store.cc:39-72 | any GT-only sequence leaves the maximum, with no expiry as infinity |
| Store.ExtremesAreExtreme | v2/src/store/store.cc:39-72 | those are a minimum and a maximum: attained, and bounding every proposal |
| Store.LtExactlyEarlier | v2/src/store/store.h:68 | at the -1 sentinel LT is the minimum if and only if the old expiry lies before it |
| Store.GtExactlyLater | v2/src/store/store.h:68 | at the -1 sentinel GT is the maximum if and only if the old expiry does not lie before it |
| Store.NxSucceedsExactly | v2/src/store/store.cc:39-72 | on a key without expiry an NX-only sequence succeeds up to and including its first proposal other than -1, and on any other key never |
| Store.NxSucceedsOnceExactly | v2/src/store/store.cc:39-72 | so it succeeds at most once if and only if it does not open with -1 and go on, on a key without expiry |
| Serialise.StringRoundTrip | v2/src/store/serialise.cc:20-134 | any string, control characters and quotes included, is read back from its JSON form |
| Serialise.IntegerRoundTrip | v2/src/store/serialise.cc:136-146 | so is any 64-bit integer followed by a non-digit |
| Serialise.AppendJsonString | v2/src/store/serialise.cc:20-60 | the escaping loop appends the reference form |
| Serialise.SkipWhitespace | v2/src/store/serialise.cc:62-67 | stops at the first character that is not JSON whitespace, in bounds |
| Serialise.ParseJsonString | v2/src/store/serialise.cc:84-134 | reads or rejects as the reference does, with every index in bounds |
| Serialise.ParseJsonInteger | v2/src/store/serialise.cc:136-146 | reads or rejects as the reference does |
| StoreJson.SpacedTextLoads | v2/src/store/store.cc:172-217 | with any JSON whitespace between any tokens, loading onto any store overrides it pair by pair, the last duplicate winning |
| StoreJson.RestoreIsExact | v2/src/store/store.cc:96-217 | whatever order the map is visited in, the text written loads back to exactly the store |
| StoreJson.SerialiseToJson | v2/src/store/store.cc:96-118 | the writing loop gives the reference text of some visit of each key once, and that text loads back to exactly the store |
| StoreJson.ParseEntryJson | v2/src/store/store.cc:120-170 | reads or rejects one entry as the reference does, white space before its brace rejected |
| StoreJson.DeserialiseFromJson | v2/src/store/store.cc:172-217 | the loading loop leaves the store the reference gives, also when it throws half-way |
| JsonGrammar.LoadExactly | v2/src/store/store.cc:120-217 | a load succeeds if and only if the whole text is one object of the grammar, any white space and any escapes allowed; on every text it stores the longest list of pairs that stands whole at the front, in order, and nothing else |
| JsonGrammar.LiteralExactly | v2/src/store/serialise.cc:84-134 | a string is read if and only if a literal for it stands there, raw characters and every escape included |
| JsonGrammar.PairExactly | v2/src/store/store.cc:120-170 | an entry is read if and only if its tokens stand there in order |
| Snapshot.TargetHasStamp | v2/src/snapshot/snapshotter.cc:28-51 | a snapshot's file name reads back as its timestamp |
| Snapshot.StampOfExactly | v2/src/snapshot/snapshotter.cc:28-51 | a file counts as a snapshot with that timestamp if and only if its name is the prefix, an integer text for it and the suffix |
| Snapshot.TempHasNoStamp | v2/src/snapshot/snapshotter.cc:60-64 | no temporary name looks like a snapshot, whatever the prefix |
| Snapshot.LatestSnapshot | v2/src/snapshot/snapshotter.cc:28-51 | picks a regular file with the largest timestamp, or none if there is none |
| Snapshot.DoKeepsExactly | v2/src/snapshot/snapshotter.cc:53-111 | every system call of every concurrent write, failing ones included, keeps every snapshot name leading to a whole, synced file and every write owning its temporary name, if and only if it is not a clean-up that unlinks another write's |
| Snapshot.SnapshotNamesStay | v2/src/snapshot/snapshotter.cc:53-111 | no call takes a snapshot's name out of the directory |
| Snapshot.BeginTakesTheStore | v2/src/snapshot/snapshotter.cc:113-125 | beginning a snapshot makes a text that restores to exactly the store handed over |
| Snapshot.TakenFromCalls | v2/src/snapshot/snapshotter.cc:53-125 | every text written in a run restores to the store of one of the calls that began a snapshot in it, under the name that call's timestamp gives |
| Snapshot.ReturnedSurvives | v2/src/snapshot/snapshotter.cc:53-111 | after a crash the name of a snapshot whose write had returned is there, with a text taken under that name since the start |
| Snapshot.CrashIsSafe | v2/src/snapshot/snapshotter.cc:53-150 | after a crash at any moment of any concurrent writes the newest file restores exactly the store that some call of the run began a snapshot of under its name, or holds what it held at the start; it is no older than any write that had returned or any snapshot found at the start; and under the name of every returned write is a store begun under it in this run |
| Snapshot.CrashThenStart | v2/src/snapshot/snapshotter.cc:127-150 | what a crash leaves is again a good starting point |
| Snapshot.NoReturnedSnapshotIsLost | v2/src/snapshot/snapshotter.cc:53-150 | over any number of crashes and restarts a snapshot whose write returned keeps its name, with a store begun under it in that life or a later one; the newest file is at least as new and restores a store begun under its name in some life, or holds what it held before the first |
| Snapshot.Restore | v2/src/snapshot/snapshotter.cc:127-150 | loads the newest snapshot and reports whether it opened and parsed; the store is left alone if there is none or it does not open |
| TempReuse.HarmfulUnlinkLoses | v2/src/snapshot/snapshotter.cc:60-111 | from every moment at which a clean-up unlinks another write's name there is a continuation after which a write has returned, its snapshot is the newest, and the file does not restore |
| TempReuse.HarmIsReachable | v2/src/snapshot/snapshotter.cc:93-109 | for every prefix a run from an empty disk reaches such a moment |
| LinearProbing.FindExactly | v2/src/store/map/linear_probing_hashmap.h:148-168 | the probe finds a key if and only if some slot holds it, and then the nearest one |
| LinearProbing.EveryRunIsValid | v2/src/store/map/linear_probing_hashmap.h:74-146 | every run keeps every key reachable from its home slot and the load within one insertion of 0.75, and without removals there are no tombstones |
| LinearProbing.InsertRefinesExactly | v2/src/store/map/linear_probing_hashmap.h:94-131 | insertion is map update if and only if the key is not held behind a tombstone on its path, unless the insertion resizes |
| LinearProbing.HiddenKeyComesBack | v2/src/store/map/linear_probing_hashmap.h:94-131 | otherwise, always: inserting and then removing the key leaves it there with its old value |
| LinearProbing.HiddenKeyArises | v2/src/store/map/linear_probing_hashmap.h:99-131 | a run that leads there |
| LinearProbing.RunsRefineExactly | v2/src/store/map/linear_probing_hashmap.h:74-168 | a run behaves as a map throughout if and only if every insertion is of that kind |
| LinearProbing.CarefulRunsRefine | v2/src/store/map/linear_probing_hashmap.h:74-168 | runs that insert only absent keys after their first removal behave as a map |
| LinearProbing.FindRefines | v2/src/store/map/linear_probing_hashmap.h:82-92 | look-up is map look-up |
| LinearProbing.RemoveRefines | v2/src/store/map/linear_probing_hashmap.h:99-104 | removal is map removal |
| LinearProbing.GrowRefines | v2/src/store/map/linear_probing_hashmap.h:133-146 | growing changes no binding |
| LinearProbing.GrownFacts | v2/src/store/map/linear_probing_hashmap.h:133-146 | growing doubles the table, drops all tombstones and never asks for growing again |
| LinearProbing.CapacityCountsInsertions | v2/src/store/map/linear_probing_hashmap.h:94-146 | over every run the size is the number of insertions, whatever was removed or overwritten, and the capacity the first doubling at which all but the last keep to the load |
| LinearProbing.VisitsEachPairOnce | v2/src/store/map/linear_probing_hashmap.h:106-113 | visiting meets each pair of the map once and nothing else |
| LinearProbing.LinearProbingHashmap.constructor | v2/src/store/map/linear_probing_hashmap.h:74-80 | an empty table of any capacity, valid if and only if there are slots |
| LinearProbing.LinearProbingHashmap.InternalFind | v2/src/store/map/linear_probing_hashmap.h:148-168 | the probing loop gives the reference position |
| LinearProbing.LinearProbingHashmap.LookUp | v2/src/store/map/linear_probing_hashmap.h:82-92 | the value at that position, which is the nearest slot that holds the key |
| LinearProbing.LinearProbingHashmap.Insert | v2/src/store/map/linear_probing_hashmap.h:94-97 | the table is the reference insertion, its size one more |
| LinearProbing.LinearProbingHashmap.InsertWithoutSize | v2/src/store/map/linear_probing_hashmap.h:116-131 | the entries are those of the reference insertion; the mutual recursion with growing ends |
| LinearProbing.LinearProbingHashmap.Resize | v2/src/store/map/linear_probing_hashmap.h:133-146 | the table is the reference growth |
| LinearProbing.LinearProbingHashmap.Remove | v2/src/store/map/linear_probing_hashmap.h:99-104 | the table is the reference removal |
| LinearProbing.LinearProbingHashmap.ForEach | v2/src/store/map/linear_probing_hashmap.h:106-113 | visits the pairs in slot order |
| Chains.InsertRefines | v2/src/store/map/linked_list_hashmap.h:111-116 | insertion is map update, the load stays bounded, and the capacity changes, to twice the number of keys and at least two, exactly when it was exceeded or zero |
| Chains.RemoveRefines | v2/src/store/map/linked_list_hashmap.h:118-135 | removal is map removal |
| Chains.LookUpRefines | v2/src/store/map/linked_list_hashmap.h:98-109 | look-up is map look-up |
| Chains.GrowRefines | v2/src/store/map/linked_list_hashmap.h:52-67 | growing changes no binding |
| Chains.VisitsEachPairOnce | v2/src/store/map/linked_list_hashmap.h:137-145 | visiting meets each pair of the map once and nothing else |
| Chains.EveryRunRefines | v2/src/store/map/linked_list_hashmap.h:91-145 | every run from any capacity, zero included, behaves as a map |
| ChainedMap.LinkedListHashmap.constructor | v2/src/store/map/linked_list_hashmap.h:91-96 | an empty map of the given capacity |
| ChainedMap.LinkedListHashmap.LookUp | v2/src/store/map/linked_list_hashmap.h:98-109 | walking the nodes gives the map's binding |
| ChainedMap.LinkedListHashmap.InsertWithoutResize | v2/src/store/map/linked_list_hashmap.h:30-50 | overwrites the node in place or hangs a new one behind the last, as the reference does |
| ChainedMap.LinkedListHashmap.Insert | v2/src/store/map/linked_list_hashmap.h:111-116 | the nodes stand for the updated map, and the load stays bounded |
| ChainedMap.LinkedListHashmap.Resize | v2/src/store/map/linked_list_hashmap.h:52-67 | new nodes for the same pairs in the reference's order |
| ChainedMap.LinkedListHashmap.Remove | v2/src/store/map/linked_list_hashmap.h:118-135 | unlinking first, middle or last node: the nodes stand for the map without the key |
| ChainedMap.LinkedListHashmap.ForEach | v2/src/store/map/linked_list_hashmap.h:137-145 | each pair of the map once and nothing else |
| HandOff.HandOffIsSerial | v1/src/server/RequestExecutor.cpp:51-86 | for any number of workers in any interleaving: at most one is at work, requests are dispatched in the order of the pushed bytes, none is left behind when the flag is clear, and on well-formed input the flag is set exactly while a worker is at work |
| HandOff.ChunksMayOvertake | v1/src/server/RequestExecutor.cpp:31-65 | for any two requests a run dispatches the later one first |
| HandOff.EnterKeepsOrderExactly | v1/src/server/RequestExecutor.cpp:58-65 | taking the lock keeps submission order if and only if the worker's chunk commutes with those still waiting ahead of it, in particular if none is |
| HandOff.SubmissionOrderExactly | v1/src/server/RequestExecutor.cpp:51-86 | a run keeps submission order throughout if and only if every worker takes the lock in turn in that sense |
| HandOff.OrderlyRunsDispatchInOrder | v1/src/server/RequestExecutor.cpp:51-86 | in such runs requests are dispatched in submission order, and all of them once the connection is idle and no chunk is waiting |

## Assumptions

- Atomic operations are sequentially consistent; acquire and release ordering is not modelled.
- The kernel is the environment. Bytes read, bytes taken by a write, accepted descriptors, clock
  readings and `mkstemp` names are parameters or arbitrary choices. An idle IO thread may be
  handed any ready event, and the main thread may return to polling between two accepts.
- `Refinement`, `Lifecycle`, `Progress`, `Settling`, `Answering` and `Replies` consider runs in which an accepted descriptor
  is not still routed; `FdReuse` shows that this is needed.
- `Snapshot` considers runs whose clean-ups unlink no name that another write owns; `TempReuse` shows
  that this is needed.
- After a crash each name is as it was at some moment since the last directory sync, and each file
  is whole if it was synced and arbitrary otherwise.
- String lengths fit in 64 bits. Where a reply has to print an expiry, it fits too.
- Hashes are an arbitrary function and the load factor is 0.75. Every operation on an open-addressed
  table of capacity zero divides by zero, so runs start with at least one slot.

## Code and documentation

- The comment in v1/src/respvalue/RespValueQueue.h has `PushString` parse; the code parses in
  `PopValue`, as the second server's header says. The model follows the code.
- A null bulk string as the option of EXPIRE is dereferenced by the handler, which has no defined
  result; the model treats it as an unknown option.

## Left out

- Refinement.EveryClientIsServed: says nothing of clients after a descriptor was reused while routed, because the invariant then fails (`FdReuse`).
- Settling.EveryRunSettles: a scheduler that only ever takes failing retries is not excluded; fairness is not modelled.
- Answering.EveryClientIsAnsweredUnlessDeadlock: gives one continuation in which no socket fails; that every fair schedule gets there is not modelled.
- Snapshot.CrashIsSafe: for runs whose clean-ups unlink no other write's name, because after one that does a loss is possible (`TempReuse`).
- Snapshot.NoReturnedSnapshotIsLost: for the same runs, and for the same reason.
- IoThread.DrainKeeps: for an inbox nobody pushes to; with pushes in between the same is said of the threads' steps in `Refinement`.
- MainThread.Server.ProcessCommands: replies are posted to rings that have room; waiting for room is in `Pipeline`.
- Store.Store.DoExpireAt: timestamps are unbounded integers, so overflow of a computed expiry is not modelled.
- Commands.ExpireLaw: the moment is an unbounded integer, so overflow of a computed expiry is not modelled.
- Sockets, epoll registration, fcntl, timerfd, fork, pidfd and process reaping; start-up and shutdown.
- Weak memory.
- The v1 store, its striped map, publish/subscribe and connection creation; v1 copies of the RESP code.
- The client, option parsing, loggers, benchmarks and `StandardMap`.
- `Show`, the printer for the command-line client: easy members.
