# Faucet Networking, modelled and proved

Faucet Networking gives a scripting language TCP and UDP sockets, byte buffers and text codecs.
Boost.Asio does the input and output; what the library adds is state: queues, flags, cursors and
tables that client calls and completion handlers change under one mutex. This project models that
state and proves what it is for.

* **TCP** (`SendBuffer.dfy`, `AddressOrder.dfy`, `TcpProtocol.dfy`, `TcpRuns.dfy`, `TcpLaws.dfy`,
  `TcpSocket.dfy`). `TcpSockets` holds the socket and its three state objects as classes. Every method is
  shown to be one step of the machine in `TcpProtocol`; `TcpRuns` and `TcpLaws` prove what holds over every
  run of that machine. The bytes of an outstanding send are not copied: the classes read them through the
  pointers that Asio was given. Every method but the completion of the send itself promises that an
  outstanding send keeps its pointers (`LoanKept`) and that they still read the same bytes from chunks that
  are not deleted.
* **UDP** (`DatagramQueue.dfy`, `UdpProtocol.dfy`, `UdpRuns.dfy`, `UdpAccounts.dfy`, `UdpLaws.dfy`,
  `UdpSocket.dfy`, `UdpReceive.dfy`). The same construction for the sending side, where payload buffers are
  heap objects shared by the socket, its queue and Asio; the receiving side shares no field with it and is a
  class of its own.
* **Runs of objects** (`Sessions.dfy`, and `Run` in the socket modules). A socket object that is driven by
  any list of events that can happen goes through the corresponding run of its machine, so that the
  results about runs hold of the objects.
* **Codecs** (`Base64.dfy`, `Base64Laws.dfy`, `Base64Codec.dfy`, `HexCodec.dfy`). The table-driven loops,
  with their bit buffer and 2048-byte output block, are proved against a block-wise (or digit-wise) reading
  of the text, and the laws of the codecs, down to single bits and characters, about that reading.
* **Handles and buffers** (`HandleMap.dfy`, `Buffer.dfy`, `BufferTransfer.dfy`).

An operation given to Asio may complete at any later step, with success or with an error. Each event
carries what the environment chose: the bytes that came, the error message, the lookup result. `Enabled`
says what can happen when (a handler runs only while its operation is outstanding, no more is reported
than was asked for, a successful `async_read` has filled its space). `History` values record what a socket
does not remember; invariants and proofs use them. The main results about what is accepted, sent, read,
delivered, looked up, tried and discarded over a run are stated with functions that read it off the events
and the operations in progress alone: `Observed`, `Flushed`, `Attempts`, `Found`, `FirstReported`,
`SubmittedBy` and `Deeds`. That the histories record the same is proved.

Some things the code does that its readers may not expect are proved as they are:

* A padding character after the first character of a Base64 block makes `validate` return -3, which as a
  `bool` is true. The rest of the text is then not looked at, and decoding skips invalid characters.
  `RefusedIff` says exactly which texts are refused; `InvalidCharacterAccepted` is the text `A=!`.
* A failed connection attempt is not always followed by one to the next endpoint. `FailureOnlyAfterLast`
  says exactly when it ends the connection: the list is exhausted, or closing the Asio socket fails.
* A lookup that succeeds with no endpoints is followed by one attempt, to the default endpoint
  (`LookupIsFollowed`); so the attempted endpoints all come from the lookup result exactly if that is not
  empty, or nothing was attempted (`AttemptsFollowCandidates`).
* The handler of an asynchronous read ignores the abort flag. A socket that was closed without an error
  stays without one exactly until a read reports one (`LateErrorExactly`); it is safe from that exactly if no
  read is outstanding when the client disconnects (`DisconnectsForGood`). It stays closed (`ClosedIsFinal`).
* The division in `SendBuffer::pop` is done in `int`; it is right exactly below 2^31 (`DivAsIntExact`), and
  from there on `pop` deletes nothing and leaves a buffer that no longer describes its content (`Pop`).

## Model

| member | source | states |
|---|---|---|
| SendBuffers.FlatDrop | faucet/tcp/SendBuffer.hpp:99-107 | Dropping n whole chunks drops n * 65536 stored bytes, whatever the chunks hold. |
| SendBuffers.CoverIsLive | faucet/tcp/SendBuffer.hpp:34-56 | Every segment handed to the network is non-empty, inside its chunk and in a chunk of the buffer. |
| SendBuffers.CoverGathers | faucet/tcp/SendBuffer.hpp:34-56 | The segments, read one after the other, are exactly the covered stretch of the stored bytes. |
| SendBuffers.CoverStable | faucet/tcp/SendBuffer.hpp:76-89 | Chunks appended later neither move nor change the segments handed out before. |
| SendBuffers.DivAsIntExact | faucet/tcp/SendBuffer.hpp:99-101 | The `int` division in `pop` yields the quotient and remainder of the `size_t` sum if and only if the sum is below 2^31. |
| SendBuffers.SendBuffer.CommittedAsConstBufferSequence | faucet/tcp/SendBuffer.hpp:34-56 | The loop over the chunks computes the cover of the committed bytes, for every layout of head offset and free tail. |
| SendBuffers.SendBuffer.SegmentsHoldPrefix | faucet/tcp/SendBuffer.hpp:34-56 | That cover consists of non-empty pieces of chunks that are not deleted and reads back exactly the committed prefix of the queue. |
| SendBuffers.SendBuffer.TotalSize | faucet/tcp/SendBuffer.hpp:58-60 | The unsigned subtraction never underflows and gives the length of the queue. |
| SendBuffers.SendBuffer.Commit | faucet/tcp/SendBuffer.hpp:69-71 | Everything in the queue becomes committed. |
| SendBuffers.SendBuffer.Push | faucet/tcp/SendBuffer.hpp:76-89 | The bytes are appended across as many chunks as it takes; existing chunks stay in place and the committed count, the head and the deleted chunks do not change. |
| SendBuffers.SendBuffer.Pop | faucet/tcp/SendBuffer.hpp:94-109 | With too few committed bytes it fails and changes nothing. Otherwise the bytes leave the queue, exactly the chunks dropped from the front join the deleted ones, and the fields describe the rest if and only if head offset and size add up to less than 2^31. |
| SendBuffers.SendBuffer.Clear | faucet/tcp/SendBuffer.hpp:111-119 | The queue is empty and usable again, every chunk deleted once. |
| AddressOrder.OrderedIsPartition | faucet/V4FirstIterator.hpp:17-40 | The order of attempts loses, adds and repeats no endpoint, and every IPv4 endpoint comes before every IPv6 one. |
| AddressOrder.OfProtocolConcat | faucet/V4FirstIterator.hpp:26-40 | Inside one protocol the order of the lookup result is kept. |
| AddressOrder.OrderedKeepsOrder | faucet/V4FirstIterator.hpp:17-40 | Each position of the lookup result is taken exactly once, IPv4 before IPv6, and inside one protocol earlier positions come first. |
| AddressOrder.Drain | faucet/V4FirstIterator.hpp:17-44 | Calling `next` while `hasNext` yields the whole lookup result in exactly that order. |
| AddressOrder.V4FirstIterator.constructor | faucet/V4FirstIterator.hpp:17-24 | Both cursors start so that the whole order remains. |
| AddressOrder.V4FirstIterator.Next | faucet/V4FirstIterator.hpp:26-40 | Takes the first of the remaining endpoints; past the end it returns the default endpoint. |
| AddressOrder.V4FirstIterator.HasNext | faucet/V4FirstIterator.hpp:42-44 | True if and only if endpoints remain. |
| TcpRuns.StepKeepsInv | faucet/tcp/connectionStates/ConnectionState.hpp:12-27 | Every client call and every completion keeps the invariants of the outgoing stream, the incoming stream, the phases and the connection attempts. |
| TcpRuns.ObservedIsRecorded | faucet/tcp/TcpSocket.cpp:32-94 | What an observer sees at both ends of the socket, event by event, is what the histories record. |
| TcpRuns.FlushedIsRecorded | faucet/tcp/TcpSocket.cpp:77-81 | The committed amount is what had been accepted at the last `send()` of the run. |
| TcpRuns.OutgoingStream | faucet/tcp/connectionStates/TcpConnected.cpp:35-63 | Over every run the network gets a prefix of the accepted writes and never more than `send()` committed; Connected with no send outstanding it has got all of that; `pop` never throws. |
| TcpRuns.InFlightUntouched | faucet/tcp/connectionStates/TcpConnected.cpp:35-63 | Until its completion no step replaces or changes an outstanding send, whose bytes are committed and continue what the network already has. |
| TcpRuns.TwoCompletionsDrain | faucet/tcp/connectionStates/TcpConnected.cpp:54-59 | A `send()` during an outstanding send is not lost: two full completions later everything committed has gone out. |
| TcpRuns.CompletionsDrain | faucet/tcp/connectionStates/TcpConnected.cpp:47-63 | Any run of successful, possibly partial completions puts on the wire exactly the next bytes they report, and after one no send is outstanding if and only if everything committed is there. |
| TcpRuns.IncomingStream | faucet/tcp/connectionStates/TcpConnected.cpp:93-142 | Over every run the delivered bytes are a prefix of the bytes read from the peer; Connected with no read outstanding the rest is exactly `partialReceiveBuffer`; so no placeholder zero is delivered, even when a read fails midway. |
| TcpRuns.ReceiveDeliversNext | faucet/tcp/connectionStates/TcpConnected.cpp:104-128 | `receive(n)` returns true exactly when n bytes are at hand or arrive at once, then delivering the next n bytes of the stream, and false with nothing delivered. |
| TcpRuns.RunKeepsRead | faucet/tcp/connectionStates/TcpConnected.cpp:150-163 | Until its completion an outstanding read keeps its space: no step resizes the partial receive buffer or delivers anything. |
| TcpRuns.RunKeepsPartial | faucet/tcp/connectionStates/TcpConnected.cpp:104-142 | With no read outstanding the bytes at hand stay as they are until the client asks for some, whatever else happens. |
| TcpRuns.PendingReceive | faucet/tcp/connectionStates/TcpConnected.cpp:104-171 | A `receive(n)` that had to wait has reserved exactly n bytes; once its read has succeeded, and after any further events that are no receive and leave the connection up, `receive(m)` with m <= n returns true at once with the next m bytes of the stream. |
| TcpRuns.LifeCycle | faucet/tcp/TcpSocket.cpp:161-176 | Over every run phases only advance from Connecting over Connected to Closed, a recorded error never changes, one resolve or connect operation is outstanding while Connecting and none while Connected, and no attempt is made afterwards. |
| TcpRuns.ClosedIsFinal | faucet/tcp/connectionStates/TcpClosed.cpp:11-33 | Closed is absorbing: late completions accept and deliver nothing, and only what was in flight can still reach the network. |
| TcpRuns.AttemptsAreRecorded | faucet/tcp/connectionStates/TcpConnecting.cpp:58-68 | The endpoints that connect operations are started for, told from the operations, are the recorded attempts. |
| TcpRuns.FoundIsRecorded | faucet/tcp/connectionStates/TcpConnecting.cpp:36-50 | The lookup result, told from the events, is the recorded one. |
| TcpRuns.AttemptsFollowCandidates | faucet/tcp/connectionStates/TcpConnecting.cpp:36-91 | Over every run the endpoints of the started connect operations are a prefix of the ordered lookup result; while Connecting the last of them is being tried and the others are left; without a lookup there are none; they all come from the lookup result if and only if that is not empty or nothing was attempted. |
| TcpRuns.LookupIsFollowed | faucet/tcp/connectionStates/TcpConnecting.cpp:50-68 | A lookup that succeeds while Connecting is followed by an attempt to the first endpoint in order, and to the default endpoint if there is none, unless the Asio socket cannot be closed. |
| TcpRuns.FailureOnlyAfterLast | faucet/tcp/connectionStates/TcpConnecting.cpp:70-91 | A failed attempt closes the socket if and only if the list is exhausted or the Asio socket cannot be closed, reporting the matching error; otherwise the next endpoint is tried; a success makes no further attempt. |
| TcpRuns.LateErrorExactly | faucet/tcp/connectionStates/TcpConnected.cpp:165-171 | In every run from Closed without an error, the socket is without one in the end if and only if no read has reported an error. |
| TcpRuns.CleanForGood | faucet/tcp/connectionStates/TcpConnected.cpp:165-171 | A socket closed without an error gets none in any run if and only if no read is outstanding. |
| TcpRuns.DisconnectsForGood | faucet/tcp/TcpSocket.cpp:101-104 | `disconnectAbortive` on a connection leaves no error, and none comes in any run if and only if no read is outstanding at that moment. |
| TcpRuns.LateReadErrorIsRecorded | faucet/tcp/connectionStates/TcpConnected.cpp:165-171 | With a read outstanding at `disconnectAbortive`, its late error, whatever it says, is recorded. |
| TcpLaws.ErrorIsFirstFailure | faucet/tcp/TcpSocket.cpp:166-170 | Over every run the recorded error is the first failure reported by an event (lookup, closing the Asio socket, last attempt, entering Connected, write beyond the limit, receive, peek, send, late read), and there is none exactly if none was reported. |
| TcpLaws.PhaseExactly | faucet/tcp/TcpSocket.cpp:161-176 | Over every run the phase is told from the events: disconnects and reported failures close, a successful connect while Connecting connects, nothing else changes it. |
| TcpLaws.Beginnings | faucet/tcp/TcpSocket.cpp:126-152 | The phase and the error with which each kind of socket begins. |
| TcpLaws.ReceiveAvailableDeliversAll | faucet/tcp/connectionStates/TcpConnected.cpp:130-142 | `receive()` that reads without an error delivers all bytes at hand and all that it read and keeps nothing; failing, waiting for a read or not connected it delivers nothing. |
| TcpLaws.ReceiveAvailableCatchesUp | faucet/tcp/connectionStates/TcpConnected.cpp:130-142 | After any run that ends with such a `receive()` everything read from the peer has been delivered. |
| TcpLaws.ReceiveStartsRead | faucet/tcp/connectionStates/TcpConnected.cpp:104-128 | A `receive(n)` that reads too little without an error leaves a read outstanding for exactly the missing bytes; one during an outstanding read changes nothing but the emptied receive buffer. |
| TcpLaws.ReceivedStays | faucet/tcp/TcpSocket.cpp:83-94 | Nothing but the receive calls changes what was received. |
| TcpLaws.EofExactly | faucet/tcp/connectionStates/TcpConnected.cpp:65-88 | `isEof` is true exactly if the socket is Closed, or Connected with no bytes at hand, no read outstanding and a peek that meets the end or an error; without an error it changes nothing. |
| TcpLaws.LimitInForce | faucet/tcp/TcpSocket.cpp:73-75 | The limit is what the last `setSendbufferLimit` of the run said. |
| TcpLaws.WriteTakesAllOrNothing | faucet/tcp/TcpSocket.cpp:32-42 | After every run a write is taken whole if the socket is not Closed and the limit in force allows it; else nothing of it is taken and the socket is Closed. |
| TcpSockets.TcpClosed.EnterError | faucet/tcp/connectionStates/TcpClosed.cpp:11-18 | The first error message stays. |
| TcpSockets.TcpConnecting.HandleResolve | faucet/tcp/connectionStates/TcpConnecting.cpp:36-56 | An abort is honoured, a failed lookup fails, else the first endpoint is attempted and the rest is kept. |
| TcpSockets.TcpConnecting.StartConnectionAttempt | faucet/tcp/connectionStates/TcpConnecting.cpp:58-68 | Fails with the close error before an endpoint is taken, else attempts the next endpoint and hands the rest to the handler. |
| TcpSockets.TcpConnecting.HandleConnect | faucet/tcp/connectionStates/TcpConnecting.cpp:70-91 | Ignored after an abort; else connected, failed, or on to the next endpoint. |
| TcpSockets.TcpConnected.StartAsyncSend | faucet/tcp/connectionStates/TcpConnected.cpp:35-45 | If no send is outstanding, pointers to exactly the committed bytes are handed out. |
| TcpSockets.TcpConnected.QueueGrew | faucet/tcp/SendBuffer.hpp:69-89 | Pushing and committing leave the bytes behind the pointers of an outstanding send as they were. |
| TcpSockets.TcpConnected.LoanReadsTheSame | faucet/tcp/connectionStates/TcpConnected.cpp:38-43 | An outstanding send that has kept its segments reads the same bytes through them, from chunks that are not deleted. |
| TcpSockets.TcpConnected.HandleSend | faucet/tcp/connectionStates/TcpConnected.cpp:47-63 | The sent bytes leave the queue and the next send starts with what is committed by now; an abort or an error leaves the queue alone. |
| TcpSockets.TcpConnected.NonblockReceive | faucet/tcp/connectionStates/TcpConnected.cpp:93-102 | Appends what was read; an error midway leaves zeros behind the bytes that came. |
| TcpSockets.TcpConnected.Receive | faucet/tcp/connectionStates/TcpConnected.cpp:104-128 | The three outcomes of `receive(n)`: refused, delivered, or a read started for exactly what is missing. |
| TcpSockets.TcpConnected.ReceiveAvailable | faucet/tcp/connectionStates/TcpConnected.cpp:130-142 | Delivers everything at hand, or throws and delivers nothing. |
| TcpSockets.TcpConnected.StartAsyncReceive | faucet/tcp/connectionStates/TcpConnected.cpp:150-163 | Reserves zeroed space behind the bytes at hand for the outstanding read. |
| TcpSockets.TcpConnected.NetworkFills | faucet/tcp/connectionStates/TcpConnected.cpp:154-157 | Asio writes into the reserved space only, in order. |
| TcpSockets.TcpSocket.constructor | faucet/tcp/TcpSocket.cpp:154-159 | All parts are new and empty. |
| TcpSockets.TcpSocket.ConnectTo | faucet/tcp/TcpSocket.cpp:126-134 | A new socket, all its parts new, is Connecting with one lookup outstanding. |
| TcpSockets.TcpSocket.Error | faucet/tcp/TcpSocket.cpp:136-143 | An error socket is Closed with the message. |
| TcpSockets.TcpSocket.FromConnectedSocket | faucet/tcp/TcpSocket.cpp:145-152 | An accepted connection is Connected, or Closed with the error of configuring it. |
| TcpSockets.TcpSocket.EnterErrorState | faucet/tcp/TcpSocket.cpp:166-170 | The left state is aborted and the first error kept. |
| TcpSockets.TcpSocket.EnterClosedState | faucet/tcp/TcpSocket.cpp:172-176 | The left state is aborted and no error recorded. |
| TcpSockets.TcpSocket.EnterConnectedState | faucet/tcp/connectionStates/TcpConnected.cpp:15-29 | Connected with a first send of what is committed, or an error. |
| TcpSockets.TcpSocket.Write | faucet/tcp/TcpSocket.cpp:32-42 | Refused when closed, an error beyond the limit, else appended, where an outstanding send keeps its segments and only new chunks join the socket. |
| TcpSockets.TcpSocket.Send | faucet/tcp/TcpSocket.cpp:77-81 | Commits everything and starts a send if the socket is Connected and none is outstanding; chunks are not touched and an outstanding send keeps its segments. |
| TcpSockets.TcpSocket.Receive | faucet/tcp/TcpSocket.cpp:83-87 | Empties the receive buffer in every state, then one step of the machine. |
| TcpSockets.TcpSocket.ReceiveAvailable | faucet/tcp/TcpSocket.cpp:89-94 | Empties the receive buffer, then delivers everything at hand and returns its size. |
| TcpSockets.TcpSocket.IsEof | faucet/tcp/connectionStates/TcpConnected.cpp:65-88 | False while bytes or a read are pending, an error on a failed peek, true in Closed. |
| TcpSockets.TcpSocket.DisconnectAbortive | faucet/tcp/TcpSocket.cpp:101-104 | Closed without an error, whatever is outstanding. |
| TcpSockets.TcpSocket.HandleResolve | faucet/tcp/connectionStates/TcpConnecting.cpp:36-56 | The completion of the lookup is one step of the machine. |
| TcpSockets.TcpSocket.HandleConnect | faucet/tcp/connectionStates/TcpConnecting.cpp:70-91 | The completion of an attempt is one step of the machine. |
| TcpSockets.TcpSocket.HandleSend | faucet/tcp/connectionStates/TcpConnected.cpp:47-63 | The completion of a send is one step of the machine, with the bytes taken from the front of what was in flight. |
| TcpSockets.TcpSocket.HandleReceive | faucet/tcp/connectionStates/TcpConnected.cpp:165-171 | The completion of a read is one step of the machine and does not ask for an abort. |
| TcpSockets.Run | faucet/tcp/connectionStates/ConnectionState.hpp:12-27 | A socket object driven by any list of events that can happen goes through that run of the machine. |
| Sessions.TcpSession | faucet/tcp/TcpSocket.cpp:126-134 | Of an object connected by `ConnectTo` and driven by any events: the network gets a prefix of the accepted writes and all that was committed once no send is outstanding, the client gets a prefix of the stream with the rest in `partialReceiveBuffer`, and error and phase are those that the events report. |
| DatagramQueues.KeepsLongestSuffix | faucet/udp/DatagramQueue.hpp:43-46 | What eviction leaves fits, and nothing longer would have fitted. |
| DatagramQueues.PushedIsLongest | faucet/udp/DatagramQueue.hpp:32-51 | An item that cannot fit changes nothing; else what `push` keeps of the queue is its longest suffix that fits together with the item, and the flag is true if and only if something is missing. |
| DatagramQueues.DatagramQueue.Push | faucet/udp/DatagramQueue.hpp:32-51 | The queue and the flag after `push`: refusal of an oversized item, else eviction from the front and the item at the end; the size stays the sum of the items and within the limit. |
| DatagramQueues.DatagramQueue.Pop | faucet/udp/DatagramQueue.hpp:57-62 | The oldest item goes; an empty queue stays empty. |
| DatagramQueues.DatagramQueue.Clear | faucet/udp/DatagramQueue.hpp:68-71 | The queue is empty. |
| DatagramQueues.DatagramQueue.SetMemSizeLimit | faucet/udp/DatagramQueue.hpp:77-82 | A lower limit evicts the oldest items, as few as possible. |
| UdpRuns.StepKeepsInv | faucet/udp/UdpSocket.cpp:164-283 | Every call and completion keeps: a non-empty queue implies an operation in progress, one datagram is active at most, the queue is what waits in order of submission, the wire has what was sent once each, and the memory is within the limit. |
| UdpRuns.RunSubmits | faucet/udp/UdpSocket.cpp:164-195 | Every submitted payload is what was written since the last submission or close, with a broadcast's shared payload once for each address. |
| UdpAccounts.RunRecords | faucet/udp/UdpSocket.cpp:235-283 | The lookups, tries and deliveries told from the events and the operation in progress are those the fates record. |
| UdpAccounts.DiscardsHaveReasons | faucet/udp/DatagramQueue.hpp:32-51 | Over every run a datagram is discarded only if at some moment after its submission it and those submitted after it exceeded the limit in force, or the socket was closed. |
| UdpAccounts.EveryDatagramAccountedFor | faucet/udp/UdpSocket.cpp:235-283 | Over every run, told from the events and operations: each submitted datagram waits untouched, is in progress, was delivered by the last of the endpoints it was sent to in order, was sent in vain to every endpoint of its lookup that there is a socket for, or was discarded untouched for one of those reasons; deliveries carry submitted payloads, in order, each datagram at most once; a non-empty queue implies an operation in progress. |
| UdpRuns.PumpDiscardsNothing | faucet/udp/UdpSocket.cpp:235-283 | However many datagrams the pump works through in one step, it discards none. |
| UdpRuns.DiscardIsReported | faucet/udp/UdpSocket.cpp:164-175 | `send` returns true if and only if, after the whole call, some datagram has been discarded by it. |
| UdpRuns.BroadcastDiscardIsReported | faucet/udp/UdpSocket.cpp:177-195 | `broadcast` returns true if and only if, after the whole call, some datagram has been discarded by it. |
| UdpRuns.FatesAreFinal | faucet/udp/UdpSocket.cpp:235-283 | Over every run submitted payloads and transmissions never change and nothing sent, given up or discarded comes back. |
| UdpLaws.MemoryOf | faucet/udp/DatagramQueue.hpp:9-19 | What a queue takes up is the overhead of each item and the bytes of all payloads. |
| UdpLaws.MemoryIsBounded | faucet/udp/DatagramQueue.hpp:32-82 | After every run that is at most the limit last set. |
| UdpLaws.SendDiscardsExactly | faucet/udp/UdpSocket.cpp:164-175 | `send` discards its datagram exactly if that can never fit, and then no other; else it discards exactly those waiting ones that exceed the limit together with the ones behind them and the new one. |
| UdpLaws.EnqueueDiscardsExactly | faucet/udp/DatagramQueue.hpp:32-51 | The same for each single datagram of a broadcast. |
| UdpLaws.SetLimitDiscardsExactly | faucet/udp/UdpSocket.cpp:152-154 | A new limit discards exactly those waiting datagrams that exceed it together with the ones behind them. |
| UdpLaws.CloseDiscardsAll | faucet/udp/UdpSocket.cpp:219-225 | `close` empties the queue, discarding every waiting datagram, and forgets what was written; the operation in progress goes on. |
| UdpLaws.ClosedForGood | faucet/udp/UdpSocket.cpp:219-225 | In every run, of the datagrams submitted before a `close` only the one in progress at that moment is looked up, sent or delivered after it. |
| UdpSockets.UdpSocket.Write | faucet/udp/UdpSocket.cpp:123-125 | Appends to the buffer that nobody else refers to, so that no submitted payload changes. |
| UdpSockets.UdpSocket.AsyncSend | faucet/udp/UdpSocket.cpp:235-248 | Takes the next datagram and looks up its host, synchronously for a literal address; the mutual recursion ends with the queue. |
| UdpSockets.UdpSocket.HandleResolve | faucet/udp/UdpSocket.cpp:197-201 | Sending starts in the error branch, also after a failed lookup. |
| UdpSockets.UdpSocket.HandleSend | faucet/udp/UdpSocket.cpp:258-283 | On to the next endpoint with a socket, or to the next datagram. |
| UdpSockets.UdpSocket.NextOpen | faucet/udp/UdpSocket.cpp:264-267 | The loop stops at the first endpoint that has a socket, or at the last one. |
| UdpSockets.UdpSocket.Send | faucet/udp/UdpSocket.cpp:164-175 | Queues the current buffer, pumps, and replaces the buffer by a new one that nobody else refers to. |
| UdpSockets.UdpSocket.Broadcast | faucet/udp/UdpSocket.cpp:177-195 | Queues the current buffer once for each address, reporting any discard. |
| UdpSockets.UdpSocket.SetSendbufferLimit | faucet/udp/UdpSocket.cpp:152-154 | A lower limit discards the oldest waiting datagrams. |
| UdpSockets.UdpSocket.Close | faucet/udp/UdpSocket.cpp:219-225 | Discards what waits and what was written, but not the datagram in progress or its payload. |
| UdpSockets.UdpSocket.HandleSendDone | faucet/udp/UdpSocket.cpp:258-283 | A completed transmission is one step of the machine. |
| UdpSockets.UdpSocket.HandleResolveDone | faucet/udp/UdpSocket.cpp:197-201 | A completed lookup is one step of the machine. |
| UdpSockets.UdpSocket.GetSendbufferSize | faucet/udp/UdpSocket.cpp:143-146 | The payloads that wait with their overhead, and the bytes written since. |
| UdpSockets.Run | faucet/udp/UdpSocket.cpp:164-283 | A socket object driven by any list of events that can happen goes through that run of the machine. |
| Sessions.UdpSession | faucet/udp/UdpSocket.cpp:164-283 | Of a new object driven by any events: every datagram is accounted for as above, a non-empty queue implies an operation in progress, and the memory keeps to the limit last set. |
| UdpReceivers.RunRecords | faucet/udp/UdpSocket.cpp:203-217 | The datagrams that came in and those that `receive()` returned, told from the calls, are the recorded ones. |
| UdpReceivers.ReceivedInOrder | faucet/udp/UdpSocket.cpp:203-217 | Over every run the `receive()` calls return datagrams in the order of their arrival, each at most once; without a close one that is neither returned nor waiting was lost because it and later ones together exceed the limit. |
| UdpReceivers.ClosedForGood | faucet/udp/UdpSocket.cpp:219-225 | What arrived before a `close` is never returned after it. |
| UdpReceivers.UdpReceiver.HandleReceive | faucet/udp/UdpSocket.cpp:298-320 | A received datagram is copied out of Asio's block and queued, evicting the oldest as far as needed; an error queues nothing. |
| UdpReceivers.UdpReceiver.Receive | faucet/udp/UdpSocket.cpp:203-217 | The oldest datagram with its sender, in a buffer that no queue item refers to; else an empty buffer and false. |
| UdpReceivers.UdpReceiver.Close | faucet/udp/UdpSocket.cpp:219-225 | Drops what is queued and empties the client's buffer. |
| UdpReceivers.Run | faucet/udp/UdpSocket.cpp:285-320 | A receiving object driven by any events, with one block for all that comes in, goes through that run. |
| Base64.EncodeLength | faucet/Base64Codec.hpp:135-147 | The encoding has (n + 2) / 3 * 4 characters. |
| Base64.OverflowTestExact | faucet/Base64Codec.hpp:137-139 | The test for overflow fires if and only if the text is too long for a `size_t`. |
| Base64.DecodeLength | faucet/Base64Codec.hpp:86-133 | The number of decoded bytes is told by the number of characters in each block alone. |
| Base64.ScanCharacterized | faucet/Base64Codec.hpp:92-129 | The scan stops at the first invalid character or misplaced padding, whichever comes first, else at the terminator. |
| Base64.RefusedIff | faucet/Base64Codec.hpp:92-129 | A text is refused if and only if it has an invalid character with no misplaced padding before it. |
| Base64.InvalidCharacterAccepted | faucet/Base64Codec.hpp:110-111 | The text `A=!` is accepted and decodes to nothing. |
| Base64.DecodeEncode | faucet/Base64Codec.hpp:38-84 | Decoding an encoding gives the bytes back, for every byte sequence, and the encoding ends on a block boundary. |
| Base64.DecodeConcat | faucet/Base64Codec.hpp:105-120 | An encoding followed by any text decodes to its payload followed by what the text stands for, and is refused if and only if the text is; so concatenated encodings decode to the concatenated payloads. |
| Base64.LineBreaksIgnored | faucet/Base64Codec.hpp:193-196 | Line breaks anywhere change neither what a text stands for nor whether it is refused. |
| Base64.UrlSafeDecodesAlike | faucet/Base64Codec.hpp:23-25 | `-` and `_` decode as `+` and `/`, and are accepted alike. |
| Base64.EncodingIsAccepted | faucet/Base64Codec.hpp:86-133 | An encoding is never refused and its scan ends with no unfinished block, where the predicted size is exact. |
| Base64Laws.AlphabetAt | faucet/Base64Codec.hpp:218 | Six bits are written as the character at that position of the alphabet, spelled out, and it reads back as them. |
| Base64Laws.ValuesExactly | faucet/Base64Codec.hpp:13-36 | The characters with a value are exactly those of the alphabet, `-` and `_`; `=` is padding, CR and LF are white space. |
| Base64Laws.EncodedCharacters | faucet/Base64Codec.hpp:38-84 | The k-th character of an encoding is the character at the k-th six bits of the input, zero bits following its end, as long as they begin inside it, and `=` from there on. |
| Base64Laws.CharactersDenoteBytes | faucet/Base64Codec.hpp:177-192 | One to four characters with a value stand for one byte less, the bits of the values in order without the spare ones; after four the text goes on by itself. |
| Base64Laws.PaddingEndsBlock | faucet/Base64Codec.hpp:105-120 | For all texts s and t, `s=t` decodes to what s stands for followed by what t stands for. |
| Base64Laws.OthersAreSkipped | faucet/Base64Codec.hpp:193-205 | A character without a value that is no padding can be left out anywhere without changing what a text stands for. |
| Base64Codecs.QuadCounter | faucet/Base64Codec.hpp:97-99 | The branchless counter counts complete blocks. |
| Base64Codecs.WordSextets | faucet/Base64Codec.hpp:46-54 | Shifts and masks of the 24-bit word are the sextets of three bytes. |
| Base64Codecs.BitStep | faucet/Base64Codec.hpp:177-192 | One character through the 16-bit buffer: the bits held are those of the unfinished block, and the byte that is ready is the block's next byte. |
| Base64Codecs.Base64Codec.constructor | faucet/Base64Codec.hpp:13-36 | The table agrees with the alphabet of RFC 4648, its URL-safe variant, and the special characters. |
| Base64Codecs.Base64Codec.EncodeTo | faucet/Base64Codec.hpp:38-84 | The loop and the padded tail write the encoding. |
| Base64Codecs.Base64Codec.ReadBase64 | faucet/Base64Codec.hpp:135-146 | The encoding, or a length error exactly when it is too long. |
| Base64Codecs.Base64Codec.ReadBase64FromBuffer | faucet/Base64Codec.hpp:148-157 | Encodes and consumes what remains of `len` bytes; a length error consumes nothing. |
| Base64Codecs.Base64Codec.Validate | faucet/Base64Codec.hpp:86-133 | False exactly for refused texts; when the scan gets to the terminator, the predicted size falls short of the decoded size by max(0, p - 1) for the p characters of an unfinished block. |
| Base64Codecs.Base64Codec.DecodeTo | faucet/Base64Codec.hpp:169-207 | Appends what the text stands for, whatever the flushes of the output block. |
| Base64Codecs.Base64Codec.WriteBase64 | faucet/Base64Codec.hpp:159-210 | Appends what the text stands for, or refuses it and changes nothing. |
| Base64Codecs.Base64Codec.ReadThenWrite | faucet/Base64Codec.hpp:135-210 | Calling the codec to read bytes and to write the text appends exactly the bytes, unless the text is too long. |
| HexCodecs.DecodeEncode | faucet/HexCodec.hpp:37-75 | Decoding an encoding gives the bytes back. |
| HexCodecs.EncodeDecode | faucet/HexCodec.hpp:37-75 | Encoding what an accepted text stands for gives the text in lower case. |
| HexCodecs.DecodeDenotes | faucet/HexCodec.hpp:65-75 | An accepted text, read as a number in base 16 from the left, is the number that its bytes denote in base 256, the most significant first. |
| HexCodecs.EncodeDenotes | faucet/HexCodec.hpp:37-48 | So is the text of any bytes, and its digits are those of `0123456789abcdef`. |
| HexCodecs.HexValueIsPosition | faucet/HexCodec.hpp:162-177 | The hex characters are exactly those digits in either case, and the value of one is its position. |
| HexCodecs.HexCodec.constructor | faucet/HexCodec.hpp:25-35 | The table built by a wrapping 16-bit index agrees with the evaluation of both digits, for all 65536 pairs. |
| HexCodecs.HexCodec.EncodeTo | faucet/HexCodec.hpp:37-48 | Two digits for each byte, the high one first. |
| HexCodecs.HexCodec.Validate | faucet/HexCodec.hpp:50-63 | True if and only if the text has even length and only hex digits; then the size is exact. |
| HexCodecs.HexCodec.DecodeTo | faucet/HexCodec.hpp:65-75 | Looking up pairs of characters decodes digit by digit. |
| HexCodecs.HexCodec.ReadHex | faucet/HexCodec.hpp:77-87 | The encoding, or a length error exactly when it is too long. |
| HexCodecs.HexCodec.ReadHexFromBuffer | faucet/HexCodec.hpp:89-98 | Encodes and consumes what remains of `len` bytes; a length error consumes nothing. |
| HexCodecs.HexCodec.WriteHex | faucet/HexCodec.hpp:100-128 | Appends what the text stands for, or refuses it and changes nothing; the flushes of the output block do not show. |
| HexCodecs.HexCodec.ReadThenWrite | faucet/HexCodec.hpp:77-128 | Calling the codec to read bytes and to write the text appends exactly the bytes, unless the text is too long. |
| HandleMaps.FirstFreeUnique | faucet/HandleMap.hpp:28-34 | Only one position is the first free one. |
| HandleMaps.HandleMap.Allocate | faucet/HandleMap.hpp:28-34 | Whenever a handle is free the search ends, at the first free non-zero handle in cyclic order from the search position; all other associations stay. |
| HandleMaps.HandleMap.Find | faucet/HandleMap.hpp:44-52 | The associated element if it is of the requested type, else none. |
| HandleMaps.HandleMap.Release | faucet/HandleMap.hpp:73-75 | Only this association goes; the search position stays. |
| HandleMaps.HandleMap.ReleaseAll | faucet/HandleMap.hpp:93-95 | All associations go; the search position stays. |
| HandleMaps.HandlesCountUp | faucet/HandleMap.hpp:28-34 | In every run, whatever is released in between, the first 2^32 - 1 allocations give out 1, 2, 3 and so on. |
| ByteBuffers.Buffer.SetReadpos | faucet/Buffer.hpp:45-51 | The read position, clipped to the size. |
| ByteBuffers.Buffer.Write | faucet/Buffer.hpp:60-62 | The bytes are appended. |
| ByteBuffers.Buffer.Read | faucet/Buffer.hpp:71-76 | The next bytes as far as there are any; the rest of the target stays. |
| ByteBuffers.Buffer.ReadString | faucet/Buffer.hpp:83-88 | The next bytes as far as there are any. |
| BufferTransfers.WriteBufferPart | faucet/socketApi.cpp:315-336 | Appends the next min(amount, remaining) bytes of the source as it was on entry and moves past them, also when source and destination are the same buffer. |
| BufferTransfers.WriteBufferPartToTcp | faucet/socketApi.cpp:315-336 | With a TCP socket as destination the copy is a sequence of writes of at most 4096 bytes each, and the source moves on as before. |
| BufferTransfers.BlocksLikeOneWrite | faucet/socketApi.cpp:325-332 | As far as the limit allows, those writes are like one write of everything. |
| BufferTransfers.BlocksUpToTheLimit | faucet/socketApi.cpp:325-332 | Else the socket is closed and exactly the blocks before the first one that does not fit are accepted. |
| BufferTransfers.WriteBuffer | faucet/socketApi.cpp:339-355 | Appends the whole source and restores its read position; a buffer appended to itself doubles. |
| BufferTransfers.BytesBeforeDelimiter | faucet/socketApi.cpp:596-609 | The distance to the first occurrence, or -1 if and only if there is none (for an empty delimiter: if and only if nothing remains). |
| BufferTransfers.ReadsUpToFirstOccurrence | faucet/socketApi.cpp:596-628 | For a non-empty delimiter: success if and only if it occurs; then the bytes before the first occurrence are returned and just they and the delimiter consumed; failure changes nothing. |
| BufferTransfers.ReadDelimitedString | faucet/socketApi.cpp:617-628 | The method does that to a buffer, and returns nothing for a missing one. |
| BufferTransfers.ZeroTerminatedReadBack | faucet/socketApi.cpp:635-639 | Any list of zero-free payloads, each written with a trailing 0, is read back in order by repeated zero-delimited reads, and nothing behind them is consumed. |

## Left out

- Boost.Asio, the resolver, the kernel, threads and the mutex: completions are events that may happen at any later step; one call or handler is one step because all of them hold the common mutex.
- Binding and port selection, accepting connections, broadcast address lookup (the addresses are a parameter), MAC addresses, IP lookup, file functions, project files.
- Floating point: amounts, handles and results that the scripting interface passes as doubles are integers here; `writeFloat` and the bit functions are not part of this model.
- `readValue` with too few bytes, whose result is unspecified.
- `TCP_NODELAY` and the remote and local address of a TCP connection; querying and setting them is one possible error when Connected is entered.
- Lifetime: a socket is not destroyed while an operation is outstanding, because its handler holds a reference to it. Closing the Asio socket on entering Closed shows only in the completions that follow.
- The state objects of a TCP socket call back into it; here they return what they would have called, and the socket does it in the same step.
- The handlers' copies of a `V4FirstIterator` are one object that is handed on, since the copied-from one is not used again.
- TcpSockets.TcpConnected.HandleSend: assumes that the head offset and the bytes of one completion add up to less than 2^31; `Pop` says that the buffer is right after it exactly then.
- TcpSockets.TcpSocket.HandleSend: assumes the same; `TcpSockets.Run` and `Sessions.TcpSession` ask it of each completion (less than 2^31 - 65536 bytes).
- Sums of sizes of objects that are in memory together are assumed not to wrap around in a `size_t`, except where the code tests for it (the length of encoded text).
- `sizeof(QueueItem)` is a parameter (`overhead`), and the module `UdpReceivers` assumes that a datagram of 65536 bytes with it fits into 2 MiB. `QueueItem.ticket` does not exist in the C++; it numbers items for the statements.
- The send and receive halves of `UdpSocket` are two classes; its `close` is the sequence of both `Close` methods.
- Base64 text is restricted to characters below 128, and table entry 255, which the C++ constructor leaves unset, is never read.
- BufferTransfers.WriteBufferPart: is for buffers. A socket as source is its receive buffer, a UDP socket as destination the buffer it writes to; a TCP socket as destination is `WriteBufferPartToTcp`, which leaves out that a TCP socket copies its own received bytes to itself.
- BufferTransfers.WriteBuffer: is for buffers; from a socket it is one write of what was received, to a TCP socket the copy of `WriteBufferPartToTcp` between two changes of the read position.
- `prepareWrite`, which only reserves memory; the return buffer for strings, which cuts a result at a zero byte.
- SendBuffers.SendBuffer.Clear: is verified but is no step of the TCP machine, since the socket never calls it.
