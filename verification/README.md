# dns-forwarder, modelled and proved in Dafny

dns-forwarder relays DNS over UDP and TCP. A client's query takes a 16-bit index from a
queue of free ones, is stored with a timer, and goes to every upstream server under that
index instead of its own identifier. A response that carries an index in use and repeats
the stored questions is sent back under the client's identifier; a query whose deadline
passes first is answered by the relay itself with RCODE 2. This project models that
relay and proves that it works, from octets to whole runs.

`dafny verify dfyconfig.toml` checks everything.

## How the modules fit together

- `WireFormat` writes down the message syntax of sections 4.1.1 to 4.1.4 of RFC 1035 on
  its own (abstract syntax, encoder, decoder, and proofs that they are inverse). The
  program's codec is measured against it.
- `DomainName`, `DnsPacket` and `PacketCodec` are the program's codec: loops over streams,
  each proved against a function, and the exact conditions under which parsing and
  serialising give back what was there. `Bytes` and `Arithmetic` serve them. `Layout` says
  of all of it, with numbers written out, which octet holds what.
- `Lifecycle` is the life of a query as a state machine over atomic handler steps; it
  knows no timer heap. `LifecycleRuns` proves what holds over all its runs. The number of
  indices is a parameter (65536 in the program), and so is the comparison in the sweep:
  `<=` for UDP, `<` for TCP. `Outcomes` says what single steps do to whom.
- `TimerHeap`, `TaskPool` and `Relay` are the mutable structures and one loop iteration
  of each handler. `Relay.Valid` ties free queue, slot array and heap with lazy deletion
  to one another and to a run of `Lifecycle`: every method appends a step to that run.
- `NameComparison` says when comparing flattened strings is comparing names on the wire.
- `UdpSocket`, `UdpHandlers`, `TcpSocket`, `TcpHandlers` are the sockets and the handlers.
  Their invariants equate what was put on each socket with what the recorded queries and
  replies call for, so everything proved about runs is about octets sent. `Framing` and
  `Messages` supply the functions; `UdpRuns` and `TcpRuns` say what the peers get.
- `Allocator` is the task pool again, for any number of threads interleaved at its two
  locks. `ThreadPool` is the worker pool, interleaved in the same way. `Sums` serves both.

Terms: a name is *canonical* when no label holds a dot and none starts with an octet of
0xC0 or more, and *clean* when no dot-delimited segment of a label starts with such an
octet. It is *ambiguous* when its string is the flattening of another name as well.
Reading a member's contract, `Flatten` is what the name parser leaves in `name`,
`Rebuild` what the name serialiser writes for it, `Serialized` the same for packets.

## Model

| member | source | states |
|---|---|---|
| LifecycleRuns.ExactlyOneFate | src/handler.cpp:20-110 | In every run each accepted query is pending, or answered from upstream once, or by its deadline once; accepted = pending + answered + timed out |
| LifecycleRuns.CountMeans | src/handler.cpp:80-109 | What is counted there: replies to that query of that kind |
| LifecycleRuns.FatesAreFinal | src/handler.cpp:80-109 | A pending query stays pending under its index or gets a faithful reply; an answered one is never answered again |
| Lifecycle.StepKeeps | src/handler.cpp:20-110 | Every step keeps: indices partitioned between queue and slots, slots hold the queries given their index, one reply per query, none lost, replies go to the asker under its own identifier and questions, nothing due at the last sweep is pending |
| Lifecycle.RunKeeps | src/handler.cpp:20-110 | The same for runs of any length |
| Outcomes.ArrivalOutcome | src/handler.cpp:31-33 | A query is stored with its sender, length and time under the first free index and is pending; no client is sent anything and no other query is touched |
| Outcomes.ResponseOutcome | src/handler.cpp:80-90 | A response under a pending query's index with its questions, whatever else it holds, is relayed to the client that asked, changed only in its identifier; the query is no longer pending and no other is touched |
| Outcomes.ResponseIgnored | src/handler.cpp:80-84 | Any other response changes nothing |
| Outcomes.TimesOutWhen | include/task.h:13-13 | A pending query can time out from 1000 ms after its acceptance on (UDP), or after that instant (TCP), and not before |
| Outcomes.TimeOutOutcome | src/handler.cpp:312-341 | Then the client that asked gets one timeout reply, and no other query is touched |
| Outcomes.TimeoutReplyFields | src/handler.cpp:314-323 | Every field of that reply: identifier and questions of the query, QR, RA, RCODE 2, no records, the rest as it was left unset |
| Outcomes.SweptMeans | src/handler.cpp:302-341 | What the timeout handlers promise, query by query, with the 1000 ms written out: gone if and only if due, with a timeout reply if and only if gone |
| LifecycleRuns.SweepIsExact | src/handler.cpp:302-341 | A sweep at a clock reading removes exactly the queries due at it, with the UDP or the TCP comparison; earlier replies stay, and what is added is a timeout reply to each removed query and nothing else |
| LifecycleRuns.TimeOutsArePrecise | src/handler.cpp:352-361 | However many timeouts at one reading, no query that is not due is touched |
| LifecycleRuns.PendingAreRecent | src/handler.cpp:302-312 | Pending queries are at most those not due at the last finished sweep |
| LifecycleRuns.RecentMeans | include/task.h:13-13 | Which these are: accepted later than sweep time minus 1000 ms (UDP), or not earlier (TCP) |
| LifecycleRuns.FreeIndexExists | src/task.cpp:13-18 | `front()` has something to return if and only if fewer queries are pending than there are indices, and does whenever fewer than that are recent |
| LifecycleRuns.FreeIndicesExist | src/task.cpp:13-18 | The same for several queries handled together |
| Relays.Relay.RoomFor | src/handler.cpp:32-32 | For a relay in any state its handlers can reach, the capacity bound yields a free index for each of the next queries |
| LifecycleRuns.NeverUnderflows | src/task.cpp:13-22 | A run of any length in which each arrival keeps to the capacity never takes the front of an empty queue |
| LifecycleRuns.FillsUp | src/task.cpp:16-17 | The bound is tight: as many arrivals as there are free indices, and the next one is undefined |
| LifecycleRuns.FirstFreedFirstUsed | src/task.cpp:15-41 | Over any run, indices handed out followed by the final queue are the initial queue followed by what was freed |
| LifecycleRuns.HandedOutInOrder | src/task.cpp:15-17 | The k-th query of a run gets the k-th index of the queue at its start |
| LifecycleRuns.ReuseDistance | src/task.cpp:15-41 | An index freed while m slots are occupied goes to exactly the (size - m)-th later query |
| Relays.Relay.AcceptQuery | src/handler.cpp:31-34 | Task, timer and heap entry made for a query are the life cycle's arrival step; the index was the front of the queue |
| Relays.Relay.Store | src/handler.cpp:31-33 | Filling a slot and pushing its timer keeps pool, heap and table in agreement |
| Relays.Relay.AcceptResponse | src/handler.cpp:80-88 | The response is accepted if and only if the life cycle relays it (Outcomes.ResponseOutcome says which and how); then there is one reply more, to the stored client, else nothing changes |
| Relays.Relay.Matching | src/handler.cpp:80-84 | The two tests find the slot's task exactly when the life cycle relays the response |
| Relays.Relay.Answer | src/handler.cpp:87-88 | Freeing the index and clearing the timer's validity is one response step with one reply |
| Relays.Relay.TimerDue | src/handler.cpp:303-303 | The loop goes on only for a due earliest timer, and when it stops nothing pending is due |
| Relays.Relay.NothingDue | src/handler.cpp:303-303 | A heap without due timers means a table without due queries, because every pending query's timer is in the heap |
| Relays.Relay.SweepOne | src/handler.cpp:305-323 | A turn of the sweep takes one timer off the heap; it is a timeout of its own query or changes nothing |
| Relays.Relay.Owner | src/handler.cpp:306-310 | The three tests keep a timer exactly when it is valid, and then the slot at its index holds the task that owns it |
| Relays.Relay.Retire | src/task.cpp:33-42 | `DelTask` and the destructor empty the slot, queue the index and invalidate the timer, and keep the agreement |
| Relays.Relay.Expire | src/handler.cpp:312-323 | A due query is removed and answered once, with the timeout reply made from its own message |
| Relays.Relay.AgreeAfterPut | src/task.cpp:20-23 | A task put into an empty slot keeps the agreement of slots, table and heap |
| Relays.Relay.AgreeAfterDel | include/task.h:48-51 | A slot emptied and its timer invalidated keeps the agreement, with the timer still in the heap |
| Relays.Relay.AgreeWithoutStale | src/handler.cpp:305-310 | An invalid timer, left by an earlier user of its index, can leave the heap without any query losing its own |
| TaskPools.Task.Destroy | include/task.h:48-51 | The destructor clears the timer's `valid` |
| TaskPools.TaskPool.constructor | src/task.cpp:5-9 | All indices free, in ascending order |
| TaskPools.TaskPool.PutTask | src/task.cpp:11-25 | Takes the front index, never overwrites a task, makes a timer exactly 1000 ms ahead; free queue and slots stay complementary |
| TaskPools.TaskPool.GetTask | src/task.cpp:27-31 | The slot's task or none |
| TaskPools.TaskPool.DelTask | src/task.cpp:33-42 | Empties an occupied slot and queues its index last; does nothing to an empty one |
| TaskPools.TaskPool.IsFull | src/task.cpp:44-48 | True exactly when every slot is occupied |
| TaskPools.TaskPool.HasTask | src/task.cpp:50-54 | Whether the slot is occupied |
| TimerHeaps.Timer.constructor | include/timer.h:14-17 | Deadline is the present plus the duration; valid |
| TimerHeaps.TimerHeap.Push | src/timer.cpp:10-15 | Adds the timer to the multiset |
| TimerHeaps.TimerHeap.Top | src/timer.cpp:27-31 | A timer none expires before |
| TimerHeaps.TimerHeap.Pop | src/timer.cpp:33-39 | Removes one such timer, once |
| TimerHeaps.TimerHeap.Empty | src/timer.cpp:62-66 | Whether any timer is left |
| TimerHeaps.TimerHeap.Size | src/timer.cpp:68-72 | How many timers are left |
| UdpHandlers.UdpRelay.HandleQuery | src/handler.cpp:26-58 | One datagram: one arrival in the run, and the query forwarded on both upstream sockets to every remote |
| UdpHandlers.UdpRelay.Forward | src/handler.cpp:34-58 | Both upstream sockets get the message under the index, once for each remote, and nothing else |
| UdpRuns.QueryIsDatagrams | src/handler.cpp:38-58 | Over all of a relay's past, datagram k * n + i of an upstream socket with n remotes is query k for remote i, and there are no others |
| UdpRuns.RemotesGetQuery | src/handler.cpp:34-58 | Every remote is handed each canonical query as its index and the client's octets from offset 2 |
| UdpRuns.ReplyIsDatagram | src/handler.cpp:92-109 | Every reply is a datagram with the whole packet on the socket of the asker's family, addressed to the asker |
| UdpRuns.RepliesCounted | src/handler.cpp:92-109 | And no other datagram is handed to the server sockets |
| UdpRuns.PlacesInOrder | src/handler.cpp:92-109 | Within a family, in the order of the replies |
| UdpRuns.ClientGetsResponse | src/handler.cpp:76-109 | The client that asked is handed each canonical response as its own identifier and the upstream octets from offset 2 |
| UdpHandlers.UdpRelay.HandleResponse | src/handler.cpp:76-109 | One datagram: one response in the run, answered if and only if it matches; what each server socket was handed stays exactly the replies to its address family |
| UdpHandlers.UdpRelay.Answer | src/handler.cpp:92-109 | The new reply, and only it, goes out on the socket of the client's address family |
| UdpHandlers.UdpRelay.ServerRecv | src/handler.cpp:20-59 | Any number of datagrams are that many arrivals, in order, if there are free indices or the capacity bound holds; the new queries are those messages, each with its sender |
| Messages.StoredSinceMeans | src/handler.cpp:26-32 | That is: query k of the new ones has the sender of message k, what the parser makes of it, and its length |
| UdpHandlers.UdpRelay.ClientRecv | src/handler.cpp:70-110 | Responses are handled in order, and each but perhaps the last one looked at matched a query when its turn came and was relayed; either there was no other, or the last one matches nothing and has changed nothing |
| UdpHandlers.UdpRelay.Timeout | src/handler.cpp:302-341 | After the handler exactly the queries with expire <= now are gone, each with one timeout reply on its client's socket; the record has grown by those timeouts and the end of the sweep; the loop ends |
| UdpHandlers.UdpRelay.Flush | src/server.cpp:111-116 | The datagrams the kernel takes leave the front of that socket's queue; everything handed to every socket stays as it should be |
| TcpHandlers.TcpRelay.HandleQuery | src/handler.cpp:153-187 | One frame: one arrival in the run, and every upstream stream grows by the prefixed forwarded query |
| TcpHandlers.TcpRelay.PostAll | src/handler.cpp:164-187 | The two upstream loops send to each connection once, and to no client |
| TcpHandlers.TcpRelay.ServerRecv | src/handler.cpp:139-188 | Arrivals and new queries are exactly the frames that the connection's buffer and the new chunk make up, in order, from this client; the connection has received the chunk and keeps what is no whole frame, and no other connection's receiving side changes |
| TcpHandlers.FramesAddedMeans | src/handler.cpp:153-158 | That is: query k of the new ones is from this connection, with the packet and the length of frame k |
| TcpHandlers.NextBody | src/handler.cpp:146-148 | From the start of the k-th frame, the loop's arithmetic yields its body and the start of the next |
| Framing.Walk | src/handler.cpp:143-148 | Whole frames lie end to end, so that walking by their lengths visits every body and stops at the end of the data |
| TcpHandlers.TcpRelay.HandleResponse | src/handler.cpp:213-259 | One frame: one response in the run, answered if and only if it matches; each connected client's stream stays exactly the replies owed to it |
| TcpHandlers.TcpRelay.Answer | src/handler.cpp:228-259 | The reply goes to the stored client's connection if that is still open, and to no other |
| TcpHandlers.TcpRelay.ClientRecv | src/handler.cpp:199-260 | The chunk is received, and the same holds for its frames |
| TcpHandlers.TcpRelay.Timeout | src/handler.cpp:351-409 | After the handler exactly the queries with expire < now are gone, each with one timeout reply for its client; the record has grown by those timeouts and the end of the sweep; nothing is received; the loop ends |
| TcpHandlers.TcpRelay.Open | src/handler.cpp:113-129 | A new connection, owed nothing, joins the sockets; every other client keeps its own connection and no stream is disturbed |
| TcpHandlers.TcpRelay.Close | src/handler.cpp:263-276 | A connection leaves without disturbing any other stream |
| TcpHandlers.TcpRelay.Flush | src/server.cpp:183-188 | The octets the kernel takes leave the front of that socket's buffer; every stream stays as it should be and write interest right |
| TcpRuns.PrefixIff | src/handler.cpp:171-171 | A two-octet prefix frames its message if and only if it is the message's length |
| TcpRuns.StreamReadsIff | src/handler.cpp:146-171 | A stream of prefixed messages reads as those messages if and only if every prefix is right: no wrong one is made good by what follows |
| TcpRuns.ClientReadsItsReplies | src/handler.cpp:235-256 | A client's stream reads as exactly the replies to it, in order, if and only if each was announced with its true length |
| TcpRuns.ReplyIsRead | src/handler.cpp:228-259 | Among these is every reply to that client, whole, in the order of sending |
| TcpRuns.NothingElseIsRead | src/handler.cpp:228-259 | And nothing else |
| TcpRuns.QueryIsRead | src/handler.cpp:160-187 | The k-th query an upstream server should read is the k-th forwarded |
| TcpRuns.ReplyStreamGrows | src/handler.cpp:237-238 | A reply adds two octets for the announced length, high first, and the packet to the stream of the asker and no other |
| TcpRuns.QueryStreamGrows | src/handler.cpp:171-171 | A query adds the same to the upstream streams |
| TcpRuns.ClientReadsResponse | src/handler.cpp:206-259 | On clean traffic the client that asked reads each canonical response as its own identifier and the upstream octets from offset 2 |
| TcpRuns.UpstreamReadsItsQueries | src/handler.cpp:164-187 | And an upstream stream as the forwarded queries |
| TcpRuns.RelayedLengthIff | src/handler.cpp:146-171 | Relayed under any identifier, a message that filled its frame keeps its length if and only if its names are clean |
| TcpRuns.StreamsReadIff | src/handler.cpp:144-187 | In every run on messages that fill their frames: a client reads exactly its replies if and only if all of them from upstream came in clean, and the upstream servers read exactly the queries if and only if these did |
| TcpRuns.RelayStreamsReadIff | src/handler.cpp:139-261 | The same for a relay with whatever connections and past, about the octets put on those connections |
| TcpRuns.FrameArrives | src/handler.cpp:146-155 | A frame of one message and no more is what these results ask for, and counts as clean if and only if that message is |
| TcpRuns.ArrivalsBring | src/handler.cpp:144-160 | So do all arrivals that the query handler records for such frames |
| TcpRuns.ResponsesBring | src/handler.cpp:204-225 | And all responses that the response handler records |
| TcpRuns.StreamsAreTheirMessages | src/handler.cpp:144-187 | In every run on clean messages, with the incoming lengths reused as prefixes, every client stream reads as its replies and every upstream stream as the forwarded queries, nothing left over |
| TcpRuns.AnnouncedIff | src/handler.cpp:206-238 | In such a run a query or upstream reply is announced with its true length if and only if it came in clean, and a timeout reply always is |
| TcpRuns.PartOfStream | src/tcpsocket.cpp:47-52 | What the kernel has taken so far reads as the first messages of the stream |
| TcpSockets.TcpSocket.Receive | src/tcpsocket.cpp:56-74 | What it returns is the whole frames of buffer and chunk, what it keeps holds no whole frame, and nothing is lost or repeated |
| TcpSockets.Reassembled | src/tcpsocket.cpp:61-72 | Frames and remainder of all that was received are those there were, followed by those of buffer and chunk |
| TcpSockets.WholeLength | src/tcpsocket.cpp:65-67 | The scan stops exactly behind the last whole frame, whatever the octet past the end of the buffer may be |
| TcpSockets.ChunksDoNotMatter | src/tcpsocket.cpp:56-74 | However a stream is cut up, the calls return the frames of the whole stream and keep what one call would have kept |
| Framing.FramingContinues | src/tcpsocket.cpp:66-72 | Framing a longer stream goes on where framing the shorter one stopped |
| Framing.FramedIsRead | src/handler.cpp:144-148 | Bodies put on a stream are read back, in order, whatever follows |
| Framing.FrameOctets | src/tcpsocket.cpp:66-67 | Two octets for a length, high first, and that many more make one frame, and framing goes on behind it |
| Framing.NoFrame | src/tcpsocket.cpp:66-66 | Where fewer octets are there than that, no frame is and all is kept |
| Framing.PayloadsFit | src/handler.cpp:146-147 | The bodies read determine the whole frames they came from |
| TcpSockets.TcpSocket.SendData | src/tcpsocket.cpp:39-54 | An empty buffer: what the kernel takes is sent and the rest is buffered; else all is buffered; taken and buffered octets are together all ever passed in; true exactly when the buffer has just become non-empty |
| TcpSockets.TcpSocket.SendBuffered | src/tcpsocket.cpp:31-37 | What the kernel takes moves from the front of the buffer to what was taken; true exactly while something remains |
| TcpSockets.TcpSocket.Post | src/handler.cpp:171-173 | The same, and write interest is registered exactly when the buffer is non-empty |
| TcpSockets.TcpSocket.Flush | src/server.cpp:183-188 | The same for a flush |
| UdpSockets.UdpSocket.SendTo | src/udpsocket.cpp:43-53 | A datagram the kernel refuses is queued last; datagrams handed over are those taken and those queued, as a multiset |
| UdpSockets.UdpSocket.Flush | src/udpsocket.cpp:29-41 | What the kernel takes leaves the front of the queue; true exactly while a datagram is queued |
| Messages.RelayedOctetsIff | src/handler.cpp:26-36 | Whatever octets hold a complete message: relayed, they change in the first two only if and only if the message is canonical and nothing follows it, and keep their number if and only if it is clean and nothing follows it |
| Messages.ForwardedBytesIff | src/handler.cpp:26-36 | The forwarded query is the index and the client's octets from offset 2, if and only if its names are canonical; its length is kept if and only if they are clean |
| Messages.RepliedBytesIff | src/handler.cpp:76-109 | The reply goes to the recorded client and is its identifier and the upstream octets from offset 2, under the same exact conditions |
| Messages.TimedOutBytes | src/handler.cpp:314-341 | A timeout reply goes to the client whose deadline has passed and reads as DnsPackets.TimeoutReplyBytes says |
| DnsPackets.TimeoutReplyBytes | src/handler.cpp:362-386 | Whatever the unset header fields hold: the client's identifier, QR, RA, RCODE 2, no records, no longer than the query; its questions are the client's octets if and only if they are canonical |
| DnsPackets.RelayedBytesIff | src/dnspacket.cpp:150-174 | Relaying changes the first two octets and no others if and only if all names are canonical |
| DnsPackets.MessageRoundTripIff | src/dnspacket.cpp:150-174 | serialize(parse(b)) = b if and only if all names are canonical |
| DnsPackets.PacketRoundTripIff | src/dnspacket.cpp:150-174 | parse(serialize(p)) = p with nothing left if and only if the counts match the lists, data lengths are exact and names are canonical strings |
| DnsPackets.MessageLengthIff | src/handler.cpp:146-171 | The re-serialised message is never longer than the incoming one, and as long if and only if all names are clean |
| DnsPackets.HeaderRoundTrips | src/dnspacket.cpp:76-112 | Flag word and fields determine each other, both ways |
| DnsPackets.CanonicalMessageIsClean | src/dnspacket.cpp:57-74 | Canonical messages are clean |
| Layout.ParsedHeader | src/dnspacket.cpp:76-93 | Identifier and counts, from the octets at their places |
| Layout.ParsedFlags | src/dnspacket.cpp:81-88 | Each flag field, from the bits of octets 2 and 3 |
| Layout.ParsedEntries | src/dnspacket.cpp:114-165 | Questions and records of all sections, in order, each field in its place |
| Layout.SerializedHeader | src/dnspacket.cpp:95-112 | The twelve octets written for any header, and what comes behind them |
| Layout.SerializedEntries | src/dnspacket.cpp:121-148 | The octets written for any question and any record |
| Layout.NumberOctets | src/dnspacket.cpp:19-29 | Sixteen and thirty-two bits are written most significant octet first |
| Layout.NumbersRead | src/dnspacket.cpp:5-17 | And read so |
| Layout.StringOctets | src/dnspacket.cpp:31-55 | The string of a name is each label and the octet 46, then the two octets of a pointer |
| Layout.StringWritten | src/dnspacket.cpp:57-74 | Up to the first octet 46 a string is written as a length and a label, and so on behind it; a zero ends it; a string without its 46 cannot be written |
| Layout.PointerWritten | src/dnspacket.cpp:63-67 | A string that starts with 192 or more is written as two octets and ends there |
| Layout.LabelsSay | src/dnspacket.cpp:57-74 | Canonical and clean, in terms of the octets of the labels |
| Layout.HostNamesSurvive | src/dnspacket.cpp:31-74 | Names of letters, digits and hyphens are written as they were read |
| PacketCodec.ParseHeader | src/dnspacket.cpp:76-93 | Reads the fixed part and leaves the stream behind it |
| PacketCodec.ParseQuestion | src/dnspacket.cpp:114-119 | Reads the question the reference decoder finds, its name flattened |
| PacketCodec.ParseRecord | src/dnspacket.cpp:128-138 | Reads the record the reference decoder finds, its name flattened |
| PacketCodec.ParsePacket | src/dnspacket.cpp:150-165 | Reads the message the reference decoder finds, three sections in one list |
| PacketCodec.SerializeHeader | src/dnspacket.cpp:95-112 | Appends the reference encoding of the packed header |
| PacketCodec.SerializeQuestion | src/dnspacket.cpp:121-126 | Appends the rebuilt name, type and class |
| PacketCodec.SerializeRecord | src/dnspacket.cpp:140-148 | Appends the rebuilt name, the fixed fields and the announced amount of data |
| PacketCodec.SerializePacket | src/dnspacket.cpp:167-174 | Appends header, all questions, all records, in order |
| DomainNames.ParseName | src/dnspacket.cpp:31-55 | Reads exactly one wire name and leaves its flattening |
| DomainNames.SerializeName | src/dnspacket.cpp:57-74 | Appends the rebuilding of the string, for any string in which the scan finds its dots |
| DomainNames.FlattenIsScannable | src/dnspacket.cpp:68-68 | On every parsed name the scan finds its dots |
| DomainNames.NameRoundTripIff | src/dnspacket.cpp:31-74 | serialize(parse(w)) = w if and only if the name is canonical |
| DomainNames.NonCanonicalDiverges | src/dnspacket.cpp:31-74 | Otherwise the two differ at a position both have, so nothing written afterwards can hide it |
| NameComparison.EqualStringsEqualNames | include/dnspacket.h:54-57 | Between canonical names equal strings mean equal wire names, and conversely |
| NameComparison.CanonicalCollisionIff | include/dnspacket.h:54-57 | A name compares equal to a different, canonical one if and only if it is not canonical but its string is a canonical string |
| NameComparison.CollisionIff | include/dnspacket.h:54-57 | A name compares equal to a different one of any kind if and only if it is ambiguous: its string also reads as a pointer for a label, as a label for a pointer, or with a label ending at another dot |
| NameComparison.DottedLabelCollides | include/dnspacket.h:54-57 | An instance of both: one label `a.b`, and the two labels `a` and `b` |
| NameComparison.MatchIsExactIff | src/handler.cpp:83-84 | Whatever response comes in, the test for the same questions lets through only the octets that were asked for, if and only if no name asked for is ambiguous |
| NameComparison.CanonicalQuestionsMatch | src/handler.cpp:83-84 | Between canonical messages the test compares octets |
| Messages.RepliedQuestionsMatch | src/handler.cpp:80-90 | The question section of a relayed response is, octet by octet, the client's own, if both messages are canonical or no name asked for is ambiguous |
| DomainNames.NameLengthIff | src/dnspacket.cpp:57-74 | The rebuilt name is never longer, and as long if and only if the name is clean |
| DomainNames.FlattenIsCanonicalString | src/dnspacket.cpp:31-55 | Canonical names flatten to canonical strings and are recovered from them |
| DomainNames.FlattenUnflatten | src/dnspacket.cpp:57-74 | Every canonical string is the flattening of a canonical name |
| Bytes.PutU16 | src/dnspacket.cpp:19-23 | Two octets that read back as the number |
| Bytes.PutGetU16 | src/dnspacket.cpp:5-10 | Any two octets are the encoding of what they read as |
| Bytes.PutU32 | src/dnspacket.cpp:25-29 | Four octets that read back as the number |
| Bytes.PutGetU32 | src/dnspacket.cpp:12-17 | Any four octets are the encoding of what they read as |
| Allocators.EveryInterleaving | src/task.cpp:11-54 | In every interleaving: indices partitioned between queue, slots and threads on the way; none duplicated or lost; locks exclusive; queue first in first out |
| Allocators.StepKeepsPartition | src/task.cpp:11-42 | Each step of each thread keeps every index where its history of take, install, remove and give says it is |
| Allocators.StepKeepsQueueLock | src/task.cpp:15-17 | The queue's critical sections exclude each other as a shared lock should |
| Allocators.StepKeepsPoolLock | src/task.cpp:20-22 | The same for the pool's, including the part of `DelTask` that waits for the queue |
| Allocators.InstallOverwritesNothing | src/task.cpp:20-22 | The assignment in `PutTask` always finds its slot empty and its index in nobody else's hands |
| Allocators.StepEffects | src/task.cpp:11-42 | What each critical section does to queue and table, wherever the other threads are |
| Allocators.PutAlone | src/task.cpp:11-25 | `PutTask` with nobody in its way takes the front index and stores the task under it |
| Allocators.DelAlone | src/task.cpp:33-42 | `DelTask` with nobody in its way empties an occupied slot and queues the index last, and leaves an empty slot alone |
| Allocators.LookAlone | src/task.cpp:27-54 | `GetTask`, `HasTask` and `IsFull` change nothing |
| Allocators.SectionsExclude | src/task.cpp:11-54 | Who is in a critical section keeps out whom the locks should |
| Allocators.SectionsAdmit | src/task.cpp:11-54 | And nobody else; readers share |
| Allocators.ReaderSeesOneTable | src/task.cpp:27-31 | While a thread reads a slot the table does not change |
| Allocators.FreshIsSound | src/task.cpp:5-9 | At first all indices are queued in ascending order and no slot is occupied |
| Allocators.RemovedOnce | src/task.cpp:33-42 | Of all tasks ever stored under an index, each was removed once, in order, but for the one in the slot |
| Allocators.QuietMeansExact | src/task.cpp:11-42 | When no call is in progress an index is queued if and only if its slot is empty |
| Allocators.FrontExists | src/task.cpp:15-17 | If `PutTask` is called only while some index is unclaimed, no interleaving meets an empty queue |
| Allocators.NoDeadlock | src/task.cpp:33-42 | While a call is in progress some thread can move, or stands before an empty queue |
| Allocators.CallsReturn | src/task.cpp:11-54 | Without new calls the steps left are bounded, and a state in which no thread can move has no call in progress |
| ThreadPools.EveryInterleaving | src/threadpool.cpp:14-24 | In every interleaving: no lost wake-up, FIFO start, every started task run once by one worker, exit only when stopped and empty |
| ThreadPools.StepKeepsWakeups | include/threadpool.h:23-29 | While a worker sleeps, queued tasks number at most pending notifications plus workers about to look |
| ThreadPools.QueuedTaskHasWorker | src/threadpool.cpp:18-23 | Queued tasks and no pending notification: some worker is awake, and if any sleeps there is one about to look for each task |
| ThreadPools.NobodyIsHeldUp | src/threadpool.cpp:14-35 | Anyone may try to enqueue, notifications can always be sent, and every worker has its next step |
| ThreadPools.StepKeepsRuns | src/threadpool.cpp:22-28 | A started task is done once or runs on exactly one worker, and no other task is or does |
| ThreadPools.DrainingEnds | include/threadpool.h:24-27 | After the stop no task is accepted and the steps left are bounded |
| ThreadPools.DrainingGoesOn | src/threadpool.cpp:40-49 | Until all workers have exited there is a step to take, without relying on spurious wake-ups |
| ThreadPools.AllTasksRun | src/threadpool.cpp:46-48 | When all are joined every accepted task has run exactly once and they were started in order |
| ThreadPools.ThreadPool.Enqueue | include/threadpool.h:23-28 | Refused exactly when stopped, and then nothing changes; else the task is queued last |
| ThreadPools.ThreadPool.NotifyOne | include/threadpool.h:29-29 | Wakes the sleeper picked, if any sleeps, and nobody else |
| ThreadPools.ThreadPool.Check | src/threadpool.cpp:18-23 | Sleeps, exits or takes the front task, in exactly the cases named; other workers stay as they are |
| ThreadPools.ThreadPool.Finish | src/threadpool.cpp:25-34 | The task is done, whether it returned or threw |
| ThreadPools.ThreadPool.Stop | src/threadpool.cpp:42-45 | The pool is stopped, its tasks kept |
| ThreadPools.ThreadPool.NotifyAll | src/threadpool.cpp:46-46 | Wakes every sleeper and touches nobody else |
| ThreadPools.ThreadPool.Joined | src/threadpool.cpp:47-48 | Comes back when all workers have exited, and then every accepted task has run once |

## Left out

- LifecycleRuns.ExactlyOneFate: is about atomic handler steps. Between the lock regions of `HasTask`, `GetTask` and `DelTask` another worker can see the same task; only the pool by itself is modelled at that grain.
- LifecycleRuns.NeverUnderflows: takes sweeps as steps of the environment and does not claim that one always comes. Arming the process timer (`Tick`, and the end of `Push`) is not modelled; both heaps use the one timer, and ticking an empty heap disarms it.
- UdpHandlers.UdpRelay.ClientRecv: makes no claim that every datagram is handled; the handler returns at the first that matches nothing. It asks that response indices lie below the number of indices, which every 16-bit index does at 65536.
- TcpHandlers.TcpRelay.ClientRecv: the same for frames; those behind an unmatched one, already taken out of the buffer, are lost.
- DnsPackets.TimeoutReplyBytes: leaves the question count and the other header bits the program does not set arbitrary, so it does not say that the reply parses back.
- PacketCodec.ParsePacket: covers complete messages, with labels of 1 to 63 octets; malformed messages, `peek` at the end of the stream and the buffer overrun of longer labels are not modelled.
- TcpSockets.TcpSocket.Receive: one call at a time for each socket; the program reads from the kernel before it takes the mutex. Its `int` position is unbounded here.
- UdpSockets.UdpSocket.SendTo: keeps no order, because a datagram sent directly overtakes queued ones, and no write interest, because the timeout handler ignores the result.
- TcpHandlers.TcpRelay.Open: gives each connection a handle never used before; reuse of a freed pointer by a later connection, and the restart of upstream connections, are not modelled.
- TimerHeaps.TimerHeap.Pop: the inside of the priority queue is abstract, so of several earliest timers any may come first.
- The `length` field of a domain name, which nothing reads.
- Socket errors and exceptions, epoll, signals, logging and the command line.
- Each handler's loop body is a method of its own, and the four loops over IPv4 and IPv6 upstream connections are one loop over all of them, in the same order.
- A class's lock-protected methods are atomic everywhere except in `Allocator` and `ThreadPool`. `shared_mutex` admits a reader whenever no writer holds the lock; freedom from deadlock is not claimed for a lock that makes readers wait for waiting writers.
- Allocators.LookAlone: the answers that `GetTask`, `HasTask` and `IsFull` give are not recorded at the grain of locks; `TaskPools` has them.
- Notifications wake some sleeper if there is one; which one is arbitrary.
