# Verification of the RTMP live server

The repository is an RTMP live-streaming server (`src/`) that runs on a library of cooperative
threads (`objs/st-1.9/`). This project models its five difficult parts in Dafny and proves what they
are for. `dafny verify dfyconfig.toml` checks everything.

| files | what they model |
|---|---|
| `Bytes` | bytes, two's complement, big- and little-endian fields |
| `ChunkFormat`, `ChunkWire`, `ChunkSend`, `ChunkSplit`, `Protocol`, `Endpoints` | the RTMP chunk layer (sections 5.3.1 and 5.4.1 of Adobe's RTMP specification 1.0): reading as functions of the bytes, a multiplexer of chunk streams, the sender, independence of how bytes arrive, the protocol object updated in place, and two such objects talking to each other |
| `Amf0`, `Amf0Bytes`, `Amf0RoundTrip`, `Amf0Stream` | the AMF 0 codec (sections 2.2 to 2.5, 2.10 and 2.11 of the AMF 0 specification): a value type with its encoding and decoding, which bytes a value stands for, which values come back, and the methods that move a stream's cursor |
| `Packets`, `PacketReading` | the thirteen packets the server sends: the size each announces, the bytes it encodes itself into, and what the peer finds in them |
| `TimeoutHeap` | the heap of sleeping threads, linked by pointers, and the clock check |
| `Scheduler`, `SchedulerRuns`, `SchedulerCalls` | run queue, I/O queue, condition variables, mutexes, interrupts, join and exit as one state machine of atomic steps, what holds in every reachable state, and what every step does to its thread and to the others |
| `Epoll` | interest in descriptors, counted per event and mirrored in the kernel's epoll set |
| `GatherWrite` | writing several buffers to a descriptor that takes them piecemeal |
| `LruCache` | the hash table with pins, deferred deletes, an LRU list and a weight budget |
| `LiveSource`, `LiveRuns` | fan-out of a live stream to consumers, shared payloads counted by reference, and every run of it against a simpler machine |

The main results:

* **Chunks** (`ChunkWire.InterleavingReassembled`): for every legal interleaving of chunk streams on
  ids of one, two or three bytes, with any mix of header types at the start of messages and the chunk size
  changing on the way, the receiver hands over every message whole, once, in the order of completion,
  with the timestamp, length, type and stream id that the history of headers means. At every step each
  partial payload is exactly what was sent of it. `ChunkSend.RoundTrip` is the consequence for any list
  of messages given to the sender. `Protocol` proves that the methods do on a socket, which may split
  reads anywhere, what those functions say of the bytes, and `Endpoints.Exchange` composes them: what one
  protocol object sends, another returns.
* **Time-outs** (`ChunkSplit.TimeoutTransparency`, `ChunkSplit.RepeatedCall`): reading a chunk again after
  a read time-out inside it is *not* always harmless. For the chunk it is harmless exactly when the chunk
  is not of type 0 and no non-zero delta was already added. At such places the whole receive call can be
  repeated, any number of times, without a trace (`Endpoints.ReceivePatiently`); after a time-out inside
  a type-0 chunk it always fails, and otherwise the message comes out late by its delta
  (`ChunkSplit.DeltaAddedAgain`).
* **AMF 0** (`Amf0RoundTrip.RoundTrip`): a value of any size, with any bytes after it, is read back as it
  was written, ending exactly at its end, if and only if its texts are shorter than 32768 bytes, its names
  not empty, no object inside has a name twice or an end of object as a value, and it holds no null or
  undefined. All but the last is also all that arbitrary bytes can ever be decoded to
  (`Amf0.DecoderYields`). Null and undefined are not stepped over, so the reader takes each marker for the
  length of a name of at least 1280 bytes (`Amf0.NullsAreDear`) and overtakes the writer; that no bytes
  whatever bring it back in step is `Amf0RoundTrip.StaysAhead`. `Amf0.NullPropertyUnreadable` is a small
  object this happens to.
* **Packets** (`Packets.GetSizeIsExact`, `Packets.EncodePayload`): the size each packet announces, summed
  up separately, is the number of bytes it writes, so encoding into a buffer of that size succeeds and
  fills it. `PacketReading.PacketCarries` says what the peer finds at which offset.
* **Time-out heap** (`TimeoutHeap`): adding, deleting any element and checking the clock, on the
  pointer structure itself, with no parent pointers.
* **Scheduler** (`Scheduler.RunKeepsInv`): every run keeps the global invariant; from it follow exact
  queue membership, mutual exclusion, hand-over in order of waiting, and that every runnable thread gets
  its turn. Every step wakes exactly the threads it is to wake, in order, and changes no other but its own
  (`SchedulerCalls.WokenExactly`); so nobody with a time-out wakes early or sleeps on once it is due
  (`SchedulerCalls.NeverEarly`), and no joiner is left behind (`SchedulerCalls.JoinersWake`).
  `SchedulerRuns.EarlyDispatchPossible` is a reachable state that shows why dispatch must wait for
  an empty run queue.
* **Epoll** (`Epoll.EventSystem`): counts and kernel set agree although fired descriptors are
  updated late; a failed addition leaves nothing behind; closing is refused exactly when somebody waits;
  a round of events wakes exactly the threads it concerns and tells them exactly what was reported; every
  descriptor that fires wakes a thread.
* **Cache** (`LruCache.Cache`): a map of the entries not waiting to be deleted; eviction takes the
  shortest run of least recently released entries that makes room; an insertion fails exactly when the
  entries in use leave no room. The chains are linked by pointers, and an entry is taken out by the
  pointer to it.
* **Live source** (`LiveRuns.Play`): every run of publications, joining, taking, destroying and leaving
  does what a machine does that knows only positions in the history. So the history is what was
  published, and what a consumer took and has queued is the cached messages when it joined followed by
  everything since (`LiveRuns.RunDelivers`). A payload's count is the number of live messages sharing it,
  less one; the payload is freed once, with the last of them, and never while a client holds one.

## Model

| member | source | states |
|---|---|---|
| ChunkWire.FullFields | src/rss_core_protocol.cpp:747-817 | a type-0 header gives back every field written, a timestamp of 0xFFFFFF or more being announced as extended |
| ChunkWire.BasicIds | src/rss_core_protocol.cpp:604-672 | a basic header of two bytes means stream 64 and what its second byte counts, one of three bytes its two further bytes, exactly if they are below 128, as they are read as signed |
| ChunkFormat.FieldBytes | src/rss_core_protocol.cpp:747-822 | which bytes each field of a header is read from and in which byte order, and which fields are inherited |
| ChunkFormat.RefusedStarts | src/rss_core_protocol.cpp:712-727 | a header is refused exactly if a stream does not begin with type 0 or type 0 comes inside a message |
| ChunkFormat.ChunkSizeStaysLegal | src/rss_core_protocol.cpp:446-488 | whatever is received, the chunk size stays at least 2 and changes exactly to what a message announces |
| ChunkWire.BeginHeader | src/rss_core_protocol.cpp:674-873 | the first header of a message, of any of the four types, gives the header its history means and takes exactly its bytes |
| ChunkWire.ContinueHeader | src/rss_core_protocol.cpp:824-873 | a type-3 header inside a message changes nothing but the chunk count, and consumes a repeated extended timestamp |
| ChunkWire.PayloadInStep | src/rss_core_protocol.cpp:875-943 | reading a payload part leaves the receiver with exactly the bytes sent so far, or with the finished message |
| ChunkWire.ChunkInStep | src/rss_core_protocol.cpp:526-602 | one chunk of any stream is read whole, and that stream ends where its sender is |
| ChunkWire.HookInStep | src/rss_core_protocol.cpp:446-488 | when a finished message announces a chunk size, receiver and sender change to the same one |
| ChunkWire.ActionInStep | src/rss_core_protocol.cpp:526-602 | one action of the sender keeps all streams and the chunk size in step, whatever follows on the wire |
| ChunkWire.ActionInSession | src/rss_core_protocol.cpp:265-312 | the receive loop hands over exactly the message an action completes, empty ones excepted |
| ChunkWire.InterleavingReassembled | src/rss_core_protocol.cpp:265-312 | for every legal interleaving the receiver hands over exactly the completed messages, in order, and ends in step with nothing unread |
| ChunkWire.BusyLanesContinue | src/rss_core_protocol.cpp:875-943 | in step, a stream has a partial payload exactly while its message is under way: the bytes sent of it, at least one and fewer than the declared length |
| ChunkSend.SendIsRun | src/rss_core_protocol.cpp:314-444 | the bytes of one sent message are a legal run of its stream: a type-0 chunk and type-3 chunks |
| ChunkSend.FirstHeaderBytes | src/rss_core_protocol.cpp:340-386 | the first header byte by byte: the stream id little-endian, all else big-endian |
| ChunkSend.NextHeaderBytes | src/rss_core_protocol.cpp:387-406 | so the headers of the chunks that follow |
| ChunkSend.SendAllIsRun | src/rss_core_protocol.cpp:314-524 | so are the bytes of a list of messages, with the chunk size changing where it is announced |
| ChunkSend.RoundTrip | src/rss_core_protocol.cpp:265-524 | a fresh receiver hands back the non-empty messages in order with type, stream id, timestamp and payload, and ends with the sender's chunk size |
| ChunkSend.SendableFacts | src/rss_core_protocol.cpp:1207-1232 | a message made from any packet has a length field equal to its encoded payload, and a receiver can decode its control packets, the announced chunk size included |
| ChunkSplit.ChunkStable | src/rss_core_protocol.cpp:526-602 | a chunk that was decided is not changed by more bytes |
| ChunkSplit.ReceiveStable | src/rss_core_protocol.cpp:265-312 | neither is a message handed over or an error: later bytes stay unread |
| ChunkSplit.HeaderAgain | src/rss_core_protocol.cpp:747-833 | reading a header a second time gives the same header exactly when no delta was added the first time |
| ChunkSplit.ResumeInHeader | src/rss_core_protocol.cpp:722-855 | a call starved inside a header can be repeated |
| ChunkSplit.ResumeInPayload | src/rss_core_protocol.cpp:875-943 | a call starved inside a payload can be repeated if and only if no delta was added |
| ChunkSplit.FormatZero | src/rss_core_protocol.cpp:712-727 | an interrupted type-0 chunk is refused as a fresh start when it is read again, and would not be if it came at once |
| ChunkSplit.TimeoutTransparency | src/rss_core_protocol.cpp:674-943 | after a time-out inside a chunk, repeating the call is the same as never being interrupted if and only if the chunk is resumable |
| ChunkSplit.DeltaAddedAgain | src/rss_core_protocol.cpp:747-770 | in a type-1 or type-2 chunk that is not resumable, the second reading gives the same message with the delta added once more |
| ChunkSplit.OneMillisecondLate | src/rss_core_protocol.cpp:747-770 | an audio byte one millisecond after the message before, interrupted before that byte, comes out a millisecond late |
| ChunkSplit.ReceiversAlike | src/rss_core_protocol.cpp:526-943 | receivers whose streams differ only in how many chunks they counted give the same outcome to every call, for all bytes |
| ChunkSplit.RepeatedCall | src/rss_core_protocol.cpp:265-312 | a receive call interrupted at a repeatable place gives, repeated, what it would have given uninterrupted; one interrupted inside a type-0 chunk fails as a bad chunk start, which it would not have done |
| Protocol.Buffer.EnsureBufferBytes | src/rss_core_buffer.cpp:38-59 | the buffer grows by what the socket gave, nothing lost, to at least the size required; it fails only because a read failed, with bytes still to come or all read |
| Protocol.RtmpProtocol.ReadBasicHeader | src/rss_core_protocol.cpp:604-672 | reads the basic header of the bytes buffered; fails only because a read failed, when the bytes do not hold one |
| Protocol.RtmpProtocol.ReadMessageHeader | src/rss_core_protocol.cpp:674-873 | leaves the chunk stream as the header says, error and starvation included, and loses no byte |
| Protocol.RtmpProtocol.ReadMessagePayload | src/rss_core_protocol.cpp:875-943 | leaves the partial message as the payload part says and erases exactly the chunk |
| Protocol.RtmpProtocol.FindChunkStream | src/rss_core_protocol.cpp:526-602 | finds or creates the stream of a chunk stream id; no other changes |
| Protocol.RtmpProtocol.ReadChunkOf | src/rss_core_protocol.cpp:526-602 | one chunk changes only its own stream |
| Protocol.RtmpProtocol.RecvInterlacedMessage | src/rss_core_protocol.cpp:526-602 | what it returns and leaves is what reading one chunk of the pending bytes gives |
| Protocol.RtmpProtocol.OnRecvMessage | src/rss_core_protocol.cpp:446-488 | an announced chunk size takes effect; one below 2 or a short packet is an error |
| Protocol.RtmpProtocol.RecvOne | src/rss_core_protocol.cpp:265-312 | one turn of the receive loop: a message or error is that of the pending bytes, and otherwise what they still hold is unchanged |
| Protocol.RtmpProtocol.RecvMessage | src/rss_core_protocol.cpp:265-312 | if no read is interrupted, what is returned and left is exactly what the pending bytes give, however reads split them: a message, an error, or all bytes read without either; otherwise one read was, and only the chunk under way was begun |
| Protocol.RtmpProtocol.OnSendMessage | src/rss_core_protocol.cpp:490-524 | the outgoing chunk size follows an announced one |
| Protocol.RtmpProtocol.SendChunk | src/rss_core_protocol.cpp:333-435 | writes the header and payload of one chunk, or a part of them because one write failed |
| Protocol.RtmpProtocol.SendMessage | src/rss_core_protocol.cpp:314-444 | the packet is encoded and the socket got exactly the chunks of the message, or a part of them because one write failed |
| Protocol.RtmpProtocol.SendEncoded | src/rss_core_protocol.cpp:327-444 | the loop over the chunks of an encoded message |
| Endpoints.SendEach | src/rss_core_protocol.cpp:314-444 | a list of messages puts exactly its chunks on the socket, the chunk size changing where announced, or a part of them because one write failed |
| Endpoints.ReceiveEach | src/rss_core_protocol.cpp:265-312 | received until a call fails, the messages are in order those the pending bytes hold; if no read was interrupted none is missing, and the call ended as the bytes do |
| Endpoints.ReceivePatiently | src/rss_core_protocol.cpp:265-312 | time-outs at repeatable places do not show in the message received, nor in any later one; it gives up after the tries allowed and not before |
| Endpoints.FewerBytes | src/rss_core_protocol.cpp:265-312 | a prefix of the bytes brings the first of the same messages, and no error the whole does not have |
| Endpoints.Exchange | src/rss_core_protocol.cpp:265-444 | what one protocol object sent, another returns in order, empty messages excepted, however its reads are split, and both end with the same chunk size; after a failed write or an interrupted read, the first of them |
| Amf0.PutDistinct | src/rss_core_amf0.cpp:192-211 | setting a property keeps names distinct |
| Amf0.PutGet | src/rss_core_amf0.cpp:192-229 | the property set is found with its new value, every other as before |
| Amf0.SizeIsExact | src/rss_core_amf0.cpp:872-935 | the size calculated for any value, null, undefined and object end included, is the number of bytes written |
| Amf0.PropsSizeIsExact | src/rss_core_amf0.cpp:1286-1330 | so is the size of a list of properties |
| Amf0.ReadUtf8 | src/rss_core_amf0.cpp:353-400 | reading a string ends inside the buffer, at least two bytes on |
| Amf0.ReadObjectEof | src/rss_core_amf0.cpp:937-982 | the object-end reader, which steps back two bytes, ends one byte on, and its assertion fails exactly at positions below 2 |
| Amf0.ReadAny | src/rss_core_amf0.cpp:711-813 | on arbitrary bytes reading ends inside the buffer, never before it began |
| Amf0.ReadProps | src/rss_core_amf0.cpp:1015-1073 | on arbitrary bytes the property loop ends, each property takes at least two bytes, and the assertion never fails |
| Amf0.ReadBack | src/rss_core_amf0.cpp:711-871 | what is read is what was written with repeated names folded, ending exactly at its end, before any bytes that follow |
| Amf0.ReadBackProps | src/rss_core_amf0.cpp:1015-1122 | the same for the property loop, whatever was collected before |
| Amf0.RebuiltSame | src/rss_core_amf0.cpp:192-211 | folding repeated names changes a value if and only if some object in it has two properties of one name |
| Amf0.ComesBack | src/rss_core_amf0.cpp:711-1254 | an encodable value is read back, in order and to its end, if and only if all names are unique |
| Amf0.DecoderYields | src/rss_core_amf0.cpp:711-813 | on arbitrary bytes a decoded value, if not the end of an object, has only texts below 32768 bytes and non-empty names, none twice in one object, and no end of object as a property |
| Amf0.DecoderYieldsTable | src/rss_core_amf0.cpp:1015-1073 | the same for the property loop |
| Amf0Bytes.DecodedDenotes | src/rss_core_amf0.cpp:711-813 | on arbitrary bytes a decoded value is the one its marker and the bytes after it denote, and any other marker is refused |
| Amf0Bytes.TableStands | src/rss_core_amf0.cpp:1015-1073 | every property of a decoded object stands somewhere in its bytes, its value right after its name |
| Amf0Bytes.ScalarsAccepted | src/rss_core_amf0.cpp:353-709 | bytes that denote a number, boolean, string, null or undefined are decoded to it |
| Amf0.NullsAreDear | src/rss_core_amf0.cpp:764-773 | on arbitrary bytes, a decoded value took at least 1282 bytes for each null or undefined in it, unless it is one itself |
| Amf0.NullsAreDearInside | src/rss_core_amf0.cpp:1015-1073 | the same for the property loop, where the marker left behind becomes the length of the next name |
| Amf0RoundTrip.LaterWins | src/rss_core_amf0.cpp:192-211 | in a decoded table a property counts only if no later one has its name, and the others keep their order |
| Amf0RoundTrip.Overtakes | src/rss_core_amf0.cpp:1015-1073 | a reader that left a null unconsumed reads the next written property, or ends up ahead of the writer |
| Amf0RoundTrip.OneBehind | src/rss_core_amf0.cpp:764-773 | after a null the reader leaves the object ahead of the writer, if it decodes the properties written at all |
| Amf0RoundTrip.StaysAhead | src/rss_core_amf0.cpp:1015-1073 | a reader ahead of the writer that still decodes the properties written leaves every object ahead of it |
| Amf0RoundTrip.LosesStep | src/rss_core_amf0.cpp:1015-1122 | so does a reader in step, if the properties hold a null or undefined |
| Amf0RoundTrip.RoundTrip | src/rss_core_amf0.cpp:711-1254 | a value of any size, with any bytes around it, is read back in order and exactly to its end, if and only if its texts are short, its names not empty, none twice in one object, and it holds no null, undefined or end of object |
| Amf0.StringRoundTrip | src/rss_core_amf0.cpp:353-434 | a string is read back if and only if it is shorter than 32768 bytes, the length being read as signed |
| Amf0.NullNotSteppedOver | src/rss_core_amf0.cpp:764-773 | reading null or undefined does not move past its marker |
| Amf0Stream.Stream.Write | src/rss_core_stream.cpp:133-180 | the bytes go under the cursor and nothing else changes |
| Amf0Stream.Stream.ReadUnsigned | src/rss_core_stream.cpp:70-119 | reads a big-endian number and moves past it |
| Amf0Stream.PropertyTable.Set | src/rss_core_amf0.cpp:192-211 | the erase-and-append on the vector is the abstract update |
| Amf0Stream.ReadText | src/rss_core_amf0.cpp:353-400 | result and cursor are those of decoding the bytes from the old cursor |
| Amf0Stream.ReadEnd | src/rss_core_amf0.cpp:937-982 | the same for the object-end marker, backward skip included |
| Amf0Stream.ReadValue | src/rss_core_amf0.cpp:711-813 | the same for any value, backward skip included |
| Amf0Stream.ReadProperties | src/rss_core_amf0.cpp:1015-1073 | the same for the property loop with its table updated in place |
| Amf0Stream.WriteText | src/rss_core_amf0.cpp:402-434 | succeeds if and only if the bytes fit, and then they are at the old cursor with nothing else changed |
| Amf0Stream.WriteValue | src/rss_core_amf0.cpp:815-870 | the same for any value |
| Amf0Stream.WriteObject | src/rss_core_amf0.cpp:1075-1254 | the same for an object or array: head, properties, end |
| Amf0Stream.ValueSize | src/rss_core_amf0.cpp:872-935 | the size accumulated over a value is the length of its encoding |
| Amf0Stream.PropertiesSize | src/rss_core_amf0.cpp:1286-1330 | the size accumulated over properties is the length of their encoding |
| Packets.GetSizeIsExact | src/rss_core_protocol.cpp:1522-2550 | for each of the thirteen packets the size announced is the number of bytes written |
| Packets.PacketSize | src/rss_core_protocol.cpp:1522-2532 | the size as the program sums it up, walking the objects, is that size |
| Packets.EncodePacket | src/rss_core_protocol.cpp:1528-2550 | writing a packet succeeds if and only if it fits, and then its bytes, in which the peer finds what `PacketReading.PacketCarries` says, are at the old cursor with nothing else changed |
| Packets.EncodePayload | src/rss_core_protocol.cpp:1386-1419 | encoding into a buffer of the announced size succeeds and fills it with exactly the packet |
| Packets.ChunkSizeReadBack | src/rss_core_protocol.cpp:2406-2465 | the chunk size a peer decodes is the one announced |
| PacketReading.PacketCarries | src/rss_core_protocol.cpp:1512-2550 | in each of the thirteen packets the peer finds every field at its offset, under the right message type and chunk stream |
| PacketReading.FoundInTurn | src/rss_core_protocol.cpp:1528-1563 | values written one after another are found one after another, each read back exactly if it is readable |
| TimeoutHeap.RootIsFirst | objs/st-1.9/docs/timeout_heap.txt:30-60 | in heap order the root is due no later than any node |
| TimeoutHeap.LinkedOnce | objs/st-1.9/docs/timeout_heap.txt:30-60 | when every node carries its index no thread is in the tree twice |
| TimeoutHeap.BitLength | objs/st-1.9/sched.c:347-350 | finds the leading one bit of an index |
| TimeoutHeap.SinkMovesDown | objs/st-1.9/sched.c:413-445 | exchanging a node with its earlier child moves the only fault of order one level down |
| TimeoutHeap.SleepQueue.SwapIn | objs/st-1.9/sched.c:352-359 | a thread takes the place, index and children of the node under a pointer |
| TimeoutHeap.SleepQueue.CarryAlongPath | objs/st-1.9/sched.c:347-367 | following the bits of the index keeps heap order and the threads, carrying one of them down |
| TimeoutHeap.SleepQueue.HeapInsert | objs/st-1.9/sched.c:339-375 | the thread is inserted, the target position filled, only the links below it still to be set |
| TimeoutHeap.SleepQueue.FindLast | objs/st-1.9/sched.c:384-396 | the bits of the size lead to the pointer to the last node |
| TimeoutHeap.SleepQueue.SwapWithChild | objs/st-1.9/sched.c:424-442 | rewriting six pointers and two indices exchanges a node with its child and nothing else |
| TimeoutHeap.SleepQueue.SinkDown | objs/st-1.9/sched.c:410-445 | restores heap order with the same threads |
| TimeoutHeap.SleepQueue.HeapDelete | objs/st-1.9/sched.c:378-448 | any element can be deleted: indices stay 1 to size with children at 2N and 2N+1, order holds, exactly that thread is gone |
| TimeoutHeap.SleepQueue.AddSleepQ | objs/st-1.9/sched.c:451-457 | exactly that thread is added, due at the last clock plus its time-out, and flagged |
| TimeoutHeap.SleepQueue.DelSleepQ | objs/st-1.9/sched.c:460-464 | exactly that thread is removed and unflagged |
| TimeoutHeap.SleepQueue.RootDueFirst | objs/st-1.9/sched.c:476-480 | the root of a valid heap is due first of all members |
| TimeoutHeap.VirtualProcessor.CheckClock | objs/st-1.9/sched.c:467-497 | exactly the sleepers due by now are appended to the run queue, in order of due time; the later ones stay in a valid heap; a condition wait is marked timed out |
| Scheduler.FirstWaiterFound | objs/st-1.9/sync.c:339-348 | the search of a wait queue finds the first thread in lock wait, or there is none |
| Scheduler.LockResult | objs/st-1.9/sync.c:290-326 | a lock call that waited succeeds exactly when its caller was made owner |
| Scheduler.SleepStep | objs/st-1.9/sync.c:115-140 | going to sleep keeps the invariant |
| Scheduler.WaitStep | objs/st-1.9/sync.c:180-215 | waiting on a condition keeps the invariant |
| Scheduler.SignalStep | objs/st-1.9/sync.c:224-244 | waking one or all waiters keeps the invariant |
| Scheduler.LockStep | objs/st-1.9/sync.c:290-326 | taking or waiting for a mutex keeps the invariant |
| Scheduler.UnlockStep | objs/st-1.9/sync.c:329-354 | handing a mutex over or freeing it keeps the invariant |
| Scheduler.PollStep | objs/st-1.9/sched.c:60-93 | entering poll keeps the invariant |
| Scheduler.FireStep | objs/st-1.9/event.c:1310-1323 | waking pollers in dispatch keeps the invariant |
| Scheduler.ExpireStep | objs/st-1.9/sched.c:476-497 | waking sleepers in the clock check keeps the invariant |
| Scheduler.InterruptStep | objs/st-1.9/sched.c:500-517 | interrupting any thread keeps the invariant |
| Scheduler.JoinStep | objs/st-1.9/sched.c:275-312 | joining keeps the invariant |
| Scheduler.ExitStep | objs/st-1.9/sched.c:239-272 | exiting keeps the invariant |
| Scheduler.ScheduleStep | objs/st-1.9/sched.c:111-129 | switching to the next thread, or to the idle thread, keeps the invariant |
| Scheduler.ResumeStep | objs/st-1.9/sched.c:94-108 | completing a blocking call keeps the invariant |
| Scheduler.StepKeepsInv | objs/st-1.9/sched.c:60-517 | every atomic step keeps the invariant on all queues, wait queues and mutexes |
| Scheduler.RunKeepsInv | objs/st-1.9/sched.c:60-517 | so does every run |
| SchedulerRuns.QueuedExactly | objs/st-1.9/sched.c:60-128 | in every reachable state a thread is on the run queue once if runnable and otherwise not, and in the heap exactly if flagged, which no runnable or running thread is |
| SchedulerRuns.DispatchFindsWaiters | objs/st-1.9/sched.c:216-236 | when dispatch is entered every thread on the I/O queue is waiting, so none is queued twice |
| SchedulerRuns.EarlyDispatchQueuesTwice | objs/st-1.9/event.c:1310-1323 | dispatch that finds a runnable thread on the I/O queue would queue it twice |
| SchedulerRuns.EarlyDispatchPossible | objs/st-1.9/sched.c:500-517 | such a state is reachable: a poller that was interrupted and has not run yet |
| SchedulerRuns.MutualExclusion | objs/st-1.9/sync.c:290-354 | no two threads hold a mutex at once, and the holder owns it |
| SchedulerRuns.FreeMutexHasNoWaiter | objs/st-1.9/sync.c:329-354 | whoever is still queued on a free mutex has been interrupted and no longer waits for it |
| SchedulerRuns.LockReturnsToOwner | objs/st-1.9/sync.c:315-326 | a lock call returns 0 exactly to the owner, who is then the only holder |
| SchedulerRuns.HandOver | objs/st-1.9/sync.c:329-354 | unlocking hands the mutex to the first waiter not interrupted, all before it having been, and makes it runnable; or frees it if there is none |
| SchedulerRuns.SignalWakes | objs/st-1.9/sync.c:224-244 | a signal makes runnable exactly the longest-waiting thread that still waits, a broadcast all of them in order; no other thread changes |
| SchedulerRuns.RunQIsFifo | objs/st-1.9/sched.c:111-129 | only the scheduler takes threads off the run queue, from its front; every other step appends |
| SchedulerRuns.EveryThreadGetsItsTurn | objs/st-1.9/sched.c:111-129 | a thread with i others before it has run after i + 1 context switches, whatever the threads do |
| SchedulerCalls.WokenExactly | objs/st-1.9/sched.c:60-517 | every step appends exactly the threads it is to wake to the run queue, in order, with the time-out or interrupt they are to be told of, and changes no other thread but its own |
| SchedulerCalls.CallsWait | objs/st-1.9/sync.c:115-326 | sleep, condition wait, poll and lock return at once if interrupted; otherwise they wait, last in their queue and due when the time-out says, a lock call only for a mutex another has |
| SchedulerCalls.CallsReturn | objs/st-1.9/sync.c:180-326 | a call that waited leaves its thread in user code, off every queue, with interrupt and time-out used up |
| SchedulerCalls.JoinWaits | objs/st-1.9/sched.c:275-312 | join is refused, collects a thread that has ended, or waits for its end as the only joiner |
| SchedulerCalls.ExitEnds | objs/st-1.9/sched.c:239-272 | an ending thread becomes a zombie if it can be joined and is gone otherwise |
| SchedulerCalls.MutexCalls | objs/st-1.9/sync.c:329-368 | trylock takes a free mutex and nothing else; unlock gives it to the first who waits, or frees it |
| SchedulerCalls.Creates | objs/st-1.9/sched.c:520-621 | a new thread begins in user code with nothing pending |
| SchedulerCalls.IdleTurns | objs/st-1.9/sched.c:111-236 | the first runnable thread runs next; the idle loop dispatches, checks the clock and yields in turn |
| SchedulerCalls.SleeperStep | objs/st-1.9/sched.c:445-497 | a thread with a time-out stays due when it was due until it is woken, and a clock check wakes it exactly if it is due |
| SchedulerCalls.NeverEarly | objs/st-1.9/sched.c:445-497 | in every run a thread whose time-out is not reached is woken by a signal, an interrupt or its descriptors only, and the first clock check after it is due wakes it |
| SchedulerCalls.ExitWakesJoiner | objs/st-1.9/sched.c:239-312 | the exit of a thread makes exactly the one that waits to join it runnable |
| SchedulerCalls.JoinersWake | objs/st-1.9/sched.c:239-312 | in every reachable state a thread has one joiner at most, and nobody waits to join a thread that has ended |
| Epoll.SomeoneAsks | objs/st-1.9/event.c:140-149 | the count of an event is positive exactly when some poll entry asks for it |
| Epoll.SomeoneWaits | objs/st-1.9/event.c:140-149 | the same over all waiters |
| Epoll.EventSystem.DelOne | objs/st-1.9/event.c:1141-1166 | one entry's interest is taken away; the kernel is told when the mask changed and the descriptor did not fire |
| Epoll.EventSystem.PollsetDel | objs/st-1.9/event.c:1129-1167 | the counts drop by exactly the poll set; fired descriptors are left alone in the kernel |
| Epoll.EventSystem.CheckPollset | objs/st-1.9/event.c:1175-1186 | a poll set that is refused has changed no count |
| Epoll.EventSystem.FdDataExpand | objs/st-1.9/event.c:1091-1111 | the table grows past the descriptor, new entries asking for nothing, or is left alone |
| Epoll.EventSystem.PollsetAdd | objs/st-1.9/event.c:1169-1225 | either every entry is counted and known to the kernel, or the counts are what they were; it fails on a good poll set only if the kernel refused |
| Epoll.EventSystem.Unroll | objs/st-1.9/event.c:1214-1222 | taking back the part that was added restores every count and leaves kernel and counts in agreement |
| Epoll.EventSystem.PollEnter | objs/st-1.9/sched.c:74-83 | the caller joins the I/O queue with its poll set counted, or nothing changes |
| Epoll.EventSystem.PollLeave | objs/st-1.9/sched.c:89-99 | a thread still queued leaves the queue and the counts; otherwise the ready descriptors are counted |
| Epoll.EventSystem.MarkFired | objs/st-1.9/event.c:1272-1279 | exactly the reported descriptors are marked, an error or hang-up counting as every event asked for |
| Epoll.EventSystem.Tell | objs/st-1.9/event.c:1286-1309 | each entry of a waiter is told exactly the events asked for that fired, and errors and hang-ups whether asked for or not |
| Epoll.EventSystem.NotifyAll | objs/st-1.9/event.c:1281-1324 | exactly the waiters told of something leave the queue, in order; counts follow; fired descriptors are not touched in the kernel |
| Epoll.EventSystem.NotifyNext | objs/st-1.9/event.c:1281-1324 | one waiter of the walk, which leaves the queue if it was told of an event |
| Epoll.EventSystem.UpdateFired | objs/st-1.9/event.c:1326-1338 | the late update brings the kernel back into agreement for every descriptor |
| Epoll.EventSystem.Dispatch | objs/st-1.9/event.c:1267-1340 | one round of events wakes exactly the waiters that the reports concern, in order, and tells each exactly what they mean to it, an error or hang-up counting as every event asked for; counts and kernel set stay right, and every reported descriptor wakes somebody |
| Epoll.FiredWakes | objs/st-1.9/event.c:1266-1324 | a descriptor reported by a kernel whose mask is right has a waiter to wake |
| Epoll.RoundMeans | objs/st-1.9/event.c:1267-1323 | told by the reports alone: who is concerned, and of which events each entry is told |
| Epoll.EventSystem.FdClose | objs/st-1.9/event.c:1351-1360 | closing is refused if and only if some waiter has the descriptor in its poll set |
| Epoll.KernelMirrorsQueue | objs/st-1.9/event.c:1129-1340 | outside dispatch the kernel asks for an event of a descriptor if and only if some queued poll entry does |
| GatherWrite.Advance | objs/st-1.9/io.c:652-664 | after n bytes the vectors describe exactly the rest; those passed over are empty |
| GatherWrite.WritevResid | objs/st-1.9/io.c:636-672 | success means everything was sent; on error what was sent followed by what the vectors describe is the original |
| GatherWrite.WriteResid | objs/st-1.9/io.c:535-549 | the same for one buffer, the residue being the bytes not sent |
| GatherWrite.Locate | objs/st-1.9/io.c:596-599 | finds the vector and offset at which a byte count ends |
| GatherWrite.Fill | objs/st-1.9/io.c:612-620 | copies the remaining vectors, the first cut short |
| GatherWrite.CopyRest | objs/st-1.9/io.c:595-621 | the copy describes exactly what is left and fits its memory, local or allocated, also when it is made again |
| GatherWrite.Writev | objs/st-1.9/io.c:560-633 | for every sequence of short writes, interruptions and would-block results, success means exactly the concatenation was sent, failure that the system failed and a proper prefix was sent |
| LruCache.WithoutKeepsOrder | objs/st-1.9/extensions/lrucache.c:192-217 | unlinking an entry keeps the others in order |
| LruCache.WeightWithout | objs/st-1.9/extensions/lrucache.c:199-207 | the total weight loses exactly the entry's |
| LruCache.SoundUnchained | objs/st-1.9/extensions/lrucache.c:199-208 | unlinking an unused entry keeps table, totals, LRU list and map consistent |
| LruCache.SoundAdmitted | objs/st-1.9/extensions/lrucache.c:296-306 | linking a new entry does too |
| LruCache.SoundReleased | objs/st-1.9/extensions/lrucache.c:242-253 | so does the last release, the entry becoming the most recently released |
| LruCache.Cache.Unlink | objs/st-1.9/extensions/lrucache.c:199-203 | through the pointer to it an entry is taken out of its chain, and the chain is linked as before without it |
| LruCache.Cache.UnlinkMember | objs/st-1.9/extensions/lrucache.c:199-203 | no other chain is touched |
| LruCache.Cache.LinkFirst | objs/st-1.9/extensions/lrucache.c:296-301 | an entry linked at the head of a chain, which stays linked behind it |
| LruCache.Cache.LinkMember | objs/st-1.9/extensions/lrucache.c:296-301 | no other chain is touched |
| LruCache.Cache.Delete | objs/st-1.9/extensions/lrucache.c:192-217 | the map loses the entry; in use it stays until released, otherwise it leaves table and list and is cleaned up once |
| LruCache.Cache.Find | objs/st-1.9/extensions/lrucache.c:226-229 | the chain walk finds the entry the map has for the key, or nothing |
| LruCache.Cache.Lookup | objs/st-1.9/extensions/lrucache.c:220-239 | returns what the map has and pins it; the map is unchanged |
| LruCache.Cache.Release | objs/st-1.9/extensions/lrucache.c:242-254 | the last release appends to the LRU list or carries out the pending delete; without a pin nothing happens |
| LruCache.Cache.GetLru | objs/st-1.9/extensions/lrucache.c:312-318 | the unused entry released before every other unused one; none exactly when every entry is in use |
| LruCache.Cache.MakeRoom | objs/st-1.9/extensions/lrucache.c:262-283 | evicts the shortest prefix of the LRU list that makes room, or all of it when none does |
| LruCache.Cache.ShedWeight | objs/st-1.9/extensions/lrucache.c:266-273 | the weight loop ends, having evicted no entry without need |
| LruCache.Cache.Replace | objs/st-1.9/extensions/lrucache.c:285-306 | the entry takes the place of the live one of its key, which is deleted or, in use, left pending |
| LruCache.Cache.Insert | objs/st-1.9/extensions/lrucache.c:257-309 | succeeds exactly if evicting every unused entry would make room; the map then has the new entry and lost exactly the evicted ones; limits hold |
| LruCache.RoomForAll | objs/st-1.9/extensions/lrucache.c:262-283 | if evicting some of the LRU list makes room, so does evicting all of it |
| LruCache.RoomIffPinnedFit | objs/st-1.9/extensions/lrucache.c:262-283 | an insertion succeeds exactly when weight and number of the entries in use leave room for it |
| LruCache.Cache.Empty | objs/st-1.9/extensions/lrucache.c:84-97 | afterwards the map and the LRU list are empty, exactly the pinned entries remain, and every other was cleaned up |
| LiveSource.SharedMessage.Initialize | src/rss_core_protocol.cpp:1272-1310 | a new payload is held by exactly this message; the preferred chunk stream follows the type |
| LiveSource.SharedMessage.Share | src/rss_core_protocol.cpp:1312-1332 | a copy shares the payload and is counted |
| LiveSource.Destroy | src/rss_core_protocol.cpp:1252-1265 | the payload is freed exactly when the last message sharing it goes, and was not freed before |
| LiveSource.CountIsLiveMessages | src/rss_core_protocol.cpp:1252-1332 | the shared count plus one is the number of live messages sharing the payload, none once it is freed |
| LiveSource.StreamDistinct | src/rss_core_source.cpp:240-269 | what a consumer is to receive has no message twice |
| LiveSource.StreamComplete | src/rss_core_source.cpp:108-269 | it always includes the first audio and video message, and everything since it joined |
| LiveSource.JoinOrder | src/rss_core_source.cpp:240-269 | what is cached comes in the order metadata, video, audio: the latest metadata and the first of the others |
| LiveSource.ConsumerReceives | src/rss_core_source.cpp:41-269 | taken followed by queued is the metadata, video and audio cached at joining, then every message since, in order, nothing twice |
| LiveSource.Consumer.GetPackets | src/rss_core_source.cpp:48-83 | takes up to the given number from the front, or all when it is zero |
| LiveSource.Source.FanOut | src/rss_core_source.cpp:146-156 | every consumer gets one copy, after all it got before |
| LiveSource.Source.OnMetaData | src/rss_core_source.cpp:108-160 | metadata, the server's name added, is always encoded and published: it replaces the cached one, which is destroyed, and goes to every consumer; every other message stays where it is |
| LiveSource.MetadataDecodes | src/rss_core_source.cpp:108-136 | the published payload is read back, name and properties, exactly if they are readable; the server's name is among the properties and the others are unchanged |
| LiveSource.Source.OnAudio | src/rss_core_source.cpp:162-199 | the message goes to every consumer and the first one stays cached; every message, those of clients included, stays where it is |
| LiveSource.Source.OnVideo | src/rss_core_source.cpp:201-238 | the same for video |
| LiveSource.Source.CreateConsumer | src/rss_core_source.cpp:240-269 | a new consumer has the cached messages queued, and is sent everything from then on; every message stays where it is |
| LiveSource.Source.Take | src/rss_core_source.cpp:48-83 | the messages taken go from the front of the queue to the client, their positions from queued to taken; every other stays where it is |
| LiveSource.Source.FreeTaken | src/rss_core_protocol.cpp:1252-1265 | destroying a message a client took frees the payload, which was not freed before, exactly if nobody else has it |
| LiveSource.Source.DestroyConsumer | src/rss_core_source.cpp:28-39 | exactly the messages left in its queue are destroyed, and the source forgets exactly that consumer |
| LiveRuns.RunDelivers | src/rss_core_source.cpp:41-269 | in every run the history is what was published, and taken followed by queued is, for each consumer, what was cached at joining and everything since |
| LiveRuns.Do | src/rss_core_source.cpp:28-280 | every operation does to history, queues and what clients hold what the machine of positions does; clients keep their messages until they destroy them, and a payload that was freed stays so |
| LiveRuns.Play | src/rss_core_source.cpp:28-280 | every run from creation ends where that machine ends, with exact counts, and with what clients hold live and not freed |

`Valid`, `Sync`, `Inv` and the other predicates named in these contracts are defined beside them; an
operation listed as keeping something has that predicate in its contract before and after.

Where the code departs from the formats it implements, the model follows the code: null and undefined
are returned without stepping over their marker, string lengths are read as signed 16-bit numbers, and
the extension bytes of long chunk stream ids are added as signed. A type-3 chunk that begins a message
adds the last delta again, a type-0 timestamp counting as a delta, as the comments at
`src/rss_core_protocol.cpp:678-698` ask.

## Left out

- Sockets, the clock, epoll system calls and memory allocation are oracles: reads may be split and writes and requests may fail at any point. In `GatherWrite` a run is finite because the descriptor answers from a finite list and then fails.
- Session scripts (`src/rss_core_rtmp.cpp`, `src/rss_core_client.cpp`), handshake, logging, listening and `main`: nearly straight-line code.
- Control packets other than SetChunkSize and the window acknowledgement size are not interpreted when received; the packets' own decoders are not modelled.
- ChunkWire.InterleavingReassembled: does not cover type-0, -1 or -2 headers in the middle of a message, extended timestamps on types 1 and 2, negative timestamps, or the chunk stream ids whose second or third byte is 128 or more, which the receiver takes for other ids (`ChunkWire.BasicIds`). The sender never emits these, and the reassembly code does not keep them consistent. The receiver functions and methods model all of them.
- ChunkSend.RoundTrip: announced chunk sizes are at least 2, the smallest the receiver accepts, and the length field is the payload's size.
- Amf0RoundTrip.RoundTrip: numbers are 64-bit patterns without floating-point meaning.
- A pointer kept across growth of the receive buffer: the model uses positions in a sequence.
- Scheduler: modelled on values, as a state machine whose steps are the sections between context switches, so links of its queues and aliasing are not captured; its time-out queue is a set here and a pointer structure in `TimeoutHeap`. Stacks, thread keys, context-switch assembly and switch callbacks are not modelled.
- The LRU list of the cache, the I/O queue and the consumer lists are sequences, not linked nodes. `stx_cache_traverse` and the information functions are left out. Sizes and weights are unbounded, without `size_t` wrap-around.
- Epoll: re-initialisation after fork, and the select, poll and kqueue back ends, which keep the same books.
- LiveSource.SharedMessage.Initialize: initialising twice and copying an uninitialised message, which the code asserts against, are ruled out by construction. The pool of sources and the destructor of `RssSource` are left out. The metadata packet is a value: that `on_meta_data` changes the caller's packet is not captured.
- DNS resolver and cache front end, file I/O extension, examples and build files.
