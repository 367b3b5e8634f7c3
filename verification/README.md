# Verification of the chat server and its load-test client

A Dafny model of the hard parts of the repository, with proofs. Four parts:

1. **The asynchronous session** (`TestSession`). Any number of threads call `send`, `disconnect`,
   `start`, `login` and the room requests while completions run `dispatch`. `Sessions.dfy` gives the
   state and one function for each critical section; `TestSessions.dfy` is the object with its fields,
   each method proved to compute that function; `Protocol.dfy` is the step system: threads parked
   between critical sections, operations held by the kernel, and a record of what was accepted, put
   on the wire, received and handed over. `SendSafety.dfy`, `RecvSafety.dfy` and `AccountSafety.dfy`
   prove what every step keeps, `Safety.dfy` puts this together for every run, and
   `SessionTheorems.dfy`, `StepEffects.dfy` and `Draining.dfy` state the results. `Scenarios.dfy` holds concrete runs,
   with packets that arrive, are cut and handled.
2. **Framing.** `Framing.dfy` holds the reference reading of a byte stream and chunking independence,
   `RecvBuffers.dfy` the receive buffer and the framing loop in place, `SendEvents.dfy` the send event
   with its cursor, `Packets.dfy` the two framers.
3. **The generated codec.** `Codec.dfy` defines parsing, serializing, size and merging over any message
   schema; `CodecLaws.dfy`, `WireLaws.dfy` and `UnknownFields.dfy` prove the laws for every schema,
   `WireGrammar.dfy` that the parsers accept exactly the wire format with its meaning, and `Utf8.dfy`
   that the string test accepts exactly the encodings of text;
   `Messages.dfy` holds `REQ_CHAT` in the form of the generated code (object, parse loop, writer into a
   byte array, size accumulator, merge), proved against the schema functions; `RoomLists.dfy` holds
   repeated nested messages with the fast inner loop of `ACK_GET_ROOM_INFO`.
4. **The registries and the id generator.** `Accounts.dfy`, `Rooms.dfy`, `PacketIds.dfy`, and the
   striding of the load test in `Striding.dfy`.

`Delivery.dfy` joins parts 1 to 3: messages sent over the session arrive as those messages.

Checking the project: `dafny verify dfyconfig.toml`.

## What is assumed of the environment

- A critical section under `_send_lock`, with the short `_io_lock` section nested in it, is one step.
  Between two sections a thread may be parked for as long as the others like.
- The kernel completes a posted operation with any count and in any order relative to the threads. A
  send completion may report any number, including 0 and too many; a receive completion delivers at
  most the bytes it was posted with. The answers of WSASend, WSARecv and ConnectEx are parameters.
- Packet handlers are arbitrary: they may call into the session any number of times, succeed or fail,
  or find the session closed.
- Public setters of `TestSession` that bypass the lock are not called, except by the handler of the
  server-full notice, which is modelled with its two unlocked stores.
- The case mapping of the id generator and the seams of the parser's input buffer are parameters.

## Where the code does not do what one expects

- `MAX_PACKET_SIZE` is 0x10000, so the test of a 16-bit size against it never fires; the effective
  limit is 65535 (`Framing.MalformedExactly`).
- The server-full handler clears the login flag outside the lock. Login state is then incoherent until
  its disconnect, exactly when the session was logged in (`SessionTheorems.CoherenceBreaks`, with the
  run `Scenarios.FullNoticeBreaksLogin`).
- A room reply is matched by its kind only. It changes nothing exactly when no request of its kind is
  pending, so a duplicate can settle or cancel a later request (`SessionTheorems.RoomReplies`, with
  the run `Scenarios.DuplicateCancels`).
- A failed login reply leaves the room as it is. A session can be in a room without being logged in,
  exactly from a step that logs out with a room or a pending enter (`SessionTheorems.RoomNeedsLogin`,
  with the run `Scenarios.LateLoginReply`).
- The length test of `login` looks at the name only when an account is created. A longer name is then
  refused by the framer, exactly above 65523 bytes in all (`Packets.LoginRefused`, with the request
  `Packets.LongNameRefused`).
- `ByteSizeLong` sizes the length prefix of a string on 32 bits; it is exact under the condition of
  `CodecLaws.SizeExact`.
- The server's framer narrows to 16 bits before looking at the size. Its packet carries the payload
  exactly up to 65531 bytes (`Packets.ServerBufferExact`); above, nothing of it arrives
  (`Packets.OversizeIsLost`).
- Parsing a concatenation is merging for serialized messages. For other wire bytes it is merging
  exactly when the second part does not spell out a default over a value (`WireLaws.LastOneWins`, with
  the input `WireLaws.ExplicitDefaultDiffers`).
- Account ids come from a 64-bit counter: they are distinct exactly up to 2^64 accounts
  (`Accounts.IdsDistinct`), and from then on a create can log in an id that is logged in already
  (`Accounts.EventsAlternate`, `Accounts.CounterComesRound`).

## Model

Four pieces of code stand in files that are not UTF-8; their rows cite where the code is declared or
used. They are the send event in `TestClient/TestClient/NetWork/IocpEvent.h` (lines 46 to 103), the
receive buffer in `TestClient/TestClient/Buffer/RecvBuffer.cpp` (lines 4 to 50), the server-full
handler in `TestClient/TestClient/Packet/ClientPacketHandler.cpp` (lines 213 to 225), and the server's
cutting loop in `Server/ServerCore/NetWork/Session.cpp` (lines 433 to 474).

| member | source | states |
|---|---|---|
| SessionTheorems.SingleSendOwner | TestClient/TestClient/Session/TestSession.cpp:61-130 | in every reachable state, threads on the send path plus outstanding sends are at most one, although `disconnect` resets the flag; while a send is outstanding the event still holds its bytes and no thread may release them |
| SessionTheorems.ByteConservation | TestClient/TestClient/Session/TestSession.cpp:436-542 | until a send fails or the session closes: bytes on the wire, then bytes in the event, then bytes in the queue are all accepted buffers in push order; while a completion of n bytes waits to be processed, the same without the first n bytes of the event |
| SessionTheorems.WireIsPrefix | TestClient/TestClient/Session/TestSession.cpp:495-542 | in every reachable state the wire is a prefix of the accepted bytes, so it cuts into a prefix of the accepted packets, never torn or interleaved |
| SessionTheorems.NothingStranded | TestClient/TestClient/Session/TestSession.cpp:97-130 | while connected the register flag is set exactly when a send is outstanding or some thread owns the path; with the flag clear the queue is empty and everything accepted is on the wire |
| SessionTheorems.AlwaysSomethingToSend | TestClient/TestClient/Session/TestSession.cpp:452-468 | the "no buffers to send" exit of `register_send` is unreachable |
| SessionTheorems.OverflowExitsDead | TestClient/TestClient/Session/TestSession.cpp:556-617 | in every reachable state a receive report fits the free bytes and the bytes dealt with are among the unread ones, so both overflow exits are dead |
| Draining.StepLowers | TestClient/TestClient/Session/TestSession.cpp:436-542 | from every reachable connected state with no failed send, reports in range and a thread that waits for completions: every step of the send path, for every bound on a completion, keeps all of that and the accepted buffers, and lowers a measure |
| Draining.CanGoOn | TestClient/TestClient/Session/TestSession.cpp:436-542 | in such a state either every accepted byte is on the wire or a step of the send path is enabled |
| Draining.EveryDrainDelivers | TestClient/TestClient/Session/TestSession.cpp:436-542 | every run of send-path steps is at most as long as the measure, and one that cannot go on has put every accepted byte on the wire |
| Draining.AcceptedBytesDrain | TestClient/TestClient/Session/TestSession.cpp:436-542 | after every such run there is a continuation of such steps that delivers everything |
| SessionTheorems.PendingIoExact | TestClient/TestClient/Session/TestSession.cpp:156-169 | `_pending_io` is outstanding sends plus outstanding receives plus running callbacks, and the assertion of `finish_io` never fails |
| SessionTheorems.PendingIoFalls | TestClient/TestClient/Session/TestSession.cpp:380-434 | along every run, once the session is closed the counter never rises again |
| SessionTheorems.ZeroIsFinal | TestClient/TestClient/Session/TestSession.cpp:177-181 | `wait_for_io` is sound: a closed session at zero stays there, with nothing outstanding and no thread in a callback, to the end of every run |
| SessionTheorems.SingleReceiver | TestClient/TestClient/Session/TestSession.cpp:7-27 | one user of the receive buffer in every run, however often `start` is called; the posted receive lies behind the unread bytes and offers at least 0x10000 bytes |
| SessionTheorems.NeverDeaf | TestClient/TestClient/Session/TestSession.cpp:399-434 | a started connected session is receiving, processing, or about to disconnect |
| SessionTheorems.HandedInOrder | TestClient/TestClient/Session/TestSession.cpp:544-622 | in every interleaving the packets handed over are the first packets of the bytes delivered; when the next receive is outstanding they are all of them and the unread bytes are the incomplete rest |
| SessionTheorems.OneLife | TestClient/TestClient/Session/TestSession.cpp:29-95 | never connected and closed at once, at most one connect and one disconnect are counted, their difference is whether the session is connected; hence the second early return of `disconnect` is dead |
| SessionTheorems.FleetConservation | TestClient/TestClient/Session/TestSession.cpp:29-95 | over any sessions, `connect_success` minus `disconnect` is the number connected |
| SessionTheorems.LoginCoherence | TestClient/TestClient/Session/TestSession.cpp:183-248 | connected means exactly one of the three phases, matching the flags, outside the server-full window; a pending ENTER means no room, a pending EXIT a room; closed means all cleared |
| SessionTheorems.CoherenceBreaks | TestClient/TestClient/Packet/ClientPacketHandler.h:63-63 | a step out of a coherent state makes it incoherent if and only if it is the server-full handler's store while logged in |
| Scenarios.FullNoticeBreaksLogin | TestClient/TestClient/Packet/ClientPacketHandler.h:63-63 | a run that does so: connect, start, login request, its reply and the notice received and handled as packets |
| SessionTheorems.ClosedForever | TestClient/TestClient/Session/TestSession.cpp:61-95 | a closed session is never connected again and its login and room state stays cleared, in every continuation |
| SessionTheorems.RoomChangesOnRequest | TestClient/TestClient/Session/TestSession.cpp:277-339 | while connected the room changes only as the successful answer to a pending request of that kind |
| SessionTheorems.RoomReplies | TestClient/TestClient/Session/TestSession.cpp:316-339 | a room reply changes nothing if and only if no request of its kind is pending; otherwise it settles that request, whichever it was sent for, and a failure leaves the room |
| Scenarios.DuplicateCancels | TestClient/TestClient/Session/TestSession.cpp:316-327 | a run in which a second copy of a failed enter reply cancels a later request, whose own answer is then ignored |
| SessionTheorems.RoomNeedsLogin | TestClient/TestClient/Session/TestSession.cpp:237-339 | being in a room, or entering one, means being logged in; a step breaks that if and only if it logs out with a room or a pending enter |
| Scenarios.LateLoginReply | TestClient/TestClient/Session/TestSession.cpp:237-339 | a run that does so and leaves a coherent, connected session in a room that it can neither leave nor change |
| SessionTheorems.LoginChangesOnReply | TestClient/TestClient/Session/TestSession.cpp:237-248 | a session becomes logged in, or changes account, only by a successful login reply carrying that account, or by the server-full notice, which clears it |
| StepEffects.RequestsGranted | TestClient/TestClient/Session/TestSession.cpp:183-314 | in every reachable state a login, enter or exit request goes on to `send` if and only if the session is connected, login flag and room fit and nothing is pending; it then leaves exactly its mark, and otherwise nothing changes |
| StepEffects.LoginReplies | TestClient/TestClient/Session/TestSession.cpp:237-248 | in every reachable connected state a login reply ends the pending login: success logs in to the reply's account, failure returns to CONNECTED and a new request may be made; room, request and send side are unchanged |
| StepEffects.UndoSettles | TestClient/TestClient/Session/TestSession.cpp:210-216 | a request whose packet was not accepted is settled as failed, and the thread returns to its caller |
| Scenarios.EnterAndExit | TestClient/TestClient/Session/TestSession.cpp:277-339 | a run that enters a room, asks to leave and is out once the reply is handled |
| StepEffects.FullNoticeSteps | TestClient/TestClient/Packet/ClientPacketHandler.h:63-63 | the two unlocked stores of the server-full handler, each alone, then its disconnect |
| StepEffects.SendAccepts | TestClient/TestClient/Session/TestSession.cpp:97-130 | `send` accepts every non-empty buffer of a connected session at the end of the queue, registers exactly when nobody else is sending, and refuses without a connection |
| StepEffects.RegisterPosts | TestClient/TestClient/Session/TestSession.cpp:436-493 | exactly the leftovers, or else the whole queue, are posted; a failed post holds nothing and is about to disconnect; without a connection everything is released |
| StepEffects.ReportsProcessed | TestClient/TestClient/Session/TestSession.cpp:495-542 | a report of no or too many bytes disconnects, a short one keeps exactly the rest and sends on, a full one sends on or clears the flag |
| StepEffects.BuffersReleased | TestClient/TestClient/Session/TestSession.cpp:61-95 | in every reachable state no buffer is held without an owner or an operation, and a closed session has neither queue nor flag |
| StepEffects.ReceiveReport | TestClient/TestClient/Session/TestSession.cpp:544-561 | a completion without bytes disconnects; any other makes exactly the stored bytes unread |
| StepEffects.HandlerReturns | TestClient/TestClient/Session/TestSession.cpp:595-609 | a handler that refuses leaves its thread about to disconnect; otherwise the loop goes on behind the packet, or ends if the session was closed |
| StepEffects.RefusalEndsReceiving | TestClient/TestClient/Session/TestSession.cpp:595-602 | after a refusal nobody uses the receive path and nothing is posted |
| StepEffects.NoMoreReceiving | TestClient/TestClient/Session/TestSession.cpp:7-27 | once given up, receiving is never taken up again: in every continuation no byte arrives and no packet is handed over |
| StepEffects.StartCalls | TestClient/TestClient/Session/TestSession.cpp:7-27 | without a connection `start` disconnects; of all callers exactly the first goes on to post |
| StepEffects.ReceivePosts | TestClient/TestClient/Session/TestSession.cpp:399-434 | one receive over all free bytes, or a disconnect if posting fails |
| StepEffects.ConnectCalls | TestClient/TestClient/Session/TestSession.cpp:29-59 | `connect` changes the state exactly once |
| StepEffects.DisconnectCalls | TestClient/TestClient/Session/TestSession.cpp:61-95 | the first call on a connected session closes and clears it and keeps the bytes in flight; any other changes nothing |
| Safety.StepInv | TestClient/TestClient/Session/TestSession.cpp:1-622 | every action of every thread keeps the whole invariant, and a closed session stays closed with its counter not rising |
| Safety.RunInv | TestClient/TestClient/Session/TestSession.cpp:1-622 | the invariant holds at the end of every run |
| SendSafety.SendStep | TestClient/TestClient/Session/TestSession.cpp:97-542 | what every action does to the send path: ownership count, prefix property and conservation are kept |
| SendSafety.SendFrame | TestClient/TestClient/Session/TestSession.cpp:97-542 | what a thread parked on the send path relies on survives every action of every other thread |
| RecvSafety.RecvStep | TestClient/TestClient/Session/TestSession.cpp:399-622 | what every action does to the receive path: single user, delivered bytes are handed packets plus unread bytes, room for the next receive |
| RecvSafety.RecvFrame | TestClient/TestClient/Session/TestSession.cpp:399-622 | what a thread inside the framing loop relies on survives every action of every other thread |
| AccountSafety.GoodStep | TestClient/TestClient/Session/TestSession.cpp:156-339 | every action keeps life, counter balance and login and room coherence |
| TestSessions.TestSession.constructor | TestClient/TestClient/Session/TestSession.h:24-24 | a new session is the fresh state, with a receive unit of 0x10000 |
| TestSessions.TestSession.Connect | TestClient/TestClient/Session/TestSession.cpp:29-59 | the object's update is the step system's; refused once connected or closed |
| TestSessions.TestSession.Disconnect | TestClient/TestClient/Session/TestSession.cpp:61-95 | the object's update is the step system's |
| TestSessions.TestSession.Push | TestClient/TestClient/Session/TestSession.cpp:97-130 | first half of `send`: queued, and whether this thread has to register |
| TestSessions.TestSession.FillEvent | TestClient/TestClient/Session/TestSession.cpp:452-459 | leftovers are kept as they are; otherwise the event holds the whole queue in order and the queue is empty |
| TestSessions.TestSession.RegisterSend | TestClient/TestClient/Session/TestSession.cpp:436-493 | the object's update is the step system's; the descriptors given to WSASend expose exactly the unsent bytes |
| TestSessions.TestSession.ProcessSend | TestClient/TestClient/Session/TestSession.cpp:495-542 | the object's update is the step system's, for bad, partial and full completions |
| TestSessions.TestSession.RegisterRecv | TestClient/TestClient/Session/TestSession.cpp:399-434 | the object's update is the step system's; the receive is posted at the write position with all free bytes |
| TestSessions.TestSession.BeginLogin | TestClient/TestClient/Session/TestSession.cpp:183-192 | reserves the login unless closed, logged in or pending |
| TestSessions.TestSession.CompleteLogin | TestClient/TestClient/Session/TestSession.cpp:237-248 | settles the login; on a closed session only the pending flag |
| TestSessions.TestSession.BeginEnterRoom | TestClient/TestClient/Session/TestSession.cpp:277-295 | reserves the enter request unless in a room or another request is pending |
| TestSessions.TestSession.BeginExitRoom | TestClient/TestClient/Session/TestSession.cpp:297-314 | reserves the exit request unless in no room or another request is pending |
| TestSessions.TestSession.CompleteEnterRoom | TestClient/TestClient/Session/TestSession.cpp:316-327 | settles a pending enter, ignores any other reply |
| TestSessions.TestSession.CompleteExitRoom | TestClient/TestClient/Session/TestSession.cpp:329-339 | settles a pending exit, ignores any other reply |
| SendEvents.SendEvent.Push | TestClient/TestClient/Session/TestSession.cpp:454-458 | the buffer's bytes are appended to the remaining bytes |
| SendEvents.SendEvent.Clear | TestClient/TestClient/Session/TestSession.cpp:444-449 | nothing remains |
| SendEvents.SendEvent.HasPendingData | TestClient/TestClient/Session/TestSession.cpp:452-452 | true exactly when bytes remain |
| SendEvents.SendEvent.BuildWsabufs | TestClient/TestClient/Session/TestSession.cpp:461-471 | non-empty descriptors that together are exactly the remaining bytes, in order |
| SendEvents.SendEvent.CountRemaining | TestClient/TestClient/Session/TestSession.cpp:509-512 | the sum is the number of remaining bytes |
| SendEvents.SendEvent.AdvanceCursor | TestClient/TestClient/Session/TestSession.cpp:509-514 | one turn acknowledges the first bytes that remain, up to the next buffer border |
| SendEvents.SendEvent.ConsumeSentBytes | TestClient/TestClient/Session/TestSession.cpp:509-522 | refused exactly for zero or too many; otherwise the first n remaining bytes are gone |
| RecvBuffers.RecvBuffer.OnWrite | TestClient/TestClient/Buffer/RecvBuffer.h:10-17 | for every count, negative ones included: refused exactly above the free bytes; otherwise the write cursor moves by it, and the buffer stays consistent exactly when it does not pass the read cursor |
| RecvBuffers.RecvBuffer.OnRead | TestClient/TestClient/Buffer/RecvBuffer.h:10-17 | for every count, negative ones included: refused exactly above the unread bytes; otherwise the read cursor moves by it, dropping the first unread bytes |
| RecvBuffers.RecvBuffer.Clean | TestClient/TestClient/Buffer/RecvBuffer.h:10-17 | compacts in place without altering the unread bytes |
| RecvBuffers.RecvBuffer.constructor | TestClient/TestClient/Buffer/RecvBuffer.h:7-24 | empty, ten times the unit |
| RecvBuffers.RecvBuf.Clean | TestClient/TestClient/Buffer/RecvBuffer.h:10-17 | compaction keeps every unread byte in order and leaves a whole unit free whenever at most nine units are unread |
| RecvBuffers.RecvBuf.Store | TestClient/TestClient/Session/TestSession.cpp:411-412 | bytes the kernel stores at the write position follow the unread bytes and alter none of them |
| RecvBuffers.ExamineAt | TestClient/TestClient/Session/TestSession.cpp:563-600 | reading header and packet in place agrees with the reading of the unread bytes |
| RecvBuffers.FramingLoop | TestClient/TestClient/Session/TestSession.cpp:563-609 | terminates, stays in bounds, and computes `Process` of the unread bytes for every handler behaviour |
| RecvBuffers.ProcessRecv | TestClient/TestClient/Session/TestSession.cpp:544-622 | one callback: closes without touching packets on an empty or oversized completion; otherwise hands over, consumes and keeps what `Process` says, and when it re-arms 0x10000 bytes are free |
| Framing.MalformedExactly | TestClient/TestClient/Session/TestSession.cpp:575-588 | a header is malformed exactly when its size is below 4: the test against MAX_PACKET_SIZE is dead |
| Framing.CutComplete | TestClient/TestClient/Session/TestSession.cpp:563-600 | the reading loses nothing: packets and rest are the input |
| Framing.CutSound | TestClient/TestClient/Session/TestSession.cpp:563-600 | every packet cut is a well-formed packet |
| Framing.CutStops | TestClient/TestClient/Session/TestSession.cpp:563-600 | the rest holds no further packet; unless malformed it is an incomplete packet of at most 65534 bytes |
| Framing.CutUnique | TestClient/TestClient/Session/TestSession.cpp:563-600 | no other split into packets and an incomplete rest exists |
| Framing.CutPrefix | TestClient/TestClient/Session/TestSession.cpp:563-600 | a prefix of a stream of packets cuts into a prefix of those packets |
| Framing.ProcessHandsPackets | TestClient/TestClient/Session/TestSession.cpp:563-609 | whatever the handlers answer, only packets of the reading are handed over, in order, and a callback that re-arms consumed exactly those |
| Framing.ProcessRefinesCut | TestClient/TestClient/Session/TestSession.cpp:563-609 | with accepting handlers one callback is the reference reading |
| Framing.ProcessExact | TestClient/TestClient/Session/TestSession.cpp:563-622 | for all answers: the callback ends with the first packet whose handler refuses, which disconnects, or closes, which consumes what was handed over; if there is none, all packets are handed over and consumed |
| Framing.EmptyChunkEnds | TestClient/TestClient/Session/TestSession.cpp:550-554 | a completion without bytes closes for good, whatever comes later |
| Framing.ChunkingIndependence | TestClient/TestClient/Session/TestSession.cpp:544-622 | however a stream is cut into non-empty chunks: same packets, open exactly when no header is malformed, same rest |
| Framing.PacketsArrive | TestClient/TestClient/Session/TestSession.cpp:544-622 | every stream of well-formed packets arrives as those packets under every chunking |
| Framing.MakeFrame | TestClient/TestClient/Packet/ClientPacketHandler.h:110-130 | the packet of a payload up to 65531 bytes is well formed, its header reads back size and id, its payload is the payload |
| Packets.SizeTestExact | TestClient/TestClient/Packet/ClientPacketHandler.h:113-117 | the size test is exact for every message of every schema, however long its strings |
| Packets.FillBuffer | TestClient/TestClient/Packet/ClientPacketHandler.h:118-127 | for a packet of any schema, header and payload written in place give the packet |
| Packets.MakeSendBuffer | TestClient/TestClient/Packet/ClientPacketHandler.h:110-130 | for a packet of any schema: refuses exactly payloads over 65531 bytes, otherwise returns the packet |
| Packets.ServerBufferExact | Server/GameServer/Packet/ServerPacketHandler.h:115-129 | the server's buffer is a packet with that payload if and only if the payload is at most 65531 bytes, and is then the client's packet |
| Packets.OversizeIsLost | Server/GameServer/Packet/ServerPacketHandler.h:115-129 | above the limit the receiver sees nothing of the payload: no buffer, or a packet of zeros that no message type parses unless it is empty |
| Packets.ChatFits | TestClient/TestClient/Session/TestSession.cpp:341-377 | every chat and whisper request within the length test is far below the limit |
| Packets.LoginRefused | TestClient/TestClient/Session/TestSession.cpp:194-217 | a login request that passes the length test is refused by the framer if and only if it creates no account and its strings come to more than 65523 bytes |
| Packets.LongNameRefused | TestClient/TestClient/Session/TestSession.cpp:194-217 | such a request, with a name of 70000 bytes |
| Packets.LoginFits | TestClient/TestClient/Session/TestSession.cpp:194-217 | one that creates an account, or has the empty name, takes at most 104 bytes |
| Varints.VarintReadsBack | Server/Libraries/Include/google/protobuf/parse_context.h:536-552 | a written varint is read back and no more is consumed |
| Varints.VarintRead | Server/Libraries/Include/google/protobuf/parse_context.h:536-552 | the reader takes every varint up to its limit, minimal or not, with the value of its groups |
| Varints.ReadIsVarint | Server/Libraries/Include/google/protobuf/parse_context.h:536-552 | and nothing else |
| Utf8.ValidExactly | Server/GameServer/Protobuf/Protocol.pb.cc:3013-3040 | the string test accepts exactly the encodings of lists of Unicode scalar values, by the bit table of section 3 of RFC 3629, and each of one list only |
| Messages.WriteVarint | Server/Libraries/Include/google/protobuf/io/coded_stream.h:898-922 | the write loop puts exactly the varint into the array and returns its end, nothing else in the array changes |
| Messages.WriteMessage | Server/GameServer/Protobuf/Protocol.pb.cc:3067-3112 | for a message of any schema, writing its fields one after the other puts exactly the serialized bytes into the array |
| Varints.VarintSizeExact | Server/Libraries/Include/google/protobuf/io/coded_stream.h:1728-1767 | the log2 formula with multiply and shift is the number of bytes written, for every 32- and 64-bit value |
| CodecLaws.WireNumber | Server/GameServer/Protobuf/Protocol.pb.cc:3001-3148 | sign extension to ten bytes and truncation on reading cancel for every field type |
| CodecLaws.NegativeTakesTen | Server/GameServer/Protobuf/Protocol.pb.cc:3067-3112 | a negative number goes out as ten bytes, its residue modulo 2^64 |
| CodecLaws.NumberRead | Server/GameServer/Protobuf/Protocol.pb.cc:3001-3065 | what a numeric field makes of any varint: the value of its type in the same residue class, and for a bool whether it is not zero |
| CodecLaws.FieldReadsBack | Server/GameServer/Protobuf/Protocol.pb.cc:3001-3065 | a field body is read back, or refused exactly when its string is too long or not UTF-8 |
| CodecLaws.RoundTrip | Server/GameServer/Protobuf/Protocol.pb.cc:3001-3112 | for every schema and message, parsing what was serialized gives the message, or fails exactly when a string is not readable |
| CodecLaws.ConcatenationMerges | Server/GameServer/Protobuf/Protocol.pb.cc:3157-3178 | parsing two serialized messages in a row is `MergeFrom` of the second into the first |
| CodecLaws.SizeExact | Server/GameServer/Protobuf/Protocol.pb.cc:3114-3148 | for every message `ByteSizeLong` is at most the serialized length, and equal if and only if every string is below 4 GB or has a length whose prefix is as long as that of its low 32 bits |
| WireLaws.ParseConcat | Server/GameServer/Protobuf/Protocol.pb.cc:3001-3065 | for arbitrary accepted bytes, parsing is sequential |
| WireLaws.LastOneWins | Server/GameServer/Protobuf/Protocol.pb.cc:3001-3065 | for arbitrary accepted bytes the last assignment of each field wins; it is `MergeFrom` if and only if no default is spelled out over a value |
| WireLaws.ExplicitDefaultDiffers | Server/GameServer/Protobuf/Protocol.pb.cc:3157-3178 | two inputs for which it is not |
| UnknownFields.SkipExact | Server/Libraries/Include/google/protobuf/parse_context.h:881-925 | a well-formed unknown field of any wire type, groups within groups and non-minimal varints included, is skipped to its last byte, or refused exactly when it nests beyond the recursion limit |
| UnknownFields.SkipExactly | Server/Libraries/Include/google/protobuf/parse_context.h:881-925 | skipping succeeds with `t` left if and only if a well-formed field within the limit stands in front of `t` |
| UnknownFields.UnknownIgnored | Server/GameServer/Protobuf/Protocol.pb.cc:3047-3057 | a field the schema does not know changes nothing in what is parsed |
| WireGrammar.ParseExactly | Server/GameServer/Protobuf/Protocol.pb.cc:3001-3065 | for every schema the parser gives a message if and only if the bytes are well-formed fields in a row that mean that message, applied one after the other |
| WireGrammar.ListExactly | Server/GameServer/Protobuf/Protocol.pb.cc:2165-2205 | the list parser gives a list if and only if the bytes are well-formed records and foreign fields that add up to it, each record parsed on its own one level deeper |
| Packets.ChatLayout | Server/GameServer/Protobuf/Protocol.pb.cc:3067-3112 | the bytes of a chat request, field by field with the tags of the generated code |
| Packets.LoginLayout | Server/GameServer/Protobuf/Protocol.pb.cc:686-734 | the bytes of a login request |
| Messages.ReqChat.ReadInto | Server/GameServer/Protobuf/Protocol.pb.cc:3009-3041 | one case of the switch reads the field and assigns it |
| Messages.ReqChat.ParseTurn | Server/GameServer/Protobuf/Protocol.pb.cc:3003-3057 | one turn of the loop is one turn of the schema parser, success or failure |
| Messages.ReqChat.Parse | Server/GameServer/Protobuf/Protocol.pb.cc:3001-3065 | the loop on the object is the schema parser |
| Messages.ReqChat.SerializeTo | Server/GameServer/Protobuf/Protocol.pb.cc:3067-3112 | writes exactly the serialized bytes in place, nothing else in the array changes |
| Messages.ReqChat.ByteSizeLong | Server/GameServer/Protobuf/Protocol.pb.cc:3114-3148 | the accumulator is the schema size |
| Messages.ReqChat.MergeFrom | Server/GameServer/Protobuf/Protocol.pb.cc:3157-3178 | merging objects is merging messages |
| RoomLists.FastRecords | Server/GameServer/Protobuf/Protocol.pb.cc:2171-2184 | the inner loop over consecutive records, wherever the buffer's seams are, is the plain parser after a record's tag |
| RoomLists.ParseFast | Server/GameServer/Protobuf/Protocol.pb.cc:2165-2205 | on top of every list, the parser with its inner loop refines the one-record-per-turn parser on every input, success or failure |
| RoomLists.ListConcat | Server/GameServer/Protobuf/Protocol.pb.cc:2165-2205 | for arbitrary accepted bytes, parsing a list is sequential |
| RoomLists.AnyBytesMerge | Server/GameServer/Protobuf/Protocol.pb.cc:2254-2264 | for arbitrary accepted bytes, parsing a concatenation is `MergeFrom`: the lists appended |
| RoomLists.ListAppends | Server/GameServer/Protobuf/Protocol.pb.cc:2165-2227 | a serialized list in front of any bytes is parsed by appending its records |
| RoomLists.ListLaws | Server/GameServer/Protobuf/Protocol.pb.cc:2207-2264 | round trip of every list, and a concatenation is parsed as `MergeFrom`: the second list appended |
| RoomLists.RoomsReadable | Server/GameServer/Protobuf/Struct.pb.cc:611-720 | every `RoomInfo`, negative numbers included, meets the condition of these laws |
| RoomLists.ByteSizeLong | Server/GameServer/Protobuf/Protocol.pb.cc:2229-2245 | tags, length prefixes and nested sizes add up to the serialized length |
| Delivery.PacketDecodes | Server/GameServer/Packet/ServerPacketHandler.h:115-129 | the packet of a sendable message of any known type decodes to its id and that message |
| Delivery.MessagesArrive | TestClient/TestClient/Session/TestSession.cpp:97-622 | for messages of any types, in every reachable state of the sender and for every chunking of its wire, the receiver stays open and what it hands over decodes, in order and from the first, to the messages sent |
| Delivery.AllMessagesArrive | TestClient/TestClient/Session/TestSession.cpp:97-542 | when the connected sender is idle on the send side, every message has arrived, in order, and nothing is left over |
| Accounts.Login.CreateAccount | Server/GameServer/Login/Login.cpp:4-27 | the call with its emptiness shortcut is the plain meaning, and names stay unique |
| Accounts.Login.LogInto | Server/GameServer/Login/Login.cpp:29-57 | the call with its emptiness shortcut is the plain meaning |
| Accounts.Login.LogOff | Server/GameServer/Login/Login.cpp:59-74 | the call with its emptiness shortcut is the plain meaning |
| Accounts.NamesUnique | Server/GameServer/Login/Login.cpp:4-27 | over every history the name set is exactly the account names, no two accounts share one |
| Accounts.IdsConsecutive | Server/GameServer/Login/Login.cpp:19-24 | the ids issued are 1, 2, 3 and so on modulo 2^64, and the counter is the next one |
| Accounts.IdsDistinct | Server/GameServer/Login/Login.cpp:19-24 | issued ids are distinct if and only if at most 2^64 accounts were created |
| Accounts.IdsBelowCounter | Server/GameServer/Login/Login.cpp:19-24 | issued ids are below the counter if and only if fewer than 2^64 - 1 accounts were created |
| Accounts.AccountsHoldIssued | Server/GameServer/Login/Login.cpp:4-74 | over every history one account per issued id, each with an issued id, and only issued ids logged in |
| Accounts.OnlineIsLastEvent | Server/GameServer/Login/Login.cpp:4-74 | over every history an id is logged in exactly when its last successful event was a create or a login |
| Accounts.EventsAlternate | Server/GameServer/Login/Login.cpp:4-74 | the successful events of every id strictly alternate in and out, if and only if no create issued an id that was logged in |
| Accounts.FewAccountsNoClash | Server/GameServer/Login/Login.cpp:4-27 | that never happens in histories with at most 2^64 accounts |
| Accounts.CounterComesRound | Server/GameServer/Login/Login.cpp:19-24 | a history of 2^64 + 1 creates in which it does |
| Accounts.CreateReplies | Server/GameServer/Login/Login.cpp:4-27 | over every history a create is refused exactly if an earlier successful create took its id, or else its name, and otherwise gets the next id |
| Accounts.LogInReplies | Server/GameServer/Login/Login.cpp:29-57 | over every history a login succeeds if and only if the successful create with its id carried its password and that account's last event was a logout, with that account and name; each refusal has its exact condition |
| Accounts.LogOutReplies | Server/GameServer/Login/Login.cpp:59-74 | over every history a logout succeeds exactly if the account's last event was a create or login |
| Rooms.Room.EnterUser | Server/GameServer/Room/Room.cpp:4-27 | granted exactly with a session, space and no membership; the member and the count are added |
| Rooms.Room.ExitUser | Server/GameServer/Room/Room.cpp:29-41 | granted exactly for a member, who is removed |
| Rooms.RoomManager.constructor | Server/GameServer/Room/RoomManager.cpp:4-11 | ten distinct empty rooms numbered from 0 |
| Rooms.RoomManager.EnterRoom | Server/GameServer/Room/RoomManager.cpp:13-29 | the object's update is the request's meaning, no other room changes |
| Rooms.RoomManager.ExitRoom | Server/GameServer/Room/RoomManager.cpp:31-45 | the object's update is the request's meaning, no other room changes |
| Rooms.CountsExact | Server/GameServer/Room/Room.cpp:4-41 | over every history each count is the membership size and at most 100 |
| Rooms.MemberIsLastRequest | Server/GameServer/Room/Room.cpp:4-41 | an account is in a room, with that session, exactly when the last granted request on the pair entered it |
| Rooms.OccupancyConserved | Server/GameServer/Room/RoomManager.cpp:13-45 | total occupancy is granted enters minus granted exits |
| Rooms.EnterGranted | Server/GameServer/Room/RoomManager.cpp:13-29 | over every history an enter is granted if and only if there is a session, the room is 0 to 9, granted enters minus exits of that room are below 100, and the account was not left inside |
| Rooms.ExitGranted | Server/GameServer/Room/RoomManager.cpp:31-45 | over every history an exit is granted if and only if the last granted request on the pair entered it |
| PacketIds.ProtoParser.ParseProto | Server/Tool/PacketGenerator/ProtoParser.py:15-37 | the line loop numbers and splits the declared names, and stops with what it has at a message line without a name |
| PacketIds.AssignSorts | Server/Tool/PacketGenerator/ProtoParser.py:28-37 | ids consecutive from the start, and the two lists are the total split by the first prefix, in order |
| PacketIds.TwoRuns | Server/Tool/PacketGenerator/ProtoParser.py:15-37 | two runs with swapped prefixes: identical totals always; one's receive list is the other's send list, both ways, if and only if no packet has both prefixes |
| PacketIds.PrefixesOverlap | Server/Tool/PacketGenerator/ProtoParser.py:28-37 | some name has both prefixes if and only if one is a prefix of the other |
| PacketIds.TotalComplete | Server/Tool/PacketGenerator/ProtoParser.py:28-37 | the total holds exactly the declared names with a prefix, in order, numbered from the next id |
| PacketIds.DeclaredInOrder | Server/Tool/PacketGenerator/ProtoParser.py:23-28 | reading stops at the first broken line and otherwise each part of the file adds its own names |
| PacketIds.DeclaredLine | Server/Tool/PacketGenerator/ProtoParser.py:24-28 | what one line adds |
| PacketIds.EveryLine | Server/Tool/PacketGenerator/ProtoParser.py:24-28 | every line is skipped, broken for want of a second word, or declares exactly its second word |
| Striding.Visit | TestClient/TestClient/Main/main.cpp:106-117 | a thread's round visits every existing session of its stride, in order |
| Striding.VisitedOnce | TestClient/TestClient/Main/main.cpp:106-117 | each session belongs to exactly one thread and one turn of its loop |
| Striding.Round | TestClient/TestClient/Main/main.cpp:104-117 | one round of all threads visits every session exactly once and nothing else |

## Left out

- That the kernel completes an operation, or that a thread runs, is not assumed: `Draining` states what every run of the send path does, not that one takes place.
- SendEvent objects appear in the step system as the bytes they still hold; the cursor is modelled and proved on the object.
- The number of buffers in one WSASend and the 32-bit sum of their sizes are not bounded.
- `ACK_LOGIN`, `REQ_LOGIN` and `RoomInfo` are covered by the laws for every schema; only `REQ_CHAT` is also modelled as an object with fields, because the others repeat its form.
- `RoomLists` objects: the list and its records are values; `RepeatedPtrField` and arenas are not modelled.
- Unknown fields are skipped and not kept; retaining and re-serializing them is library behaviour.
- ProcessRecv: for counts below 2^31, because the count is converted to a signed 32-bit number; a report is at most the posted length (`SessionTheorems.OverflowExitsDead`).
- The out-of-line string writer of the library is not part of the repository; the model writes the length of a string in full.
- The serializer's UTF-8 check only logs and is not modelled.
- Server `Session`, `JobQueue`, `JobTimer`, `Listener` and the packet handlers beyond the server-full one: the receiver of `Delivery` uses the server's cutting loop only.
- In the step system `HandlePacket` and its handler table are an arbitrary answer per packet; `Scenarios.dfy` models what the login, room and server-full handlers do with their packet.
- Reading and decoding the proto file, and writing the generated files, are not part of the model; the generator starts from the lines.
- Logging, statistics, configuration, timeouts, console input and real time.
- The running flag of the load test, which may end a round early.
