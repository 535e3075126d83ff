# udtcp: a verified model

udtcp is a small client/server messaging library: length-prefixed messages over TCP, one
message per datagram over UDP, and a poll-driven server with a bounded table of clients.
This project models its protocol engine in Dafny and proves what it keeps, over every run
and every behaviour of the network.

| module | what it models |
|---|---|
| `Wire` | the frame format, and an independent reading of a byte stream |
| `Types`, `Wiring` | the records of udtcp.h, and how the two ends rewire the record they receive |
| `Sockets` (Kernel.dfy) | the operating system: sockets, connections, the datagram queue, `errno` |
| `Buffers`, `Receive`, `Send` | allocation, the growable receive buffer with the two receive functions, the send slot |
| `Trace` | the callbacks, and what a sequence of them says about one client |
| `ServerModel`, `ServerSteps` | the state of a server as a value, its invariant, and its steps |
| `ServerRuns`, `ServerPass` | the server as a transition system with its runs, and what a poll pass does to it |
| `Compaction`, `Server` | the server itself: a class over the arrays `poll_fds` and `infos`, from creation to deletion |
| `ServerTheorems` | what holds after every run, for the users of a server |
| `ClientModel`, `Client` | the client: connecting, polling, its thread run, its deletion |
| `Handshake` | one server and any number of clients exchanging records, as interleaved steps on bytes |
| `Senders` | concurrent sends that share send slots, interleaved at every byte copied |
| `EndToEnd` | from the sends at one end to the callbacks at the other |
| `Lifecycle` | start and stop interleaved with the poll threads |

The imperative code is modelled by classes and methods on arrays and fields. Each method
is proved against a step on a value (`View`), and the steps are proved to keep an invariant
(`ServerModel.Inv`, `ClientModel.Inv`), from which the theorems follow. A method carries its
state before and after as a ghost value: `At(v)` says that the object is in state `v`.
Concurrency is modelled by transition systems whose invariants hold in every run.

The environment (class `Sockets.Kernel`) decides anew at each call what happens: how many
bytes a read returns, when a call fails and with which `errno`, which entries `poll`
reports, when another thread clears `poll_loop`. What remote parties will ever send is fixed
before a run and arbitrary; how much of it has arrived (`News`) grows in arbitrary steps, at
each `poll` and whenever a call waits. A failed call may set any `errno`; a call that succeeds
leaves it alone, and so do the callbacks, so a function that fails without a failing call
reports whatever was there before, as the library does.

The kernel keeps a journal of the calls made (`calls`), each with its answer and the value of
`errno` after it; `errno` is that of the last one. Another thread's clearing of `poll_loop` and
a failed allocation are noted there too; only the methods of the kernel write it. So the answers of the environment are on record
before a method draws its conclusions, and results are stated as functions of them in every
environment: a send returns 0, -1 or the size by the lock, the allocation and the send
(`SendAnswered`); a client is admitted exactly if the socket option, the send, the wait and the
read of its record succeeded (`AcceptAnswered`); a connect ends as its calls did
(`ConnectAnswered`); a poll returns what `poll` answered (`PollAnswered`); a client goes exactly
if one of the reads of its connection met the end or failed with another `errno` than
EWOULDBLOCK (`Dismisses`); a thread polls on exactly until a call that stops it (`Ran`).

Most statements hold in every environment. Two kinds are named where more is claimed:

- `orderly`: a stream behaves as TCP does. A read of a header returns as much of it as has
  arrived, a read finds nothing only if nothing has arrived, and a wait that succeeds is
  followed by a read that finds something.
- `faultless`: orderly, no call fails that can succeed, and `poll` reports every socket that has
  something. Claims that something is delivered are about faultless runs in which allocations
  succeed (`reliable`) and the loop flag stays on.

A peer is `whole` if none of its headers ever arrives without a byte of its payload; this is a
condition on arrivals, not on the server.

Where the code falls short of its intent, the exact condition is proved:

- A read that takes a header, finds nothing behind it and fails with EWOULDBLOCK leaves the
  client in the table in the middle of a frame; so does a read of one to three bytes of a
  header if `errno` was EWOULDBLOCK already. `Server.UdtcpServer.ServeClient` says that in an
  orderly environment a stream is cut only then, and in a faultless one, if its messages have
  1 to 2^31-1 bytes, exactly then;
  `FrameBoundaryIff` says that after a run a live stream stands at a frame boundary exactly
  if no such read has happened to it; `FifoPerConnection` gives the order for every client
  whose peer is `whole`, whatever the other peers do, and `StrayHeaderBreaksFifo` is a run in
  which it is lost. `ReportsAreRead` is what is left in every environment.
- The compaction copies one entry too many; `Compaction.Compact` says exactly when that reads
  behind the table.
- The sizes that `buffer_copy` and `receive_udp` ask for are truncated to 32 bits;
  `RoomIffSendable` and `RoomIffFits` say exactly which sizes stay inside the buffer.
- A datagram shorter than a header is never taken and blocks the queue (`ShortDatagramBlocks`).
- A client may take one byte of the record for a rejection, and may be refused after its own
  success (`TooManyMeansFull`, `AddedIffNothingMoreSent`, with runs that show both).
- A client that is refused because the server's read was short, or one byte too long, may have
  overwritten `tcp_socket` in the entry: the server then closes another number and the accepted
  descriptor stays open. `NumberLeftIff` and `EvenIff` say exactly when; a client that sends
  data right after its success brings it about (`SuccessMayBeRefused`).
- The server's `is_started` can outlive its thread (`ServerIsStarted`, `StaleIsStarted`).
- A host name that cannot be resolved leaves the client's new socket open (`UdtcpClient.Connect`).
- The header of the library says that the sends return the number of bytes or -1; the code
  returns 0 when the lock or the allocation fails, and so does the model.

## Model

| member | source | states |
|---|---|---|
| Wire.WordOfHeader | udtcp/src/send.c:56 | a size written as a header is read back unchanged |
| Wire.LittleEndian | udtcp/src/send.c:56 | the header of a size has it as its value with the first byte the lowest, and any four bytes are read as that value |
| Wire.FramesInFront | udtcp/src/send.c:55-57 | a stream that begins with encoded payloads is read as exactly those payloads, then the rest |
| Wire.FramesOfEncodeAll | udtcp/src/send.c:55-57 | round trip: the frames of the encoding of a list are that list, whatever unfinished frame follows |
| Wire.EncodeAllOfFrames | udtcp/src/send.c:55-57 | the other round trip: every byte string is the encoding of its frames and an unfinished rest |
| Wire.EncodeAllSize | udtcp/src/send.c:76-77 | the encoding takes four bytes more than the payload for each message |
| Wire.EncodingIsPrefixFree | udtcp/src/send.c:55-57 | a prefix of a stream that is itself whole frames holds the first of the messages |
| Wire.Int32 | udtcp/src/server_poll.c:298 | the size returned as `int` is positive exactly from 1 to 2^31-1 |
| Buffers.Allocator.New | udtcp/src/new_free.c:32-35 | the buffer has the size truncated to 32 bits |
| Buffers.Allocator.Free | udtcp/src/new_free.c:38-41 | only an allocated buffer can be freed |
| Send.RoomIffSendable | udtcp/src/send.c:38-57 | the copied frame stays inside the buffer exactly for sizes up to 2^32-5 that are positive or meet an existing buffer |
| Send.SendSlot.BufferCopy | udtcp/src/send.c:33-59 | the buffer ends with exactly the frame, never shrinks, and a growth frees exactly the previous buffer |
| Send.SendSlot.SendTcp | udtcp/src/send.c:62-80 | the result is the size exactly if lock, allocation and send succeed, 0 if the lock or the allocation fails, -1 if the send does, so always the size in a faultless run; the connection gets exactly the frame of the payload, or nothing, as the result says |
| Send.SendSlot.SendUdp | udtcp/src/send.c:83-102 | the same results; one datagram with exactly the frame, or nothing, as the result says |
| Receive.RoomIffFits | udtcp/src/server_poll.c:353-375 | the receive buffer holds a datagram exactly if header and payload are shorter than 4 GiB |
| Receive.ReceiveBuffer.Grow | udtcp/src/server_poll.c:228-243 | room for the size asked; capacity never shrinks; exactly the previous buffer is freed; failure is ENOMEM |
| Receive.ReceiveBuffer.ReceiveTcp | udtcp/src/server_poll.c:197-289 | takes exactly one frame when it reports one, whatever the pieces and whatever the buffer held; otherwise it stops inside a frame or at an empty one; how it ends, and with which `errno`, is said by the last of its calls, all on this socket |
| Receive.ReceiveBuffer.Reassemble | udtcp/src/server_poll.c:256-289 | the buffer ends with the first bytes and all later pieces in order, for every fragmentation |
| Receive.ReceiveBuffer.ReceiveUdp | udtcp/src/server_poll.c:320-395 | exactly one datagram is taken or none; the peeked size is that of the datagram read; the payload is the declared one; how it ends is said by the last of its calls |
| Trace.PhaseMeaning | udtcp/src/server_poll.c:187-192 | what the phases of a client mean for its callbacks |
| Compaction.Compact | udtcp/src/server_poll.c:517-537 | both arrays end in place as the stable filter of the live entries, in lockstep, slots 0 and 1 untouched; it reads behind the table exactly if the table is full and an entry other than the last was dropped |
| ServerModel.LiveKeeps | udtcp/src/server_poll.c:517-537 | the filter keeps exactly the live entries |
| ServerSteps.AcceptedKeepsInv | udtcp/src/server_poll.c:161-194 | adding a client keeps the invariant: table, descriptors, entries, callbacks, streams, datagrams |
| ServerSteps.RejectedKeepsInv | udtcp/src/server_poll.c:112-159 | so does a connection accepted and closed again |
| ServerSteps.DeliveredKeepsInv | udtcp/src/server_poll.c:291-298 | so does a delivered frame |
| ServerSteps.BrokenOffKeepsInv | udtcp/src/server_poll.c:206-289 | so does a failed read |
| ServerSteps.DroppedKeepsInv | udtcp/src/server_poll.c:413-437 | so does a disconnect with the mark on its entry |
| ServerSteps.TakenKeepsInv | udtcp/src/server_poll.c:397-410 | so does a datagram taken and attributed |
| ServerSteps.CompactedKeepsInv | udtcp/src/server_poll.c:517-537 | so does the compaction, after which every entry is live |
| Receive.DrainEnds | udtcp/src/server_poll.c:494-514 | in a faultless environment a read that reports nothing comes exactly when all whole frames that have arrived have been reported, and what is left of the stream alone decides whether it is taken for nothing to read |
| ServerRuns.EveryStep | udtcp/src/server_poll.c:440-538 | each of the eight steps of the server keeps the invariant |
| ServerRuns.EveryRun | udtcp/src/server_poll.c:440-538 | the invariant holds after every run of steps, whose guards ask only that table, ids and connections fit together |
| ServerRuns.StallNotWhole | udtcp/src/server_poll.c:246-251 | in an orderly environment a read that takes bytes in vain and lets the client stay never happens to a client whose peer is whole |
| ServerPass.EndOfDrain | udtcp/src/server_poll.c:497-514 | however the last read ended, keeping or dropping the client is a run of steps that changes only that client |
| ServerPass.CutEnd | udtcp/src/server_poll.c:497-505 | in an orderly environment a drain cuts a stream only inside a frame of which no more than the header has arrived |
| ServerPass.ExactEnd | udtcp/src/server_poll.c:494-514 | in a faultless one a drain reports exactly what has arrived; the client goes, stays or stays cut exactly as the rest of what has arrived says |
| ServerPass.ToldServed | udtcp/src/server_poll.c:465-516 | serving one client keeps what every client before it in the table has been told |
| ServerPass.PassEnd | udtcp/src/server_poll.c:465-537 | after the compaction the state is settled, reached by steps of the server, and everything due has been done |
| Server.UdtcpServer.constructor | udtcp/src/create_server.c:65-115 | the new server is in the initial state: two reserved slots, first id 1, no buffer |
| Server.UdtcpServer.InitializeConnection | udtcp/src/server_poll.c:35-103 | success exactly if the send of the record, the wait and the read of a whole record succeed; then the entry is the received record with the peer's address, the accepted socket and the server's sockets crossed over; however it ends the table is untouched and, for the reads modelled, the number of the accepted socket is still in the entry |
| Server.UdtcpServer.TurnAway | udtcp/src/server_poll.c:111-128 | with a full table a waiting connection is accepted, sent a zero byte exactly if that send succeeds, and closed once |
| Server.UdtcpServer.AcceptClient | udtcp/src/server_poll.c:105-195 | success exactly if there is room, a connection, and option, send, wait and read of a whole record succeed; it adds the client behind the last entry under the next id; failure leaves table, ids and callbacks as they were, nothing written but, with a full table, a zero byte, and the accepted socket closed once, for handshake reads that leave its number in the entry |
| Server.UdtcpServer.ReceiveTcp | udtcp/src/server_poll.c:197-299 | reports the next frame of that client's own connection under its id, or nothing; the result is its size as an `int`; what it takes against what has arrived |
| Server.UdtcpServer.GetInfos | udtcp/src/server_poll.c:301-318 | the first entry with that source address, or -1 |
| Server.UdtcpServer.ReceiveUdp | udtcp/src/server_poll.c:320-411 | a datagram taken is reported exactly if it is well formed and comes from a client, under that client |
| Server.UdtcpServer.Disconnect | udtcp/src/server_poll.c:413-437 | closes the client's descriptor once, announces it, marks its entry, touches no other |
| Server.UdtcpServer.ServeClient | udtcp/src/server_poll.c:492-515 | the drain of one client, with all ends: it goes exactly if one of its reads met the end or failed for another reason than EWOULDBLOCK, or the last payload reported has 2^31 bytes or more and `errno` was not EWOULDBLOCK; when its stream can be cut, and in a faultless run exactly what is reported, and whether it is dropped, kept, or kept cut |
| Server.UdtcpServer.ServeListener | udtcp/src/server_poll.c:478-483 | accepting changes nothing for the clients already there; exactly the clients whose records were read whole are added; while the flag is on it ends only at a call that refuses; in a faultless run only when nobody waits or the last one was refused |
| Server.UdtcpServer.ServeUdp | udtcp/src/server_poll.c:485-490 | datagrams are taken in order, each accounted to its owner; a faultless drain stops only at the end of what has arrived, behind one not reported, empty or of 2^31 bytes or more, or before one too short |
| Server.UdtcpServer.ServePass | udtcp/src/server_poll.c:464-516 | the loop over the table, with clients arriving and dropping out while it runs: a run of steps, and in a faultless one all that was due is done |
| Server.UdtcpServer.Poll | udtcp/src/server_poll.c:440-538 | the answer of `poll` alone decides the result, which in a faultless run is success if bytes of some client are unread, or a connection or a datagram waits; from one settled state to a later one, by steps of the server that write nothing to a client; while the flag is on exactly the readable clients are read from; one goes exactly if a read of its connection demands it (unless a payload of 2^31 bytes or more was reported); exactly those whose records were read whole are added; in a faultless run every client whose stream was not cut before and carries messages of 1 to 2^31-1 bytes has then been told of all that had arrived when the wait ended, the UDP queue is drained up to where `ServeUdp` may stop, and the waiting connections are accepted up to one that was refused |
| ServerPass.AttendedOn | udtcp/src/server_poll.c:465-516 | visiting one entry keeps, for all the others, that a client was read from exactly if it was readable and dropped exactly if its reads demand it |
| Server.UdtcpServer.ThreadRun | udtcp/src/server_start_stop.c:36-51 | the thread polls on until the flag is cleared or a poll is an error or interrupted, and not once more after that; each poll is as in `Poll` |
| Server.UdtcpServer.SendTcp | udtcp/src/send.c:62-80 | results as in `SendSlot.SendTcp`; exactly the frame goes to that client's connection, or nothing; every other connection and the table are untouched, whoever shares the slot |
| Server.UdtcpServer.SendUdp | udtcp/src/send.c:83-102 | results as in `SendSlot.SendUdp`; one datagram to the client's entry, or nothing; state untouched |
| Server.UdtcpServer.Serve | udtcp/src/server_start_stop.c:42-47 | any number of polls and sends in any order are a run of steps from a settled state to a settled state |
| Server.UdtcpServer.Delete | udtcp/src/delete_server.c:33-83 | every accepted descriptor closed exactly once, every buffer freed, one disconnect for each client left, nothing delivered anew |
| Server.WholeLife | udtcp/src/delete_server.c:33-83 | over creation, any polls and sends, and deletion: the state before the deletion is reached by steps from the initial one, the accounts of descriptors and buffers are even, for handshake reads that leave the accepted number in the entry, and `LifeOver` holds of the connections made with the waiting parties |
| ServerTheorems.FifoPerConnection | udtcp/src/server_poll.c:440-538 | in an orderly environment, if no header of that peer arrives alone, the payloads reported under an id are, in order, the first of those sent on that id's connection |
| ServerTheorems.ReportsAreRead | udtcp/src/server_poll.c:291-298 | in every environment what is reported under an id was read on that id's connection, in order, each byte at most once |
| ServerTheorems.FrameBoundaryIff | udtcp/src/server_poll.c:246-254 | after every run a live stream stands at a frame boundary, with exactly the reported payloads read, if and only if no read in the run took part of a frame and was mistaken for one that found nothing |
| ServerTheorems.StrayHeaderBreaksFifo | udtcp/src/server_poll.c:246-251 | a run of an orderly server from its initial state in which a payload that was never sent is reported |
| ServerTheorems.ReadToTheEnd | udtcp/src/server_poll.c:494-496 | exactly what was sent has been reported if and only if everything has been read |
| ServerTheorems.OwnConnection | udtcp/src/server_poll.c:130-136 | no two ids report from the same connection |
| ServerTheorems.TableAtBoundary | udtcp/src/server_poll.c:440-538 | bounds, live and distinct descriptors equal to `tcp_socket`, ids increasing and below `count_id`, as many entries as connects minus disconnects |
| ServerTheorems.OpenAtBoundary | udtcp/src/server_poll.c:112-159 | the open accepted descriptors are exactly those in the table |
| ServerTheorems.CallbackProtocol | udtcp/src/server_poll.c:187-192 | the callbacks of an id are none, one connect and data, or these and one final disconnect, exactly as it is unborn, in the table, or gone |
| ServerTheorems.UdpReportsRight | udtcp/src/server_poll.c:397-410 | after every run each UDP report is the declared payload of one well-formed datagram, for the first client that was in the table when it was taken and sends from its source, in queue order |
| ServerTheorems.UdpReportsAll | udtcp/src/server_poll.c:397-410 | and of the datagrams taken every well-formed one from a client then in the table is reported, once, under that client, as the next event after it was taken |
| ServerSteps.FirstClaim | udtcp/src/server_poll.c:301-318 | the owner found is the client with the smallest id that is in the table and sends from that address |
| ServerTheorems.UdpAttribution | udtcp/src/server_poll.c:301-318 | a client's datagram is attributed to it exactly if no earlier entry sends from the same address |
| ServerTheorems.ShortDatagramBlocks | udtcp/src/server_poll.c:342-350 | a datagram shorter than a header is never taken, and nothing behind it is ever delivered |
| ServerTheorems.LifeEnds | udtcp/src/delete_server.c:60-78 | when all is over: complete callbacks for every client, order for every client with a whole peer, every report read, whole frames written to every client, every datagram with its owner |
| ClientModel.AfterReadKeepsInv | udtcp/src/client_poll.c:34-147 | every end of a read keeps the client's stream accounted for |
| ClientModel.KeptKeepsInv | udtcp/src/client_poll.c:316-325 | a read that is taken for one that found nothing keeps it too; in an orderly environment it cuts the stream only inside a frame of which no more than the header has arrived |
| ClientModel.TakenKeepsInv | udtcp/src/client_poll.c:149-243 | the callbacks are the declared payloads of the well-formed datagrams taken, in order |
| ClientModel.FifoFromServer | udtcp/src/client_poll.c:138-146 | in an orderly environment, if no header of the server arrives alone, what a client reports is, in order, the first of what the server sent |
| ClientModel.DrainEndsExactly | udtcp/src/client_poll.c:313-332 | a faultless drain reports exactly what has arrived; the connection is dropped, kept, or kept with its stream cut exactly as the rest of what has arrived says |
| Client.UdtcpClient.Dial | udtcp/src/connect_client.c:187-229 | success, timeout or error exactly as `connect`, the wait for it and the test for a hang-up say |
| ClientModel.RunProtocol | udtcp/src/client_poll.c:297-360 | a run adds data and at most one disconnect, which is the last callback |
| Client.UdtcpClient.InitializeConnection | udtcp/src/connect_client.c:88-155 | success exactly with the server's whole record read and the client's sent, too many exactly with one byte; what each reply leaves in the record |
| Client.UdtcpClient.Connect | udtcp/src/connect_client.c:158-269 | success exactly if socket, option, `connect`, wait and handshake succeed, and each other result by the call that gave it; success gives a client at the start of its stream with the record read rewired; failure closes the socket of the attempt, exactly unless the host name is unknown |
| Client.UdtcpClient.ReceiveTcp | udtcp/src/client_poll.c:34-147 | reports the next frame, or nothing; the result is 1, 0 or -1; what it takes against what has arrived |
| Client.UdtcpClient.ReceiveUdp | udtcp/src/client_poll.c:149-243 | reports the datagram taken exactly if it is well formed |
| Client.UdtcpClient.Disconnect | udtcp/src/client_poll.c:245-270 | closes the socket if it is open, records -1, announces it |
| Client.UdtcpClient.ServeTcp | udtcp/src/client_poll.c:311-332 | the drain and its ends: the connection goes exactly if one of the reads met the end or failed for another reason than EWOULDBLOCK; when the stream can be cut, and in a faultless run exactly what is reported and whether the connection is dropped, kept, or kept cut |
| Client.UdtcpClient.ServeUdp | udtcp/src/client_poll.c:334-358 | the drain and its ends: the connection goes exactly if one of the reads met the end or failed for another reason than EWOULDBLOCK, so in a faultless run never when the queue is used up, and otherwise as the datagram it stopped at and the `errno` before say; no TCP payload is touched |
| Client.UdtcpClient.Poll | udtcp/src/client_poll.c:273-360 | an error exactly for a failed wait, an entry in trouble or a lost connection, lost exactly if a read demands it; otherwise what `poll` answered; data, then at most one disconnect at the very end; what is not readable is not read; in a faultless run all messages that had arrived when the wait ended are reported, unless the stream was cut before or carries empty ones, even if the connection is then lost, provided that the descriptor in the poll table is still the socket's, and otherwise none |
| Client.UdtcpClient.ThreadRun | udtcp/src/client_start_stop.c:34-49 | a run makes at most one disconnect callback, as its last; it polls on until the flag is cleared or a poll is an error or interrupted, and not once more after that |
| Client.UdtcpClient.Delete | udtcp/src/delete_client.c:33-71 | a socket still open is closed and announced, once; the buffer is freed |
| Client.UdtcpClient.WholeLife | udtcp/src/delete_client.c:33-71 | connection, run and deletion: one connect, data, exactly one disconnect; every report read from the connection, and in order the first of what was sent if the server is whole |
| Handshake.EveryRun | udtcp/src/server_poll.c:35-159 | every run of server and clients keeps the agreement |
| Handshake.AddedMeansAgreed | udtcp/src/server_poll.c:84-102 | a client in the table has reported success and holds the server's whole record, and the table holds that client's record |
| Handshake.SuccessMeansAdmitted | udtcp/src/connect_client.c:113-154 | a client that reports success met a table with room and holds the whole record |
| Handshake.TooManyMeansFull | udtcp/src/connect_client.c:124-136 | a client that reports too many met a full table, exactly unless it read one byte of the record |
| Handshake.OneByteLooksFull | udtcp/src/connect_client.c:126-135 | a run in which an empty table is reported as full |
| Handshake.AddedIffNothingMoreSent | udtcp/src/server_poll.c:74-88 | when a read returns all that has arrived, a successful client is added exactly if it has sent nothing behind its record |
| Handshake.NumberLeftIff | udtcp/src/server_poll.c:74-88 | the number in the entry when the error path closes it is that of the accepted socket if and only if the read stopped before the field `tcp_socket` or wrote the same number there |
| Handshake.RefusalCloses | udtcp/src/server_poll.c:154-159 | a refusal closes the refused client's descriptor exactly then, and otherwise that of any other client with the number left |
| Handshake.EvenIff | udtcp/src/server_poll.c:112-159 | over every run: at every moment the open descriptors are those of the table and of the client at hand if and only if every refused read left the right number |
| Handshake.SuccessMayBeRefused | udtcp/src/server_poll.c:74-88 | a run in which a client reports success and is refused, because the read returns one byte more than the record; its descriptor stays open exactly if its record holds another number |
| Handshake.NeverOverfull | udtcp/src/server_poll.c:111-128 | the table never exceeds its capacity |
| Senders.EveryRun | udtcp/src/send.c:33-102 | every interleaving keeps mutual exclusion, buffers, copies, order and output |
| Senders.WholeFramesInLockOrder | udtcp/src/send.c:62-102 | in every interleaving and under every sharing of slots, each connection carries whole frames, each call's own, in lock order |
| Senders.ResultOfEachCall | udtcp/src/send.c:62-102 | in every run a call that has returned has sent its frame exactly if none of its steps failed; otherwise it returns 0 for the lock or the allocation and -1 for the send |
| Senders.ReceiverSeesTheFirst | udtcp/src/send.c:62-80 | the frames in any part of the stream a receiver has seen are the first of those sent |
| Senders.OneHolder | udtcp/src/send.c:67-78 | two calls that hold their locks never work on the same slot or buffer |
| Senders.NoDeadlock | udtcp/src/send.c:62-102 | while a call has not returned some call can go on without anything failing |
| Senders.EachFreedOnce | udtcp/src/delete_server.c:52-59 | after any such run the deletion frees every send buffer, each exactly once |
| EndToEnd.ClientToServer | udtcp/src/send.c:62-80 | in an orderly environment, if no header of the client arrives alone, what the server reports under its id is, in order, the first of the payloads the client's threads sent, in lock order |
| EndToEnd.ServerToClient | udtcp/src/send.c:62-80 | the same for a client and the server's threads, with shared send slots |
| EndToEnd.DatagramToServer | udtcp/src/connect_client.c:247-257 | a datagram that a client sends through its entry goes to the server's receiving address, and once taken it has been reported under that client with the payload sent, exactly if the client was then in the table and no earlier one sends from the same address |
| EndToEnd.DatagramToClient | udtcp/src/server_poll.c:90-101 | a datagram that the server sends through a client's entry goes to where that client receives, from where it expects it, and once taken it has been reported with the payload sent |
| Lifecycle.EveryRun | udtcp/src/client_start_stop.c:34-82 | every run of caller and threads keeps the accounts of threads and flags |
| Lifecycle.AtApiBoundary | udtcp/src/client_start_stop.c:51-82 | `poll_loop` is set exactly when one created thread is unjoined; none is lost or joined twice |
| Lifecycle.ClientIsStarted | udtcp/src/client_start_stop.c:46-69 | between calls `is_started` says exactly whether a poll thread is running |
| Lifecycle.ServerIsStarted | udtcp/src/server_start_stop.c:48-69 | for a server it does so exactly unless, at some moment of the run with no thread created since, the thread had ended when the start came to set the flag |
| Lifecycle.StaleIsStarted | udtcp/src/server_start_stop.c:62-69 | a run in which the flag stays set for a thread that has ended |
| Lifecycle.BoundedWorkAfterStop | udtcp/src/client_poll.c:297-338 | for client and server, whatever the number of entries: after `poll_loop` is cleared one more poll is begun or one more receive completed, at most, and not both |
| Lifecycle.StopEnds | udtcp/src/client_start_stop.c:72-82 | then every step brings the thread nearer its end, and the join returns |
| Lifecycle.StopStops | udtcp/src/client_start_stop.c:72-82 | when a stop returns, in every interleaving, the flag is clear and every thread has ended and been joined |
| Lifecycle.StartCreates | udtcp/src/client_start_stop.c:51-70 | a start of what is stopped can create a thread that loops, with both flags set |
| Lifecycle.StartRefused | udtcp/src/client_start_stop.c:54-58 | a second start changes nothing |
| Lifecycle.LeavesLoop | udtcp/src/client_start_stop.c:40-45 | a thread leaves its loop exactly at a step that finds the flag clear or fails: a wait, or, for a client, an entry |
| Lifecycle.ThreadGoesOn | udtcp/src/client_start_stop.c:40-45 | in a run without such a step the thread goes on, after timeouts and failed reads of a server alike |

## Left out

- Compaction.Compact: the copies have the semantics of `memmove`, and each array has one element behind the table, because the code's `memcpy` has overlapping operands and reads that element.
- Server.UdtcpServer.InitializeConnection: of the reads of the client's record that do not return exactly a record, a short one or a long one of one byte more (as in `SuccessMayBeRefused`), the class has those that leave the accepted number in `tcp_socket`; the others, exactly those of `Handshake.NumberLeftIff`, make the error path close another number and are in `Handshake` only.
- Server.UdtcpServer.AcceptClient: closes the accepted socket once for those reads only; after the others it stays open, and the server may close another client's (`Handshake.RefusalCloses`).
- Server.WholeLife: closes every accepted descriptor once in runs with those reads only, which is the exact condition by `Handshake.EvenIff`; `Delete`, `Serve` and `Poll` start from states reached in such runs.
- Receive.ReceiveBuffer.ReceiveUdp: requires that header and declared payload are shorter than 4 GiB, the exact condition of `RoomIffFits`.
- Client.UdtcpClient.ReceiveUdp: requires the same of the datagrams in its queue, through `Shape`.
- Send.SendSlot.BufferCopy: requires a size that is `Sendable`, the exact condition of `RoomIffSendable`.
- Send.SendSlot.SendTcp: requires a size that is `Sendable`, as `BufferCopy` does.
- Send.SendSlot.SendUdp: requires a size that is `Sendable`, as `BufferCopy` does.
- Server.UdtcpServer.SendTcp: requires a size that is `Sendable`, as `BufferCopy` does.
- Server.UdtcpServer.SendUdp: requires a size that is `Sendable`, as `BufferCopy` does.
- EndToEnd.ClientToServer: that the receiver's stream is a first part of what the senders wrote is a hypothesis, the reliability of TCP; the same holds for `ServerToClient` and the two lemmas about datagrams.
- Client.UdtcpClient.ThreadRun: the number of polls of a run is bounded by a parameter, as are those of `Server.UdtcpServer.ThreadRun` and `Serve`; what other parties send in one run is finite but arbitrary.
- Client.UdtcpClient.Delete: is for a client that has been connected; `udtcp_create_client` records a socket that it has already closed, so for others the number of closes is not one.
- Partial sends: `send` sends everything or fails; the library never retries.
- Creation of client and server beyond the state they leave: sequences of calls to socket, bind and setsockopt.
- Host names, IP strings, ports kept as text or twice, byte order of addresses, logging, the bodies of callbacks, `shutdown`, signals and poll timeouts other than as return codes.
- Host byte order: a header is little-endian; both ends are assumed to agree on it, as the library does.
- The bytes of the handshake are in `Handshake`; in the classes the exchange is one call that returns a record or fails, and the bytes of a connection are those after it.
- A client's own sends through its one slot: `SendSlot` is the same code.
- Races between the poll thread and a sender that keeps a pointer into `infos` across a compaction: a send slot belongs to a connection.
- Weak memory order of `poll_loop` and `is_started`: their reads and writes are single steps.
