# A model of the messaging server's sessions, relations and chains

This project models three parts of the server and proves properties of the models.

**The socket side.** A router connection carries frames. `Codec` and `Frames` are the body codec
and the framing loop, `Heartbeat` is the byte-numbered heartbeat, `Dispatch` routes frames into the
channels of websocket sessions, `Shards` and `Delivery` are the sharded table of those channels and
the race between deleting a channel and sending on it, on channels that fill up. `Receiver` is the
goroutine that owns one session's `last_timestamp` and `message_queue`; `ReceiverLaws` and
`ReceiverEnds` are what it keeps on its own and when it ends. `Gate` lets it interleave with the
dispatch loop and the router, and `GateLaws` shows that its part of that is a run of its own.
`Session` and `SessionLaws` follow one session over any chain of reconnections. `DispatchLaws` is
about the bytes on the wire and on the channels, `Messages` about the text keys of the queue.

**The store.** `Relations` has the two mirrored rows of a pair of users, the chain membership table
and the messages, changed by request, accept, remove and send; `RelationLaws` states what every run
keeps, `RelationLists` is the mapper that turns rows into three sorted lists.

**The reader.** `Chains` is the paging of a chain.

Loops and objects of the program are Dafny methods and classes with the same variables, each proved
equal to a specification function; the laws are lemmas about those functions and about runs of them.

## Where the code does something else than it is documented to do

The models follow the code. Where its intent is documented, or plain, the intended variant is a
value of a parameter, and lemmas state how the two differ.

- *Acknowledgements* (`Receiver.AckRule`). The program deletes the key held by a variable that is
  never assigned, so an acknowledgement removes nothing (`ReceiverLaws.AckEffect`), and "an
  acknowledged message has left the queue" holds exactly when it was not queued
  (`ReceiverLaws.AckAsWrittenFails`). Every other law is proved for both variants.
- *Id collisions* (`Shards.HomeRule`). After a collision the new id is stored in the first
  candidate's shard. Answers stay those of one plain map exactly when that is the new id's own shard
  (`Shards.StepRefines`, `Shards.RunRefinesExactly`); otherwise that answer or the next lookup of the
  id differs, and the entry is unreachable and can duplicate a live id.
- *Missing sessions* (`Dispatch.RefuseRule`). The program refuses op 31 instead of the request, op 30.
- *Opening the gate* (`Gate.OpenOrder`). FLUSH is sent before the gate is stored. A message that
  arrives in between stays unwritten with the gate open; nothing else does
  (`Gate.WaitingMessages`, `Gate.WindowArrivalIsStuck`), and with the opposite order nothing does
  (`Gate.NothingStuckWhenStoredFirst`).
- *Refresh notices*. A refused message whose op is outside 200..399 gets no notice at all
  (`ReceiverLaws.EveryPayloadIsAccounted`); the API sends no such message.
- *Accepting*. Accept checks no request and request keeps the friend column, so an accept sent first
  turns one's own later request into a friendship (`RelationLaws.FriendshipWithoutConsent`).
- *Sending in the same millisecond*. Messages are keyed by chain and millisecond, so a second send in
  one millisecond destroys the first message (`RelationLaws.SameMillisecondReplaces`). A send keeps
  what is stored exactly when nothing else is stored for its millisecond
  (`RelationLaws.SendKeepsExactly`); runs whose sends are at different times lose nothing
  (`RelationLaws.MessagesSurvive`).
- *Requests to oneself*. Nothing forbids them, and they are the only requests after which a pair's rows
  are not mirrored (`RelationLaws.RequestMirrorsExactly`).
- *A receiver that has ended*. After a failed client write nothing takes from the channel, which holds
  four items. Once it is full, the next router delivery to it waits for ever with the shard's read lock, and the
  session cannot be deleted (`Delivery.StuckHappens` is such a run, `Delivery.StuckHoldsTheShard` and
  `Delivery.DeliveredUnlessStuck` are its consequence and its exact condition).
- *Acknowledgements of any text*. A client may acknowledge a signature of another length, whose text
  can be the key of another message; this is the only way to remove a message not named
  (`Messages.AckRemovesItsOwn`).

## Assumptions about the surroundings

- The router answers only heartbeats that were sent, in order; timers are handled in the order they
  were started, and at most 254 later heartbeats are sent before one is handled
  (`Heartbeat.WindowIsTight` shows that 255 is too many). Replies to the API side carry at least the
  four bytes behind the version that it reads.
- Once the router has sent a session op 30 it feeds it no more, it forwards the op-30 state
  unchanged in op 31, and it puts no item with op byte 0 on a channel. Between its answer to a
  recovering connection's op 21 and that op 31 it sends that connection nothing; anything else there
  makes `connect_user` fail.
- Each database handler is one atomic step, a new TimeUUID is new, the clock does not run backwards,
  and the stored creation time is the message's own millisecond. A send reads the clock once: the
  program computes the expiry some milliseconds before it makes the message id, so the stored expiry
  can fall that much short of whole days after the creation. A day has 24 hours.
- JSON is read by given functions, with the state decoded to what was encoded.
- Channels have a capacity in `Delivery` only. Elsewhere they are unbounded, which leaves out that a
  sender waits at a full one: while the receiver runs this delays it, after the receiver has ended it
  is the state that `Delivery.StuckHoldsTheShard` describes.

## Model

| member | source | states |
|---|---|---|
| Codec.ByteToParamsAndPayload | socket/conn_helpers.go:16-57 | the parser returns the fields between the first delimiters, the payload behind them, and the right error with what was filled so far |
| Codec.ScanParams | socket/conn_helpers.go:30-53 | the parser's one pass finds exactly the cuts at the first n (or n - 1) delimiters; the "expected less parameters" branch is never reached |
| Codec.PayloadRoundTrip | socket/conn_helpers.go:16-76 | colon-free params and any payload, colons included, are parsed back from the packaged body |
| Codec.PayloadParse | socket/conn_helpers.go:37-56 | a payload parse succeeds iff there are n delimiters; its params are colon-free and re-join with the payload to the input |
| Codec.ParamsRoundTrip | socket/conn_helpers.go:30-56 | params without payload come back iff the last is not empty; only the last may hold colons |
| Codec.ParamsParse | socket/conn_helpers.go:30-56 | without payload it succeeds iff there are n delimiters, or n - 1 and something after the last |
| Codec.ParamsRejoin | socket/conn_helpers.go:30-36 | what a successful parse without payload returns re-joins to the input |
| Codec.PackageOp | socket/conn_helpers.go:59-76 | the filled buffer is op, size modulo 2^32, params, delimiter only if both parts are given, payload |
| Bytes.FourBytes | socket/conn_helpers.go:67-71 | the size field is big-endian, byte by byte |
| Codec.BodyLayouts | socket/conn_helpers.go:18-76 | the four layouts of a body byte by byte, and what parsing for no parameters takes or refuses |
| Frames.ReadTcp | socket/socket_client.go:223-260 | the read loop consumes exactly the complete frames of the stream |
| Frames.StreamRoundTrip | socket/socket_client.go:230-252 | decoding the concatenation of any frames with fitting bodies gives exactly those frames |
| Frames.RoundTripExactly | socket/conn_helpers.go:59-76 | a list of frames comes back from the wire iff every body is shorter than 2^32 |
| Frames.DecodeIsExact | socket/socket_client.go:230-252 | any stream is the encoding of its decoded ops followed by one incomplete rest |
| Frames.DecodedIsSentAgain | socket/socket_client.go:230-252 | what any stream decodes to can be encoded again and decodes to itself, so the two are mutually inverse |
| Frames.DecodeResumes | socket/socket_client.go:230-252 | decoding can stop anywhere and resume with the unread rest |
| Frames.PrefixDecodesToPrefix | socket/socket_client.go:230-252 | a byte prefix of a stream decodes to the prefix of its ops that fits |
| Frames.MixedStreamRoundTrip | messages/api_client.go:222-243 | package_op frames and hand-built 18- and 14-byte heartbeats, mixed, are read back as meant |
| Frames.FillBeat | socket/socket_client.go:300-309 | refilling the reused buffer gives the next heartbeat frame whatever it held |
| Frames.BeatFieldsRoundTrip | socket/socket_client.go:307-309 | version, time and count come back from a heartbeat at their offsets |
| Frames.ApiBeatRoundTrip | messages/api_client.go:222-243 | version and time come back from the API's heartbeat at their offsets |
| Frames.OversizedFrameIsMisread | socket/conn_helpers.go:67-71 | one frame comes back as it was put in iff its body is shorter than 2^32; a longer body is read cut to its size modulo 2^32 |
| Heartbeat.HeartbeatCheck | socket/socket_client.go:332-362 | the select loop stops at the first mismatch, timeout or malformed reply, in both copies of it |
| Heartbeat.HeartbeatWorker | socket/socket_client.go:293-330 | the k-th heartbeat written carries k modulo 256, from one reused buffer |
| Heartbeat.WorkerIsRead | socket/socket_client.go:296-309 | the worker's bytes decode to one op-1 frame per tick and nothing else, the k-th with version k modulo 256 and its own time and count |
| Heartbeat.WorkerAndCheckerAgree | socket/socket_client.go:296-353 | the checker accepts an echo of everything the worker wrote, and then expects the next number |
| Heartbeat.FirstInput | socket/socket_client.go:342-359 | what each input does to the checker: ends it on another number, an expected timer or a reply too short, goes on otherwise |
| Heartbeat.SteadyIsRegular | socket/socket_client.go:293-362 | heartbeats each answered before their timer run on past every wrap-around without an error |
| Heartbeat.MissedReply | socket/socket_client.go:354-358 | a reply missing when its timer is handled is a timeout |
| Heartbeat.CheckerFollowsTrace | socket/socket_client.go:340-360 | the checker fed by a trace of worker, router and timers ends with the trace's outcome |
| Heartbeat.TimerExact | socket/socket_client.go:354-358 | inside the window, handling timer k raises an error iff reply k has not been accepted |
| Heartbeat.TimerCongruent | socket/socket_client.go:354-358 | in general it raises an error iff the accepted replies are congruent to k - 1 modulo 256 |
| Heartbeat.StepKeepsInv | socket/socket_client.go:348-353 | in-order replies never raise a version mismatch |
| Heartbeat.WrappedRefinesIdeal | socket/socket_client.go:293-362 | over every run the byte counters behave as unbounded ones |
| Heartbeat.HeartbeatsAreExact | messages/api_client.go:326-369 | from the start: an error iff some timer fires before its reply is accepted, and no other error |
| Heartbeat.WindowIsTight | socket/socket_client.go:320-326 | one heartbeat beyond the window, with every reply in, the timer reports a timeout |
| Messages.AckMatchesKey | socket/websocket.go:118 | with signatures of one length an ack text is a queue key iff signature and timestamp agree, for signed timestamps too |
| Messages.KeyInjective | socket/websocket.go:242 | signature plus decimal timestamp is injective |
| Messages.AckIsNoCommand | socket/websocket.go:156-186 | no acknowledgement is FLUSH, SET_TIMER or the empty text |
| Messages.NoLeadingZero | socket/websocket.go:242 | a timestamp is written without leading zeros |
| Messages.SignedInjective | socket/websocket.go:118 | signed timestamps are written each in their own way, negative ones behind a minus |
| Messages.LengthsMustAgree | messages/message.go:16 | signatures of different lengths collide exactly when the longer one goes on with the first digits of the other's timestamp |
| Messages.QueueRefinesIds | socket/websocket.go:242 | queueing by text refines queueing by signature and timestamp |
| Messages.AckRefinesIds | socket/websocket.go:185-186 | deleting any text removes the one id it names, if any |
| Messages.AckRemovesItsOwn | socket/websocket.go:118-186 | an acknowledgement removes its own id and no other iff its signature has the API's length or its text is no key, for negative timestamps too |
| Receiver.Connection.Flush | socket/websocket.go:157-179 | collects, sorts and writes the queue in a valid order, stopping at the first failed write |
| Receiver.Connection.OnPayload | socket/websocket.go:214-252 | refuses, queues and writes a payload with the three branches of the code |
| Receiver.Connection.Process | socket/websocket.go:148-253 | one turn of the loop is one step of the receiver, for every item |
| Receiver.Connection.MsgChanRecv | socket/websocket.go:132-256 | the loop is the run of those steps until the channel or the receiver ends |
| Receiver.ServedIsTheRun | socket/websocket.go:147-252 | a run serves every item up to the first that ends the receiver and none behind it |
| ReceiverEnds.EndsExactly | socket/websocket.go:173-179 | an item ends the receiver iff a write it needs fails, and closes the connection iff it is op 30, op 32 or a payload whose write fails |
| ReceiverEnds.RunEndsExactly | socket/websocket.go:147-252 | after a run the receiver is running iff no write failed, and then it served every item |
| ReceiverEnds.UndisturbedGoesOn | socket/websocket.go:147-252 | on an open connection that nothing closes, with writes going through, every item is served and the receiver goes on |
| ReceiverEnds.FlushWritesAsFar | socket/websocket.go:157-179 | a FLUSH writes the first of the ordered messages as far as the writes go through, and changes nothing else |
| ReceiverEnds.PayloadWritten | socket/websocket.go:222-250 | a payload adds its account, and behind it itself as written iff accepted at an open gate with its write going through |
| ReceiverEnds.SavesExactly | socket/websocket.go:190-208 | op 30 saves clock and queue under the parameters it came with, and nothing else saves |
| ReceiverEnds.OthersChangeNothing | socket/websocket.go:155-213 | what the remaining items leave as it is |
| ReceiverEnds.FlushOrderExists | socket/websocket.go:162-171 | every queue has an order for a FLUSH to write it |
| Receiver.SortByTimestamp | socket/websocket.go:169-171 | the sorted slice holds the same queue entries by non-decreasing timestamp |
| ReceiverLaws.ReceiveKeepsQueue | socket/websocket.go:155-252 | entries stay under their keys and below last_timestamp, which never falls; only an ack removes |
| ReceiverLaws.AckEffect | socket/websocket.go:185-186 | as written an ack changes nothing; as documented it removes just its message |
| ReceiverLaws.AckAsWrittenFails | socket/websocket.go:139-186 | as written an acked message is gone iff it was not queued |
| ReceiverLaws.AsWrittenQueueOnlyGrows | socket/websocket.go:139-186 | over a whole run as written nothing leaves the queue, and every atomic payload served is in it |
| ReceiverLaws.RunRefinesIds | socket/websocket.go:132-256 | over any run, with acknowledgements of any text, the text-keyed queue and its clock are those of a queue kept by signature and timestamp that was given the items served |
| ReceiverLaws.FlushWritesEachOnce | socket/websocket.go:157-179 | FLUSH writes each queued message once, in timestamp order, and keeps the queue |
| ReceiverLaws.EveryPayloadIsAccounted | socket/websocket.go:224-252 | over any run the log gains, in order, exactly one account for each payload served: refused iff it is not atomic, the gate was open and it was overtaken by the clock or an earlier payload, with notice 3101 for every kind the API sends; queued otherwise |
| ReceiverLaws.PayloadOutcome | socket/websocket.go:224-242 | what one payload leaves: the later timestamp as clock, and the queue with it under its key, or untouched when it is refused |
| ReceiverLaws.ReceiveKeepsLiveOrder | socket/websocket.go:224-245 | non-atomic messages queued with the gate open are newer than all queued before |
| ReceiverLaws.ReceiveKeepsWaiting | socket/websocket.go:157-252 | what is queued and unwritten was queued with the gate closed, after the last FLUSH |
| ReceiverLaws.ClosedReachesNobody | socket/websocket.go:205-213 | after the connection is closed no later item reaches the client |
| Gate.WaitingMessages | socket/websocket.go:110-114 | over every interleaving an unwritten message was accepted at a closed gate after the last FLUSH, and with the gate open in the window between FLUSH and store |
| Gate.WindowArrivalIsStuck | socket/websocket.go:112-114 | a message is left unwritten behind an open gate iff it arrived in that window and no FLUSH followed |
| Gate.UnwrittenExactly | socket/websocket.go:157-250 | the latest acceptance of a key is unwritten iff the gate was closed and no FLUSH was served since |
| Gate.NothingHandedOverWaits | socket/websocket.go:110-114 | over every interleaving, with the gate open and no FLUSH on the channel, every queued message, handed over ones included, was queued or written on this connection |
| Gate.HandedOverExactly | socket/websocket.go:157-179 | a message handed over and not queued again here has been written here iff a FLUSH was served |
| Gate.StuckExample | socket/websocket.go:112-114 | a run that leaves a message unwritten with the gate open and the channel empty |
| Gate.NothingStuckWhenStoredFirst | socket/websocket.go:112-114 | storing the gate before sending FLUSH leaves nothing stuck in any run |
| GateLaws.GateFollowsClient | socket/websocket.go:108-114 | over every interleaving, in both orders, the gate is the value last stored, stored is what the client asked for, each payload was queued under the value last stored before it, and none is refused or written after a closing |
| GateLaws.InterleavingIsReceiverRun | socket/websocket.go:108-252 | the receiver's part of any interleaving is a run of the receiver alone over what was put on the channel, first in first out, with the gate as then stored |
| GateLaws.AccountsOverInterleavings | socket/websocket.go:224-252 | total accounting over every interleaving |
| GateLaws.EveryoneCanMove | socket/websocket.go:84-153 | receiver, client and router can always go on |
| Session.HandoverConserves | socket/websocket.go:191-205 | over any chain of recoveries the state is in one place and equals a queue that never moved; each successor starts with exactly the state serialised; no recovery takes an error path |
| Session.NothingIsLost | socket/websocket.go:191-205 | a message is in the session's queue iff it was accepted, not replaced and not acked |
| Session.AsWrittenKeepsAll | socket/websocket.go:185-186 | as written every message ever accepted stays queued along the chain |
| Session.ReplayExact | socket/websocket.go:238-242 | the never-moved queue holds exactly the messages still owed, below its clock |
| Session.StepKeepsInv | socket/websocket.go:324-398 | every event of router, clients and receivers keeps the handover invariant |
| Session.ClockNeverGoesBack | socket/websocket.go:238-240 | last_timestamp never decreases, wherever the state is |
| Session.LiveWritesAscend | socket/websocket.go:224-245 | across all handovers live non-atomic writes strictly ascend and exceed everything accepted before |
| Session.WaitingAlongTheChain | socket/websocket.go:59-63 | the gate laws hold for what is accepted on any connection of a chain |
| Session.HandedOverAlongTheChain | socket/websocket.go:59-63 | and for what its predecessor handed over: written on the connection iff it served a FLUSH, as it has behind an open gate with none on its way |
| Session.JoinStartsGate | socket/websocket.go:57-63 | an installed connection starts with a sound queue and the gate closed |
| SessionLaws.PayloadsFlowInOrder | socket/websocket.go:191-205 | over any chain of recoveries, read along the chain, what connections have settled and what waits there is what the router sent, once each and in order |
| SessionLaws.LiveIsComplete | socket/websocket.go:244-250 | the live writes whose order is stated are all that any connection made |
| SessionLaws.RouterPutsOne | socket/websocket.go:191-213 | each event of the router puts its one item last on the channel it is for, and no other connection changes |
| SessionLaws.RecoveryGoesOn | socket/websocket.go:324-398 | a recovery under way can always go on unless the old receiver has ended, and otherwise one can start |
| SessionLaws.RecoveryExample | socket/websocket.go:191-205 | a run of a whole recovery |
| Dispatch.ConnectUser | socket/websocket.go:324-398 | the handshake on raw channel items decides exactly as its typed specification |
| DispatchLaws.NewSession | socket/websocket.go:340-355 | on bytes: a new session starts empty and has to refresh, on exactly the answer op 20 "1" |
| DispatchLaws.RecoveryAnswered | socket/websocket.go:359-370 | on bytes: a recovery answered by another op or nothing fails; by another parameter than "1" it starts empty and refreshes |
| DispatchLaws.StateMissing | socket/websocket.go:371-381 | on bytes: answered "1", anything but an op 31 with a delimiter fails |
| DispatchLaws.StateAnswered | socket/websocket.go:382-389 | on bytes: op 31 with "1" brings the state and no refresh, with another parameter an empty start |
| DispatchLaws.RefreshUnlessRecovered | socket/websocket.go:327-389 | the client is spared the refresh iff a state was received |
| DispatchLaws.ItemsByOp | socket/websocket.go:155-215 | what the receiver takes from each op byte and the bytes behind it |
| DispatchLaws.CommandBytes | socket/websocket.go:30-38 | the two commands as bytes on the channel |
| Dispatch.Socket.SocketOp | socket/socket_op.go:8-50 | one frame is counted, routed to the named inbox, refused or ignored as the code does |
| Dispatch.Socket.ServeStream | socket/socket_client.go:230-260 | the dispatch over a byte stream is that over its decoded frames |
| Dispatch.PayloadIsRouted | socket/socket_op.go:10-34 | a routed frame reaches the inbox it names, whole, and nothing else changes but the counter |
| DispatchLaws.OneOp | socket/socket_op.go:8-34 | what one frame of any op does, on bytes; the program crashes exactly on an empty payload |
| DispatchLaws.StreamIsRouted | socket/socket_client.go:254-259 | over any stream it survives, each channel gains exactly the payloads that name it, in order, and the checker gets exactly the op-1 bodies |
| DispatchLaws.StateFrames | socket/socket.go:112-121 | the bytes of the state frame and of its refusal |
| Dispatch.StateRequestToMissing | socket/socket_op.go:36-45 | a state request to a missing session is ignored as written, refused with its own parameters as meant |
| Dispatch.StateReplyToMissing | socket/socket_op.go:36-45 | as written a forwarded state to a missing session is refused with "1" and the state as parameters |
| Dispatch.ReceivedCounts | socket/socket_client.go:254-258 | the reported counter is the number of op-51 frames since the last heartbeat reply, modulo 2^32 |
| Dispatch.HandoverFrameRoundTrip | socket/socket.go:112-121 | the handover frame is read back as both ids, "1" and the very state of the receiver |
| Dispatch.ForwardedStateArrives | socket/websocket.go:371-389 | through framing, routing and parsing connect_user ends up with exactly the forwarded state |
| Dispatch.HandoverArrives | socket/websocket.go:191-205 | end to end: the state read out of a connection's op-30 frame and sent on unchanged is the clock and queue its successor starts with |
| Shards.ShardTable.constructor | socket/socket.go:27-35 | 32 empty tables |
| Shards.ShardTable.CreateConnection | socket/socket.go:37-68 | the retry loop stores the channel under the first candidate free in the shard looked at, and keeps that shard's lock when the generator fails |
| Shards.ShardTable.DeleteConnection | socket/socket.go:70-85 | removes the id from its own shard and returns its channel |
| Shards.ShardTable.Lookup | socket/socket_op.go:25-31 | finds the channel in the id's own shard |
| Shards.StepRefines | socket/socket.go:46-63 | one operation, and a lookup of the id it creates, answer as on a plain map iff a created id is stored in its own shard |
| Shards.RunRefines | socket/socket.go:23-85 | over every such run, for any hash, answers and contents are those of one map |
| Shards.RunRefinesExactly | socket/socket.go:23-85 | a run cannot be told from that of one map, probed by any lookup at any time, iff every created id is stored in its own shard |
| Shards.OwnShardIsAtHome | socket/socket.go:46-63 | storing in the id's own shard always meets the condition |
| Shards.StrayIsUnreachable | socket/socket.go:46-63 | as written an entry outside its shard can be neither found nor deleted |
| Shards.StrayCanDuplicate | socket/socket.go:46-63 | as written two live connections can get one id |
| Delivery.DeliveryIsSafe | socket/socket.go:70-85 | in every interleaving tables hold open channels, no delivery sends on a closed one, none is closed twice |
| Delivery.ChannelsAreConserved | socket/socket.go:70-85 | each channel ever made is in a table, taken out by one deleter who can close it, or closed once |
| Delivery.LockIsNeeded | socket/socket_op.go:27-34 | the read lock excludes the removal that would otherwise make a delivery send on a closed channel |
| Delivery.StuckHoldsTheShard | socket/socket_op.go:27-34 | a delivery to the full channel of an ended receiver keeps its shard locked in every continuation: nothing is created or removed there again |
| Delivery.DeliveredUnlessStuck | socket/socket_op.go:27-34 | a delivery that found its channel can still be made iff the channel has room or a receiver |
| Delivery.DeliveriesShareTheLock | socket/socket_op.go:25-34 | any number of deliveries may hold a shard at once, and each goes on as its lookup says |
| Delivery.WritersWaitForReaders | socket/socket.go:45-77 | a session comes or goes in a shard exactly when no delivery holds it |
| Delivery.StuckHappens | socket/socket_op.go:27-34 | a run from the start after which a delivery is stuck, in any shard |
| Relations.Store.RequestRelation | services/relation.services.go:27-105 | the named columns of the two rows are written and no other row changes; nothing changes when the user is unknown |
| Relations.Store.AcceptRelation | services/relation.services.go:108-179 | both rows get the existing or a new chain, friendship and now as both marks, no other row changes, and membership is inserted for a new chain |
| Relations.Store.InsertChainsUsers | helpers/chain.helpers.go:89-110 | the batch adds every user to the chain's members |
| Relations.InsertMemberIsInsert | helpers/chain.helpers.go:89-110 | inserting a member keeps the list ascending, each once, and adds just the one |
| Relations.Store.RemoveRelation | services/relation.services.go:182-228 | both rows lose friend, requested and active and keep the rest, and no other row changes |
| Relations.Store.AddAudioMessage | services/chain_messages.services.go:18-115 | behind the middleware: limits, message row, then the two marks |
| Relations.StepKeepsInv | services/relation.services.go:27-228 | every handler keeps mirror, chains, membership and marks |
| RelationLaws.MirrorOverRuns | services/relation.services.go:27-228 | after any run the two rows agree, and the relation is active iff exactly one side has requested |
| RelationLaws.SelfRequestBreaksMirror | services/relation.services.go:40-90 | from any store, a request to oneself leaves one active row that nobody requested |
| RelationLaws.RequestMirrorsExactly | services/relation.services.go:40-90 | a request leaves its two rows mirrored iff it is to somebody else |
| RelationLaws.NamesOverRuns | services/relation.services.go:33-90 | with honest callers every active row names the user on its other side |
| RelationLaws.ChainIsForever | services/relation.services.go:113-166 | a pair's chain id survives every later operation |
| RelationLaws.ChainsAreTheirPairs | helpers/relation.helpers.go:94-116 | a chain's members are its pair, and different pairs have different chains |
| RelationLaws.PeerResolution | middlewares/chain.middlewares.go:18-34 | the middleware gives each member the other and rejects everyone else |
| RelationLaws.ResolvesExactly | middlewares/chain.middlewares.go:18-34 | the three answers of the middleware, for any list of members |
| RelationLaws.PeersAreMutual | middlewares/chain.middlewares.go:18-34 | being someone's peer on a chain is mutual and never oneself |
| RelationLaws.MarksBoundMessages | services/chain_messages.services.go:68-115 | last_recv and last_seen bound every message of the sender, which keeps its limits |
| RelationLaws.SendOutcome | services/chain_messages.services.go:29-115 | a send is accepted exactly from a member within the limits, and stores the message as given, to expire after the days asked for if 1 to 59 and after 60 otherwise; refused it changes nothing |
| RelationLaws.OthersAreUntouched | services/relation.services.go:27-228 | an operation changes no row but its pair's and no messages but its chain's |
| RelationLaws.TimesOverRuns | services/chain_messages.services.go:95-112 | after any run no row is marked later than the clock |
| RelationLaws.SameMillisecondReplaces | server.go:194-210 | messages of one chain in one millisecond replace each other |
| RelationLaws.SendKeepsExactly | services/chain_messages.services.go:68-89 | an accepted send keeps everything stored in its chain iff nothing is stored for this millisecond or it is the same message |
| RelationLaws.MessagesSurvive | services/chain_messages.services.go:68-89 | over any run whose sends each come after the step before, no message is lost or altered |
| RelationLaws.AcceptMakesFriends | services/relation.services.go:108-166 | accepting makes friends iff the relation was active, whoever had asked |
| RelationLaws.RequestMakesFriends | services/relation.services.go:40-90 | requesting makes friends at once iff the friend column was set |
| RelationLaws.FirstRequest | services/relation.services.go:40-90 | a first request leaves no chain, no friendship and both marks null |
| RelationLaws.FriendshipWithoutConsent | services/relation.services.go:27-179 | a run that makes friends without the other side |
| RelationLaws.RemovedPeersStillSend | services/relation.services.go:182-228 | removing ends the friendship but leaves the chain open to both |
| RelationLists.RelationsMapper | helpers/relation.helpers.go:16-90 | the scan and the three sorts compute the mapped lists |
| RelationLists.SortStableSorts | helpers/relation.helpers.go:71-87 | the sort is ascending, a permutation, and keeps the order of equal keys |
| RelationLists.MapperPartitions | helpers/relation.helpers.go:31-87 | the lists are a sorted partition of the user's active rows |
| RelationLists.ListsInOrder | helpers/relation.helpers.go:71-87 | friends by latest message first, requests by newest first, requested by oldest first |
| RelationLists.ShownAsStored | helpers/relation.helpers.go:40-64 | an active row shows with exactly its own columns |
| RelationLists.ListedByRow | helpers/relation.helpers.go:38-64 | which list a user appears in is what the row says |
| RelationLists.ListsAgree | helpers/relation.helpers.go:31-87 | after any run, friends list each other, and one's requested is the other's request |
| RelationLists.RequestShows | services/relation.services.go:38-90 | a request shows on both sides, with its time and under the other's name |
| RelationLists.AcceptShows | services/relation.services.go:126-162 | accepting an active relation lists each as the other's friend on one chain, marked now |
| RelationLists.RemoveHides | services/relation.services.go:187-217 | after a remove neither lists the other anywhere |
| RelationLists.SenderComesFirst | helpers/relation.helpers.go:83-87 | a message to a friend brings the sender to the head of the recipient's list, or level with it |
| Chains.GetChain | helpers/chain.helpers.go:15-87 | clamp, query, copy and in-place reversal give the page |
| Chains.ReverseInPlace | helpers/chain.helpers.go:79-84 | the swaps reverse the slice |
| Chains.NewestPage | helpers/chain.helpers.go:42-47 | the newest page is the last min(limit, 10) messages up to the request time, ascending |
| Chains.DownPage | helpers/chain.helpers.go:34-39 | a page down is the last min(limit, 10) messages before the request time, ascending |
| Chains.UpPage | helpers/chain.helpers.go:27-32 | a page up is the first min(limit, 10) messages after the request time |
| Chains.PageSize | helpers/chain.helpers.go:19-23 | a page has as many messages as there are on its side, up to the limit and to ten |
| Chains.OneDirection | services/chain.services.go:43-57 | asked for one direction only, the service answers with the window on that side of the request time |
| Chains.PageDown | helpers/chain.helpers.go:34-39 | a page down is as full as can be and what it omits is older than all of it |
| Chains.JoinedPages | services/chain.services.go:40-57 | both pages joined ascend strictly and are contiguous but for a message at the request time |
| Chains.PageBackListsAll | services/chain.services.go:50-57 | paging back through the service's answers to desc alone lists everything older than the cursor once, in order, and ends |
| Chains.BrowseListsAll | services/chain.services.go:31-57 | from the newest page on, paging back lists the whole chain up to the request time |
| Chains.SentIsLast | services/chain_messages.services.go:68-89 | a message sent later than all others is listed last and nothing else moves |

## Left out

- Dialing, reconnecting and the recovery loops of both router connections: network behaviour.
- JWT, encryption, Redis tokens, registration, login and the token exchange of a new websocket.
- JSON encoding itself; audio bytes in the object store; HTTP parsing of parameters.
- GetAudioMessage's background updates: the rows its conditional update affects are not determined by the code shown.
- The halves of a handler interleaving, or a handler stopping between its statements.
- A recovery the router refuses, or a session removed after an hour: these end a session's chain and lose its queue by design.
- After a failed connect_user the program goes on with a removed session; the steps after that failure.
- Sends of the dispatch loop on a channel being deleted.
- Shards.ShardTable.CreateConnection: like the other calls, is about calls that get their lock; one on a shard in `held` waits for ever, and the runs of Shards have no locks.
- Dispatch.Socket.SocketOp: inboxes are unbounded, so it does not say that a send to a full channel waits; Delivery covers that.
- Dispatch.PayloadIsRouted: the same, for a full channel whose receiver has ended.
- Delivery.DeliveryIsSafe: covers router deliveries only, because the dispatch loop sends without holding the table's lock.
- Session.HandoverConserves: says nothing of a connection whose client write failed before it handed over; its state then stays where it is.
- Shards.StepRefines: hashing is any function, FNV-1a is not computed.
- Receiver.SortByTimestamp: stands for the library's unstable sort; the laws hold for every order it may choose.
