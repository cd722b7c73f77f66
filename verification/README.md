# A verified model of the pipewave realtime core

Pipewave is a realtime gateway: containers hold WebSocket connections, deliver messages to
users wherever they are connected, buffer what arrives while a session is away, and call a
backend over webhooks. This project models the parts of it in which something has to stay
true while many goroutines, containers or replicas interleave, and proves what those parts
promise, for all inputs and all runs.

| file | models |
|---|---|
| `Wire.dfy`, `Envelope.dfy` | the v1 binary frame, its encoder and decoder, requests and responses |
| `PendingMessages.dfy` | the pending-message table and its hand-over between containers |
| `MessageHub.dfy`, `TwoLevel.dfy` | the registry of absent sessions and its expiry timers |
| `Drain.dfy` | delivery of buffered messages to a new connection while senders race for it |
| `Acks.dfy` | acknowledgement channels and their routing between containers |
| `Handoff.dfy` | graceful shutdown racing the close callback |
| `Netpoll.dfy` | the connection cap and the right to read from a one-shot descriptor |
| `WorkerPool.dfy`, `HealthMonitor.dfy` | the bounded worker pool, its monitor and its configuration, and the setters of the health flag |
| `AsyncDispatcher.dfy`, `SyncCaller.dfy` | webhook delivery with retries, and calls behind a circuit breaker |
| `Migrations.dfy` | schema migrations run by racing replicas |
| `BatchWrite.dfy` | DynamoDB batch writes with retries, and the range delete built on them |
| `Indexes.dfy`, `CallbackRaces.dfy` | the connection manager's and the rate limiter's tables, and the callbacks and Gets that race for them |
| `Sessions.dfy`, `Common.dfy` | who a session is; option and result values, runs of a state machine, ordered sets |

## How it is modelled

An object whose methods update its fields is a class here, with the source's branches and
loops, and each method is proved against a function of the old state. What several
goroutines do to such an object is a state machine with one event per atomic operation or
locked section. Its `Step` is total: an event whose guard is false changes nothing, so that
every sequence of events is a run (`Runs.Exec`), and a theorem about all sequences is a
theorem about all interleavings. `After(es)` is the state a run `es` leads to.

Theorems about all runs say what never happens. Beside them stand laws of what does happen:
from every reachable state in which an operation can go ahead undisturbed, it ends in the
state the source promises. What a state remembers of its run is tied to the run's own events
by `Runs.Ever` (some event did it) and `Runs.Since` (some event did it and none undid it).

Integers of the source are unbounded here; the lengths and bytes of the wire format, the
64-bit range of a migration version and the truncating division of the configuration are
written out. Clocks, random identifiers, failures of a store, of the network or of a write,
and what other goroutines do in between are parameters or events. A session is its user ID
and instance ID as text; identifiers of containers, acknowledgements, callbacks, tasks and
registrations are numbers, because only their identity matters.

## Where the code does less than one expects

The code is modelled as it is. Each of these has a run that shows it, and the exact
condition under which the promise does hold.

- `msg-hub/service.go:155-158` says that a message saved between a Consume's read and its
  delete has a later send time and survives. The time is read before the row is written, so
  it need not be later (`PendingHandoff.LateInsertIsLost`). Nor does a second save with the
  same time get a row. `PendingHandoff.NoSavedMessageIsLost` and
  `PendingHandoff.UnsafeStepLosesAMessage` say exactly when a message is lost.
- Consume deletes before anything is written. A failed write loses a consumed message
  (`PendingHandoff.FailedWriteIsLost`), exactly if there is no other copy of it
  (`PendingHandoff.FailedWriteLosesExactly`).
- The generation check of an expiry timer guards the registry entry, not the callback: the
  timer of an earlier absence can still make its call during a later one, overtaken before
  its locked section or after it (`HubTimers.StaleExpiryHappens`,
  `HubTimers.OvertakenCallHappens`, `HubTimers.CallIsOvertakenExactly`), and then deletes what
  was buffered for the later one (`PendingHandoff.StaleExpiryIsLost`,
  `PendingHandoff.ExpirySafeExactlyIfCurrent`).
- Pending messages are filed under user and instance joined by a colon. Sessions whose IDs
  hold colons can share a key, and then get each other's messages
  (`PendingHandoff.ColonLeaks`, `PendingHandoff.ReceivesExactlyOnSharedKey`).
- `mediator/delivery/0.new.go:269-271` says that graceful shutdown has handled the session
  when a callback finds the flag up. That fails for a callback that removed its connection
  before shutdown listed the manager (`Handoff.NeitherMayWrite`), exactly unless the session
  came back before the listing (`Handoff.NeitherWritesExactlyUnlessBack`). A session that
  came back is written by both (`Handoff.ReadmissionLetsBothWrite`,
  `Handoff.BothWriteExactlyIfBack`).
- `server/gobwas/1_server.go:210-228` re-arms a connection after a read and after a refused
  task, so that it never stalls. A handler that panics, or a failed Resume, loses the right
  to read for good (`ReadToken.PanicLosesTheToken`, `ReadToken.LostTokenNeverReturns`);
  nothing else does (`ReadToken.LostExactlyByFault`, `ReadToken.NeverStalls`).
- The queue monitor acts on crossings only, so a flag set from elsewhere can stand against
  the level (`HealthMonitor.OverrideIsMissed`, `HealthMonitor.EdgesAreLevelsExactly`). And it
  acts on them while the container shuts down, so the flag that Shutdown took down can go up
  again (`HealthMonitor.ShutdownIsUndone`, `HealthMonitor.ShutdownStaysUnhealthyExactly`).
- The setters of the health flag take no lock. Two calls that overlap can write the history
  twice or the wrong way round (`HealthRaces.TakenDownTwice`, `HealthRaces.OverlapIsWhatBreaks`).
- Callbacks of one session can overlap: a connection can be closed before its own
  new-connection callback is through, and the close callback of an old connection can come
  after its successor was added. The manager and the limiter's file can then disagree for
  good (`CallbackRaces.ClosedBetweenItsVisits`, `CallbackRaces.LateCloseUnfiles`,
  `CallbackRaces.FileMatchesUnlessCrossed`), and an open connection can be missing from the
  manager (`CallbackRaces.LateCloseHidesSuccessor`, `CallbackRaces.EntryIsTheConnectionExactly`).
- A Get of the rate limiter that finishes after its session's close callback files the
  session again (`CallbackRaces.StrayGetStays`).
- `provider/postgres/migrations/migrations.go:90-102` accepts version 0, which a release
  without migrations already counts as applied (`MigrationRuns.AppliedExactlyOnce`).

One more difference needs no run: the comments at `mediator/delivery/0.new.go:269-271` and
above `Shutdown` in `mediator/service/3.shutdown.go` say that shutdown registers each session
with the message hub; the code does not, so no step of `Handoff` does.

## Model

| member | source | states |
|---|---|---|
| `Wire.HeaderIsBitwiseOr` | core/service/websocket/wire/encode.go:19-51 | the arithmetic header byte is the or of version and flag bits, for every choice of flags |
| `Wire.MasksAreBitwiseAnd` | core/service/websocket/wire/decode.go:12-15 | version and flags taken arithmetically are those the masks 0x0F and 0xF0 select, for all 256 bytes |
| `Wire.Encode` | core/service/websocket/wire/encode.go:8-80 | succeeds exactly if every field is within its limit, fails only with "field too long", writes the layout of the format, and fills exactly the capacity computed up front |
| `Wire.SizeOf` | core/service/websocket/wire/encode.go:33-48 | the size added up field by field before writing is that of the layout, exactly |
| `Wire.AppendType` | core/service/websocket/wire/encode.go:53-58 | a control frame gets a zero length and its code, any other its type with a length byte |
| `Wire.AppendShort` | core/service/websocket/wire/encode.go:61-72 | a non-empty field is appended with a one-byte length, an empty one leaves no trace |
| `Wire.AppendError` | core/service/websocket/wire/encode.go:73-76 | the same with a two-byte big-endian length |
| `Wire.ErrorLengthIsBigEndian` | core/service/websocket/wire/encode.go:73-76 | the two bytes before an error text are the high and the low byte of its length, in this order, for all lengths |
| `Wire.Decode` | core/service/websocket/wire/decode.go:8-92 | the cursor-based decoder computes the recursive description of the format on every input, malformed ones included, without an index or slice out of bounds |
| `Wire.DecodeFieldsAt` | core/service/websocket/wire/decode.go:17-91 | the fields after the header, from any position of the input |
| `Wire.ReadTypeAt` | core/service/websocket/wire/decode.go:20-34 | reads a message type or control code and leaves the cursor where it ends, or fails exactly if the input is too short |
| `Wire.ReadShortAt` | core/service/websocket/wire/decode.go:36-48 | reads one short field likewise |
| `Wire.ReadErrorAt` | core/service/websocket/wire/decode.go:72-83 | reads the error field likewise |
| `Wire.HeaderRoundTrip` | core/service/websocket/wire/frame.go:8-21 | a header byte gives back its version and its flags |
| `Wire.HeaderOfFlags` | core/service/websocket/wire/frame.go:8-21 | a version-1 byte is the header of its own flags |
| `Wire.DecodesLayout` | core/service/websocket/wire/decode.go:8-92 | every layout of a frame decodes to it, also one that announces empty fields |
| `Wire.RoundTrip` | core/service/websocket/wire/encode.go:8-80 | decoding what the encoder writes gives the frame back, up to a control code that has no meaning beside a message type |
| `Wire.ControlVectors` | docs/wire-vectors-v1.json:2-70 | control frames, empty and with a binary part, are the published bytes |
| `Wire.OptionalFieldsVector` | docs/wire-vectors-v1.json:43-54 | the frame with all optional fields is the published bytes, which fixes their order |
| `Wire.AcceptsOnlyLayouts` | core/service/websocket/wire/decode.go:8-92 | whatever the decoder accepts is a layout of the frame it returns, with all fields within their limits |
| `Wire.NormalForm` | core/service/websocket/wire/decode.go:8-92 | an accepted input re-encodes, to no more bytes, decoding to the same frame, and to the same bytes exactly if it announces no empty field |
| `Wire.TrailingBytesAreBinary` | core/service/websocket/wire/decode.go:85-91 | bytes appended to an accepted input only extend its binary part |
| `Wire.TruncationIsMalformed` | core/service/websocket/wire/decode.go:3-6 | an accepted input cut anywhere before its binary part is reported malformed |
| `Envelope.ControlCodesInvert` | core/service/websocket/0.message_type.go:26-47 | a type has a code exactly if it is the type of that code, and the codes without a type are exactly those that no type has |
| `Envelope.ControlTypesOnTheWire` | core/service/websocket/0.message_type.go:26-63 | heartbeat and ack travel as the codes 0xCA and 0xCB, and every other type travels as itself |
| `Envelope.MessageTypeSurvives` | core/service/websocket/0.message_type.go:49-70 | every message type comes back out of the frame it was put into |
| `Envelope.MarshallResponse` | core/service/websocket/0.message_type.go:83-91 | nil exactly if a field is over its limit, else the layout of the response's frame |
| `Envelope.MarshallRequest` | core/service/websocket/0.message_type.go:125-131 | the same for requests |
| `Envelope.UnmarshallResponse` | core/service/websocket/0.message_type.go:105-117 | fails exactly as the decoder does, else gives the frame's fields |
| `Envelope.UnmarshallRequest` | core/service/websocket/0.message_type.go:145-154 | the same for requests |
| `Envelope.ResponseRoundTrip` | core/service/websocket/0.message_type.go:83-117 | unmarshalling a marshalled response is the identity, and it marshals exactly if its fields fit, control types always fitting |
| `Envelope.RequestRoundTrip` | core/service/websocket/0.message_type.go:125-154 | the same for requests |
| `PendingStore.Query` | core/repository/impl-postgres/pending_message/get_all.go:12-50 | the rows of the session, all of them and no others, in strictly ascending send time |
| `PendingStore.LastIsLargest` | core/repository/impl-postgres/pending_message/get_all.go:12-50 | the last time read bounds every row of the session |
| `PendingStore.DeletesWhatWasRead` | core/repository/impl-postgres/pending_message/delete_up_to.go:14-28 | deleting up to the last time read deletes the session as it was read, no less and no more |
| `PendingStore.SessionKeysCollide` | core/repository/impl-postgres/pending_message/0.1.new.go:30-32 | two sessions share a table key exactly if they are equal or one is the other with a colon moved; user IDs without a colon never collide |
| `PendingRepository.PendingMessageRepo.Create` | core/repository/impl-postgres/pending_message/create.go:13-33 | a new row, unless its key is taken, in which case it reports success and keeps the old one |
| `PendingRepository.PendingMessageRepo.GetAll` | core/repository/impl-postgres/pending_message/get_all.go:12-50 | all messages of the session in order and the largest time, or failure exactly on a failing query, row or stream |
| `PendingRepository.PendingMessageRepo.ScanRows` | core/repository/impl-postgres/pending_message/get_all.go:31-49 | the row loop: nothing partial is ever returned |
| `PendingRepository.PendingMessageRepo.DeleteUpTo` | core/repository/impl-postgres/pending_message/delete_up_to.go:14-28 | exactly the session's rows up to the given time go, or none |
| `PendingRepository.PendingMessageRepo.Consume` | core/service/websocket/msg-hub/service.go:142-167 | with nobody else at the table: fails exactly if the read does; else the whole session in order, and no row of it but every other row left, unless the delete fails |
| `PendingHandoff.OnlySavedInOrder` | core/service/websocket/msg-hub/service.go:129-167 | in every run every batch returned holds messages saved under that session's table key, in ascending send time |
| `PendingHandoff.ReceivesExactlyOnSharedKey` | core/repository/impl-postgres/pending_message/0.1.new.go:30-32 | one session can be given what was saved for another exactly if they share a table key |
| `PendingHandoff.ColonFreeGetsItsOwn` | core/repository/impl-postgres/pending_message/0.1.new.go:30-32 | in every run, sessions whose user IDs hold no colon get their own messages only |
| `PendingHandoff.ColonLeaks` | core/repository/impl-postgres/pending_message/0.1.new.go:30-32 | a run in which user "a:b" with instance "c" is given what was saved for user "a" with instance "b:c" |
| `PendingHandoff.NoSavedMessageIsLost` | core/service/websocket/msg-hub/service.go:129-176 | in every interleaving of saves, reads, deletes, writes to the socket, expiry calls and clean-ups, failing or not, whose saves and expiry calls are safe, each saved message is in the table, in a reader's hand, written or about to be, gone with its own session when the registration in force ran out, or past its time to live, or a write of it has failed |
| `PendingHandoff.SaveStores` | core/service/websocket/msg-hub/service.go:129-140 | in any state, a save whose key is free is stored as given |
| `PendingHandoff.ReconnectGetsEverything` | core/service/websocket/msg-hub/service.go:142-167 | after any run, a reconnect nobody interferes with writes every stored message of the key to the socket, in ascending send time, and leaves none of them and every other row |
| `PendingHandoff.OutdatedExactly` | core/repository/impl-postgres/pending_message/cleanup.go:12-26 | a message counts as outdated exactly after a clean-up, by the events of the run, that met it past its time to live |
| `PendingHandoff.ExpiredExactly` | core/service/websocket/mediator/delivery/0.new.go:285-294 | a message counts as expired exactly after an expiry call for the registration in force that met it |
| `PendingHandoff.FailedWriteLosesExactly` | core/service/websocket/mediator/delivery/0.new.go:223-231 | after any run, a failing write loses a consumed message in every continuation exactly if no row, read, other write or expiry of it exists |
| `PendingHandoff.FailedWriteIsLost` | core/service/websocket/mediator/delivery/0.new.go:223-231 | for every session, a run in which the table behaves and a consumed message is lost by its write |
| `PendingHandoff.UnsafeStepLosesAMessage` | core/service/websocket/msg-hub/service.go:155-158 | safety is necessary too: after any run, an unsafe save or expiry call has a continuation, at most one delete long, after which a message whose save reported success is gone for every future |
| `PendingHandoff.GoneForever` | core/service/websocket/msg-hub/service.go:142-167 | a message that is nowhere stays nowhere, whatever follows |
| `PendingHandoff.IncreasingStampsAreSafe` | core/service/websocket/msg-hub/service.go:129-131 | a time above all times saved under the key makes a save safe in every reachable state |
| `PendingHandoff.ExpirySafeExactlyIfCurrent` | core/service/websocket/mediator/delivery/0.new.go:285-294 | where no other session shares the key, an expiry call is safe exactly if its registration is in force or nothing of the session waits to be read |
| `PendingHandoff.LateInsertIsLost` | core/service/websocket/msg-hub/service.go:155-158 | for every session, a run in which a save stamped before but written after a read is deleted unread |
| `PendingHandoff.StaleExpiryIsLost` | core/service/websocket/mediator/delivery/0.new.go:285-294 | for every session, a run in which the timer of a first absence deletes what was saved during the second |
| `PendingHandoff.DeletersAccount` | core/repository/impl-postgres/pending_message/cleanup.go:12-26 | a safe expiry call and any clean-up take no message out of account |
| `PendingHandoff.CleanUpKeepsExactly` | core/repository/impl-postgres/pending_message/cleanup.go:12-26 | a clean-up that goes through keeps a row, unchanged, exactly if its time to live has not ended |
| `PendingHandoff.ExpiryKeepsExactly` | core/service/websocket/msg-hub/service.go:169-176 | an expiry call that goes through keeps a row, unchanged, exactly if it has another key, and comes once |
| `PendingHandoff.DueExactly` | core/service/websocket/msg-hub/service.go:70-88 | in every run an expiry call is still to come exactly if its registration was made and its timer has neither called nor quit |
| `PendingHandoff.CurrentExactlySince` | core/service/websocket/msg-hub/service.go:56-103 | in every run a registration is in force exactly since it was made and until its session comes back or leaves anew |
| `PendingHandoff.MadeExactly` | core/service/websocket/msg-hub/service.go:56-68 | and it is one of that session exactly if an event of the run made it so |
| `HubRegistry.LookupPut` | core/service/websocket/msg-hub/service.go:61-67 | registering changes the flat map at one session and leaves no empty inner map |
| `HubRegistry.LookupDrop` | core/service/websocket/msg-hub/service.go:91-103 | so does deregistering |
| `HubRegistry.MessageHub.Register` | core/service/websocket/msg-hub/service.go:56-68 | a new generation replaces the session's entry, and exactly the replaced one is cancelled |
| `HubRegistry.MessageHub.TimerFired` | core/service/websocket/msg-hub/service.go:74-85 | the entry goes exactly if it still carries the timer's generation |
| `HubRegistry.MessageHub.Deregister` | core/service/websocket/msg-hub/service.go:91-103 | the entry goes and is cancelled, and an emptied inner map goes with it |
| `HubRegistry.MessageHub.IsRegistered` | core/service/websocket/msg-hub/service.go:105-113 | answers the flat map |
| `HubRegistry.MessageHub.GetSessions` | core/service/websocket/msg-hub/service.go:115-127 | lists each registered instance of the user exactly once |
| `HubRegistry.MessageHub.Shutdown` | core/service/websocket/msg-hub/service.go:178-203 | empties the registry and cancels exactly what it held |
| `HubTimers.RegistryMatchesTimers` | core/service/websocket/msg-hub/service.go:56-103 | in every reachable state, shutdown's cancel loop included, a registration stands and is neither cancelled nor about to be exactly if it is its session's entry; no inner map is empty; with an empty registry every registration that stands is cancelled or about to be |
| `HubTimers.CancelledExactlyAfter` | core/service/websocket/msg-hub/service.go:61-103 | in every run a registration is cancelled exactly after its replacement, its deregistration, or its turn in the loop of shutdown |
| `HubTimers.CancellingExactlySince` | core/service/websocket/msg-hub/service.go:178-203 | in every run that loop has it ahead exactly since shutdown took it and until its turn |
| `HubTimers.AtMostOneLiveTimer` | core/service/websocket/msg-hub/service.go:61-68 | in every reachable state, of the timers of a session at most one stands that is neither cancelled nor about to be cancelled by shutdown |
| `HubTimers.StaleTimerRemovesNothing` | core/service/websocket/msg-hub/service.go:74-85 | a fired timer takes out its own registration or nothing, in any state |
| `HubTimers.InForceExactlySince` | core/service/websocket/msg-hub/service.go:60-103 | in every run a registration is its session's entry exactly since it was entered and until it is replaced, deregistered, taken by shutdown or expired |
| `HubTimers.LockedSectionIsCurrentExactly` | core/service/websocket/msg-hub/service.go:75-84 | after any run, the locked section of a chosen timer finds its own registration in force exactly if no deregistration, later registration or shutdown has taken it |
| `HubTimers.CallIsOvertakenExactly` | core/service/websocket/msg-hub/service.go:84-85 | after any run, a timer past its locked section makes its expiry call whatever comes between, its own registration no longer in force, and meets another one of its session in force exactly if one was entered and has not left since |
| `HubTimers.CalledAtMostOnce` | core/service/websocket/msg-hub/service.go:70-88 | in every run each registration makes its expiry call at most once, and never if its task has quit |
| `HubTimers.StaleExpiryHappens` | core/service/websocket/msg-hub/service.go:73-87 | for every session, a run in which a timer overtaken before its locked section makes its call with the next registration in force |
| `HubTimers.OvertakenCallHappens` | core/service/websocket/msg-hub/service.go:84-85 | for every session, a run in which a timer never cancelled is overtaken between its locked section and its call |
| `TwoLevel.DropBySize` | core/service/websocket/msg-hub/service.go:94-102 | shrinking the inner map and dropping it at size zero is dropping the pair from the flat map |
| `Drain.DrainableConnection.DeliverPending` | core/service/websocket/mediator/delivery/0.new.go:203-241 | what is written is the part of the buffer whose write succeeded, in order, and the lock is free afterwards |
| `Drain.BufferedBeforeLive` | core/service/websocket/mediator/delivery/0.new.go:203-241 | in every interleaving with senders, buffered messages come out in buffer order and nothing passed to Send comes before every one of them was tried |
| `Drain.LiveMeansFullyDrained` | core/service/websocket/server/gobwas/1_type.go:83-105 | if no direct write failed, a live message on the socket means the whole buffer is before it |
| `Drain.DrainBegins` | core/service/websocket/mediator/delivery/0.new.go:203-211 | a new connection takes its own lock and is registered under it, without waiting |
| `Drain.PendingIsConsumed` | core/service/websocket/mediator/delivery/0.new.go:216-223 | in every run the buffer that is written is exactly what the event of Consume returned |
| `Drain.DrainWritesEverything` | core/service/websocket/mediator/delivery/0.new.go:216-241 | from every reachable state with the connection registered, consuming any messages, writing each well and ending puts exactly them on the socket, in order, and frees the lock |
| `Drain.FailedWriteIsSkipped` | core/service/websocket/mediator/delivery/0.new.go:223-230 | a failed write leaves the socket alone, and the next message is next |
| `Drain.SendGoesThrough` | core/service/websocket/server/gobwas/1_type.go:83-90 | after any run, a sender that finds the drained connection writes its message and leaves no lock behind |
| `Drain.RefusedIsNeverRegistered` | core/service/websocket/mediator/delivery/0.new.go:198-201 | a connection the store refuses is never registered nor found, whatever follows |
| `Drain.UnregisteredIsNotFound` | core/service/websocket/mediator/delivery/0.new.go:257 | a connection out of the manager is found by no sender |
| `Drain.NobodyIsStuck` | core/service/websocket/server/gobwas/1_type.go:83-105 | in every reachable state the drainer gets the lock at once, and after it every waiting sender gets through |
| `Drain.ReplyMayComeFirst` | core/service/websocket/server/gobwas/2_frame_handle.go:110-112 | a run in which the frame handler's reply, which takes no lock, precedes the buffer |
| `AckManagers.AckManager.CreateAck` | core/service/websocket/ack-manager/ack_manager.go:26-35 | an open channel of its own, to which acks with the new ID go from now on, and no other acks |
| `AckManagers.AckManager.Take` | core/service/websocket/ack-manager/ack_manager.go:39-44 | hands out the channel once: it is open and no longer on file |
| `AckManagers.AckManager.ResolveAck` | core/service/websocket/ack-manager/ack_manager.go:38-51 | true exactly if the ID was on file; then its channel is closed, without closing a closed one, and no other |
| `AckManagers.AckManager.WaitForAck` | core/service/websocket/ack-manager/ack_manager.go:54-68 | true only once the channel is closed; after a timeout no later ack finds the call, and acks with other IDs go where they went |
| `AckManagers.AckManager.RegisterRemoteAck` | core/service/websocket/ack-manager/ack_manager.go:73-77 | from now on an ack with the ID goes to the source container, unless a call waits for it here, whose ack is not diverted; no other ack goes elsewhere than before |
| `AckManagers.AckManager.HandleAck` | core/service/websocket/client-msg-handler/0_main_handler.go:151-167 | an ack frame is used once, where it goes: the call waiting here is released, or the ack is published to its source, or nothing happens; an empty ID does nothing |
| `AckManagers.AckManager.ResolveRemoteAck` | core/service/websocket/ack-manager/ack_manager.go:81-89 | gives the source once |
| `AckManagers.AckManager.Shutdown` | core/service/websocket/ack-manager/ack_manager.go:93-105 | closes every pending channel, each once, and empties both tables |
| `AckRouting.NoChannelIsClosedTwice` | core/service/websocket/ack-manager/ack_manager.go:38-105 | over any number of containers, calls, acks, bus messages lost, repeated or reordered, timeouts and shutdowns, no event of any run closes a channel that is closed already, or one twice |
| `AckRouting.AckedMeansAClientAcked` | core/service/websocket/client-msg-handler/0_main_handler.go:145-167 | in every run a call returns true only if some container handled a client's ack frame with its very ID, or its own container was shut down with the call on file |
| `AckRouting.AckedExactlyByClient` | core/service/websocket/client-msg-handler/0_main_handler.go:145-167 | an ID counts as acked exactly after an event in which a container handles its ack frame |
| `AckRouting.ReleasedExactlyByShutdown` | core/service/websocket/ack-manager/ack_manager.go:93-105 | a call counts as released exactly after a shutdown that met it on file |
| `AckRouting.ShutdownLooksLikeAnAck` | core/service/websocket/ack-manager/ack_manager.go:93-100 | the exception is real for every container and ID |
| `AckRouting.AckGetsThrough` | core/service/websocket/mediator/service/1.send_with_ack.go:15-84 | from every reachable state in which a call waits, its channel on file, being closed or closed, an ack handled at its container, or at any container its message reached, makes the call return true once the bus delivers |
| `AckRouting.SendReachesTarget` | core/service/websocket/mediator/service/1.send_with_ack.go:36-48 | after any run, a send that is published and delivered files the caller's container at the target, and the call waits |
| `AckRouting.AckFromTargetGetsThrough` | core/service/websocket/mediator/service/1.send_with_ack.go:15-84 | the whole way: published, delivered, waited for, acked by a client at the target and routed back, the call returns true |
| `AckRouting.CreateFiles` | core/service/websocket/ack-manager/ack_manager.go:26-35 | after any run, a new ID has an open channel of its own on file, and no other call is disturbed |
| `AckRouting.LocalSendFiles` | core/service/websocket/mediator/service/1.send_with_ack.go:27-35 | a local send files the caller's own container and changes nothing else |
| `AckRouting.TimeoutForgets` | core/service/websocket/ack-manager/ack_manager.go:54-68 | a call that times out returns false, is off file, and closes nothing |
| `AckRouting.GivenUpReturnsFalse` | core/service/websocket/mediator/service/1.send_with_ack.go:74-81 | a call without a session found returns false and its channel is on its way to be closed |
| `AckRouting.RoutedOnce` | core/service/websocket/client-msg-handler/0_main_handler.go:151-167 | an ack of a remote call is published to its source, which is thereby used up |
| `AckRouting.UnknownAckIsDropped` | core/service/websocket/client-msg-handler/0_main_handler.go:151-167 | an ack nobody waits for changes nothing but having been seen |
| `AckRouting.ShutdownClosesItsOwn` | core/service/websocket/ack-manager/ack_manager.go:93-105 | a shutdown closes every channel on file at its container and empties its tables, and no other container's |
| `AckRouting.RemoteAckTakes` | core/service/websocket/broadcast-msg-handler/1_ack_resolved.go:9-11 | the three hops of a remote ack end with the caller's channel about to be closed |
| `AckRouting.RegisterRemoteKeeps` | core/service/websocket/broadcast-msg-handler/1_send_to_session_with_ack.go:12-29 | registering a delivered send keeps what every run keeps: one place per channel, genuine acks, reachable waiters |
| `AckRouting.AbandonKeeps` | core/service/websocket/mediator/service/1.send_with_ack.go:74-81 | so does giving up a call whose session was not found |
| `AckRouting.TimeOutKeeps` | core/service/websocket/ack-manager/ack_manager.go:54-68 | so does a timeout racing the ack |
| `AckRouting.StopKeeps` | core/service/websocket/ack-manager/ack_manager.go:93-105 | so does the shutdown of a container |
| `Handoff.BothWriteExactlyIfBack` | core/service/websocket/mediator/delivery/0.new.go:249-283 | in every run, a callback that got past the flag test and shutdown both write its session exactly if, by the run's events, it was admitted again, and not removed again, between that callback's removal and the listing |
| `Handoff.NeitherWritesExactlyUnlessBack` | core/service/websocket/mediator/delivery/0.new.go:257-274 | in every run, a callback that removed before the listing and found the flag up leaves its session unlisted, to nobody, exactly unless it came back in that sense |
| `Handoff.LateCallbackNeverWrites` | core/service/websocket/mediator/delivery/0.new.go:257-274 | in every run, a callback that removes after the listing never writes, and a connection it removed was listed or was admitted after the listing |
| `Handoff.TransferringSticks` | core/service/websocket/mediator/service/3.shutdown.go:25-69 | after any run, a record marked Transferring stays so in every continuation without a reconnect exactly if no callback of the session stands between the flag test and its write |
| `Handoff.ReadmissionLetsBothWrite` | core/service/websocket/mediator/delivery/0.new.go:257-283 | from every reachable state with a callback past the test and no listing yet, a reconnect and a shutdown make both write, and the callback's status is what remains |
| `Handoff.NeitherMayWrite` | core/service/websocket/mediator/delivery/0.new.go:257-274 | from every reachable state with a callback just out of the manager and its session not back, raising the flag before the test leaves the session unlisted and its record as it was |
| `Handoff.CallbackSettles` | core/service/websocket/mediator/delivery/0.new.go:257-283 | after any run, an undisturbed close callback takes its session out of the manager; the record of an anonymous one goes; any other becomes TempDisconnected, or goes if that fails, before the flag is up, and is left alone after |
| `Handoff.FlagExactly` | core/service/websocket/mediator/service/3.shutdown.go:28-29 | the flag is up exactly after MarkShuttingDown |
| `Handoff.ConnectedExactlySince` | core/service/websocket/mediator/delivery/0.new.go:211-258 | in every run a session is in the manager exactly since it was admitted and until a callback of it removes it |
| `Handoff.ListsExactly` | core/service/websocket/mediator/service/3.shutdown.go:45-46 | shutdown lists the authenticated sessions in the manager, all of them, and only with the flag up |
| `Handoff.MarkedOnce` | core/service/websocket/mediator/service/3.shutdown.go:48-55 | a session is to be marked exactly since the listing that had it and until its one transfer |
| `Handoff.TransferMarks` | core/service/websocket/mediator/service/3.shutdown.go:60-69 | a transfer makes an existing record Transferring if the update succeeds, and touches no other record |
| `Handoff.Mediator.ShutdownAuthenticated` | core/service/websocket/mediator/service/3.shutdown.go:45-69 | every listed session is noted; no record appears or goes; exactly the records of listed sessions whose update succeeded become Transferring |
| `ConnectionCap.CapIsExact` | core/service/websocket/server/gobwas/1_server.go:82-96 | in every run of concurrent accepts and closes the counter is the number of slots held, and a positive cap is never exceeded |
| `ConnectionCap.ReleasedExactlyOnce` | core/service/websocket/server/gobwas/1_server.go:98-206 | over all failure exits and racing closes a reservation is released once when it ends, and not before |
| `ConnectionCap.RejectedExactlyWhenFull` | core/service/websocket/server/gobwas/1_server.go:86-90 | an accept is turned away exactly if all slots are held when it looks |
| `ConnectionCap.AcceptGetsInExactly` | core/service/websocket/server/gobwas/1_server.go:82-96 | after any run, an accept nobody interferes with gets a slot exactly if one is free or there is no cap, and is rejected exactly otherwise |
| `ConnectionCap.LostRaceTriesAgain` | core/service/websocket/server/gobwas/1_server.go:91-95 | a compare-and-swap that finds another value leaves the counter and goes back to the load |
| `ConnectionCap.FailureExitsFreeTheSlot` | core/service/websocket/server/gobwas/1_server.go:119-179 | after any run, each failure exit before registration gives back the slot |
| `ConnectionCap.OpensAndCloses` | core/service/websocket/server/gobwas/1_server.go:180-206 | a connection that gets through holds its slot until its close, and a second close does nothing |
| `ConnectionCap.StartFailureIsClosed` | core/service/websocket/server/gobwas/1_server.go:194-203 | one whose registration fails gives the slot back by Close, and not by releaseSlot as well |
| `ConnectionCap.NetpollServer.ReserveSlot` | core/service/websocket/server/gobwas/1_server.go:82-96 | under any interference, the call succeeds exactly if the value the counter held when it decided was below the cap, and then leaves one more than that; else it changes nothing |
| `ConnectionCap.NetpollServer.NewConnection` | core/service/websocket/server/gobwas/1_server.go:98-206 | whichever step fails, slot, watched descriptor and client are kept exactly on success; accepted and closed connections balance; only a full server counts a rejection, and only a failed start runs the close callback |
| `ConnectionCap.NetpollServer.RemoveClient` | core/service/websocket/server/gobwas/1_server.go:361-387 | the call that wins the closed flag gives the slot back, unwatches the descriptor, closes the socket and runs the callback; every other call changes nothing |
| `ReadToken.OneToken` | core/service/websocket/server/gobwas/1_server.go:157-246 | in every reachable state an open connection's right to read is in one place or lost to a fault, and at most one worker reads |
| `ReadToken.NeverResumesStoppedDescriptor` | core/service/websocket/server/gobwas/1_server.go:232-246 | no event of any run is a Resume of a stopped or closed descriptor, however Close interleaves |
| `ReadToken.NeverStalls` | core/service/websocket/server/gobwas/1_server.go:209-230 | after every run without a fault, on every schedule, fewer than five events take effect before an open connection is armed again or closing, and it always has a move of its own, even if the pool accepts nothing more |
| `ReadToken.ReadCycle` | core/service/websocket/server/gobwas/1_server.go:209-230 | after any run that leaves the connection open and armed, an event the pool accepts is read by one worker with the descriptor disarmed, and then everything is as before |
| `ReadToken.RefusedCycle` | core/service/websocket/server/gobwas/1_server.go:219-229 | one the pool refuses is not queued, and re-arming leaves everything as before |
| `ReadToken.HangupTearsDown` | core/service/websocket/server/gobwas/1_server.go:184-189 | a hang-up closes the connection and takes the descriptor down, with no token left |
| `ReadToken.CloseDisarms` | core/service/websocket/server/gobwas/1_server.go:361-387 | a close takes the flag; an armed descriptor is then disarmed, and a resume that finds the flag gives up |
| `ReadToken.LostExactlyByFault` | core/service/websocket/server/gobwas/1_server.go:209-246 | in every run the token is lost exactly if a handler panicked while reading or a Resume failed |
| `ReadToken.LostTokenNeverReturns` | core/service/websocket/server/gobwas/1_server.go:243-245 | after a run with such a fault the connection is never read again, whatever follows |
| `ReadToken.PanicLosesTheToken` | core/service/websocket/server/gobwas/1_server.go:210-217 | a run in which the first handler panics and the connection stays open and deaf |
| `WorkerPool.TasksAreAccountedFor` | pkg/worker-pool/1_worker_pool.go:18-53 | in every run the accepted tasks are those started, in submission order, then those queued; started ones are running or finished; drops are the refusals |
| `WorkerPool.NeverSendsOnClosed` | pkg/worker-pool/1_worker_pool.go:95-107 | in no run does a submission meet the closed queue with its send, which would panic |
| `WorkerPool.SubmitAcceptsExactly` | pkg/worker-pool/1_worker_pool.go:36-53 | after any run, an undisturbed submission is accepted, last in the queue, exactly if the pool is not closed and has room; else it counts as dropped |
| `WorkerPool.WorkerRunsTheOldest` | pkg/worker-pool/1_worker_pool.go:18-30 | after any run, an idle worker takes the oldest task, runs it and is idle again |
| `WorkerPool.WorkerLeavesExactly` | pkg/worker-pool/1_worker_pool.go:18-30 | a worker leaves exactly when it is idle on the closed, empty queue |
| `WorkerPool.CloseProceeds` | pkg/worker-pool/1_worker_pool.go:98-107 | after any run, Close gets the exclusive lock exactly when no submission is inside, closes flag and queue together, and returns exactly when all workers have left |
| `WorkerPool.CloseCanReturn` | pkg/worker-pool/1_worker_pool.go:95-107 | however a run got Close to wait, steps of the workers alone let it return, with the same tasks accepted |
| `WorkerPool.CloseWaitsForEveryTask` | pkg/worker-pool/1_worker_pool.go:98-107 | when Close has returned every accepted task has run exactly if there was a worker, or no task |
| `WorkerPool.ResolveWorkers` | provider/worker-pool-provider/worker_pool.go:31-39 | the provider always starts at least one worker, and by default at least eight and one per processor |
| `WorkerPool.Pool.Submit` | pkg/worker-pool/1_worker_pool.go:36-53 | true exactly if the pool is open with room, and then the task is last in the queue; else it counts as dropped |
| `WorkerPool.Pool.WorkOff` | pkg/worker-pool/1_worker_pool.go:18-30 | a worker runs what is left of a closed queue, in order, and ends |
| `HealthMonitor.Healthy.SetHealthy` | provider/healthy-provider/healthy.go:51-61 | the history grows exactly on a change |
| `HealthMonitor.Healthy.SetUnhealthy` | provider/healthy-provider/healthy.go:63-76 | the same in the other direction |
| `HealthMonitor.Healthy.MonitorQueue` | pkg/worker-pool/1_worker_pool.go:64-93 | among other writers of the flag whose calls do not overlap, the loop leaves it after every event as the run of the events does, and the history alternates |
| `HealthMonitor.MemoryIsHistory` | pkg/worker-pool/1_worker_pool.go:75-90 | the monitor's two memories are the sides of the last sample, and the flag is what the last crossing or outside write made it |
| `HealthMonitor.TickIsLevelUnlessOverridden` | pkg/worker-pool/1_worker_pool.go:75-90 | after any run, a tick leaves the flag where the level wants it exactly unless, since the queue crossed to the side it is on, someone else was the last to set the flag, the other way |
| `HealthMonitor.EdgesAreLevelsExactly` | pkg/worker-pool/1_worker_pool.go:64-93 | acting on crossings keeps the flag where acting on the level would, all along a run, exactly if no tick of it meets such an override |
| `HealthMonitor.AloneIsLevel` | pkg/worker-pool/1_worker_pool.go:64-93 | with nobody else writing, it always does |
| `HealthMonitor.OverrideIsMissed` | pkg/worker-pool/1_worker_pool.go:75-90 | for all thresholds, a run in which a flag taken down from elsewhere stays down below the lower one |
| `HealthMonitor.ShutdownStaysUnhealthyExactly` | core/delivery/module/0.0.new.go:109-110 | after any run that leaves the flag down, the monitor alone leaves it down all along exactly until the queue drops below the lower threshold afresh |
| `HealthMonitor.ShutdownIsUndone` | core/delivery/module/0.0.new.go:109-110 | for all thresholds, a run in which the monitor declares healthy a container that is shutting down |
| `HealthRaces.TidyWithoutOverlap` | provider/healthy-provider/healthy.go:51-76 | with load, store and append of every call interleaved, the history alternates and ends in the flag as long as no call finds the flag to be changed while another is inside |
| `HealthRaces.OverlapIsWhatBreaks` | provider/healthy-provider/healthy.go:51-76 | after any run without such an overlap, an event leaves that assured in every continuation without another one exactly if it is not an overlap itself |
| `HealthRaces.TakenDownTwice` | core/delivery/module/0.0.new.go:109-110 | the monitor and shutdown, both at their load of a healthy flag, write the same change to the history twice |
| `HealthMonitor.WorkerPoolConfig.LoadDefault` | export/types/config_child.go:153-198 | the defaulted configuration validates exactly if nothing was negative; given values survive, except a lower threshold not below the upper |
| `HealthMonitor.WorkerPoolConfig.Validate` | export/types/config_child.go:153-169 | passes exactly the configurations without a panic |
| `AsyncDispatcher.EveryEventInOnePlace` | server/webhook/async.go:65-146 | in every run each emitted event is in exactly one of queue, delivery, retry timer, acknowledged, dropped on a full queue, dropped after its retries, discarded at shutdown |
| `AsyncDispatcher.AttemptsAreBounded` | server/webhook/async.go:113-127 | an event is posted at most max(1, retryMax) times and never after an accepted post; it is given up only after its last permitted attempt, all failed, and acknowledged only if one was accepted |
| `AsyncDispatcher.RetriesFollowTheSchedule` | server/webhook/async.go:10-14 | every armed retry waits the entry for its attempt of the schedule given, or of 1, 5, 30, 120 and 600 seconds if none is, the last one repeating |
| `AsyncDispatcher.PlacesAfter` | server/webhook/async.go:65-146 | each step moves every event from one place to one place |
| `AsyncDispatcher.EmitQueuesExactly` | server/webhook/async.go:65-72 | after any run, a new event is queued last exactly if fewer than 1024 wait, and dropped otherwise |
| `AsyncDispatcher.PostSettles` | server/webhook/async.go:113-135 | after any run, the idle loop posts the oldest job; its event is acknowledged, dropped exactly at its last attempt, or armed with one attempt more |
| `AsyncDispatcher.TimerGetsSomewhere` | server/webhook/async.go:134-145 | after any run, a fired timer re-queues its job exactly if there is room, discards it exactly after a shutdown, and drops it exactly if neither |
| `AsyncDispatcher.ClosedExactlyAfter` | server/webhook/async.go:76-77 | the dispatcher is shut down exactly after a Shutdown |
| `AsyncDispatcher.LoopEndsExactly` | server/webhook/async.go:89-106 | the loop ends exactly when it is idle after a Shutdown with an empty queue |
| `AsyncDispatcher.ShutdownDrainsTheQueue` | server/webhook/async.go:95-103 | after any run with a Shutdown, the idle loop gets everything queued acknowledged, and then ends |
| `SyncCaller.FailuresIsTheLastRun` | server/webhook/sync.go:54-65 | the failure count is the length of the run of infrastructure failures the record ends with |
| `SyncCaller.OpenExactlyAfterRun` | server/webhook/sync.go:29-31 | the breaker is open exactly if the last `threshold` outcomes recorded are all transport errors or statuses from 500 on |
| `SyncCaller.LeaveAfterCooldown` | server/webhook/sync.go:45-52 | an open breaker gives leave exactly from `cooldown` after the latest failure on |
| `SyncCaller.LeaveExactly` | server/webhook/sync.go:45-52 | leave is refused exactly if the last `threshold` outcomes were all transport errors or 5xx and the latest is younger than `cooldown` |
| `SyncCaller.CircuitBreaker.Allow` | server/webhook/sync.go:45-52 | its answer from two numbers is the answer the whole record calls for, under any interleaving with Record |
| `SyncCaller.CircuitBreaker.Record` | server/webhook/sync.go:54-65 | the two numbers go on standing for the whole record, and leaves given earlier stay justified |
| `SyncCaller.CircuitBreaker.OpenSince` | server/webhook/sync.go:69-76 | reports open exactly while the run is long enough, and then the latest failure's time |
| `SyncCaller.Caller.PostOnce` | server/webhook/sync.go:114-136 | each post is recorded once and ends the call exactly on a status below 500; the result is nil exactly for 200 to 299 with a body that decodes, else the decoding error, the status or the transport error |
| `SyncCaller.Caller.Call` | server/webhook/sync.go:98-138 | among any other calls on the breaker: at most retryMax posts, each with leave of its own and recorded once; all but the last were transport errors or statuses from 500 on; the answer is the last post's, nil exactly for 200 to 299 with a body that decodes, or circuit-open exactly if the breaker refused the next one |
| `MigrationList.ParseVersion` | provider/postgres/migrations/migrations.go:90-102 | there is no version exactly if the name does not start with a digit; a version is within Go's int |
| `MigrationList.ParsesNumeral` | provider/postgres/migrations/migrations.go:90-102 | a name that starts with a decimal numeral, padded with zeros or not, has that number as its version, or is rejected exactly if it is over the largest int |
| `MigrationList.VersionIsNumeral` | provider/postgres/migrations/migrations.go:90-102 | every name with a version starts with the padded numeral of that version and goes on without a digit |
| `MigrationList.All` | provider/postgres/migrations/migrations.go:29-77 | succeeds exactly if every name has a version and no two are equal, with every file once, in ascending version |
| `MigrationList.SortByVersion` | provider/postgres/migrations/migrations.go:64-66 | the same migrations, strictly ascending |
| `MigrationList.SelectMigrations` | provider/postgres/migration.go:217-225 | the loop selects the migrations with a version in (current, latest], in order |
| `MigrationList.SelectIsRange` | provider/postgres/migration.go:217-225 | a selection is exactly the migrations in (current, latest], ascending |
| `MigrationList.SelectInStages` | provider/postgres/migration.go:217-225 | selecting in two stages is selecting in one |
| `MigrationList.DueInStages` | provider/postgres/migration.go:217-225 | what is due at one version, followed by the selection up to another, is what is due at the other |
| `MigrationList.SelectFromPrefix` | provider/postgres/migration.go:29-38 | an older release selects from its own list what it would select from the newest one |
| `MigrationList.DueIsPrefix` | provider/postgres/migration.go:60-68 | a bootstrap by any release applies what is due at its version, if versions are positive |
| `MigrationRuns.AppliedExactlyOnce` | provider/postgres/migration.go:29-111 | over every run of racing replicas of any releases, failing anywhere, the committed migrations are those up to the version row; this holds for a release chain exactly if its versions are positive |
| `MigrationRuns.UpgradeCompletes` | provider/postgres/migration.go:71-111 | after any run, a replica that found a row older than its release takes it, runs the migrations between and commits: the schema is then what is due at its target, and the row is free |
| `MigrationRuns.BootstrapCompletes` | provider/postgres/migration.go:56-69 | after any run that left no row, the replica that inserts it runs its whole list and commits, likewise |
| `MigrationRuns.OlderReleaseChangesNothing` | provider/postgres/migration.go:75-84 | a release not newer than the schema ends its transaction and changes nothing |
| `MigrationRuns.FailureRollsBack` | provider/postgres/migration.go:49-54 | a failing transaction leaves version and migrations alone, and frees the row if it held it |
| `MigrationRuns.FindsRow` | provider/postgres/migration.go:152-170 | a replica that finds a committed row goes on to lock it, and one that finds an uncommitted row waits |
| `MigrationRuns.HeldRowIsWaitedFor` | provider/postgres/migration.go:172-189 | a row held by another is waited for |
| `MigrationRuns.ReleaseIsPrefix` | provider/postgres/migration.go:30-38 | the list of a release is a prefix of the chain, and its target the last version in it, or 0 |
| `MigrationRuns.NoEarlyCommit` | provider/postgres/migration.go:102-108 | a transaction commits only after its last migration, and runs none after it |
| `MigrationRuns.DueIsAscending` | provider/postgres/migration.go:208-225 | what is due is a prefix of the chain, so each migration once and in order |
| `MigrationRuns.DueIsUpTo` | provider/postgres/migration.go:217-225 | and it is exactly the migrations up to the version |
| `MigrationRuns.OneAtATime` | provider/postgres/migration.go:152-189 | at most one replica is ever applying, and the version it read is still the row's |
| `BatchWrite.Chunks` | pkg/dynamodb/recursive_batch_write_item.go:20 | pieces of one to n items that put together are the input |
| `BatchWrite.BatchTable.BatchWriteItem` | pkg/dynamodb/recursive_batch_write_item.go:34-44 | the service as assumed: a call fails and does nothing, or applies all but the items it returns |
| `BatchWrite.WriteChunk` | pkg/dynamodb/recursive_batch_write_item.go:25-44 | applied and left together are the chunk; its calls are a trace: the first carries the chunk, each next one what the last gave back, none empty or over the limit, at most depth + 1, ending with nothing left, a failed call, or the calls used up |
| `BatchWrite.WriteChunks` | pkg/dynamodb/recursive_batch_write_item.go:22-46 | every chunk has its own such trace, one after another, also after a failed one, and leaves what its trace leaves |
| `BatchWrite.RecursiveBatchWriteItem` | pkg/dynamodb/recursive_batch_write_item.go:14-53 | nothing is lost and nothing written twice: applied plus returned is what was asked for; what is returned is what the chunks' traces leave, each chunk's only after a failed call or with all its calls used up; an error means exactly that a call failed |
| `DynamoPending.ListKeys` | core/repository/impl-dynamodb/pending_message/delete_up_to.go:47-63 | all keys of all pages, or failure exactly if a page fails |
| `DynamoPending.DeleteUpTo` | core/repository/impl-dynamodb/pending_message/delete_up_to.go:18-95 | fails to list exactly if a page fails; else succeeds exactly if all listed rows are deleted, and the table is then what the Postgres repository's one statement leaves; a write failure exactly if a call failed; else the number of keys the chunks' traces leave, with all their calls used up; whatever it reports, no other row is deleted |
| `ConnectionIndex.ConnectionManager.AddConnection` | core/service/websocket/connection-manager/connection_mamanger.go:27-40 | the flat map from session to connection changes at that session and nowhere else |
| `ConnectionIndex.ConnectionManager.RemoveConnection` | core/service/websocket/connection-manager/connection_mamanger.go:42-57 | the session's connection goes, every other stays, and no user keeps an empty map |
| `ConnectionIndex.ConnectionManager.GetConnection` | core/service/websocket/connection-manager/connection_mamanger.go:59-74 | answers the flat map |
| `ConnectionIndex.ConnectionManager.GetAllUserConn` | core/service/websocket/connection-manager/connection_mamanger.go:76-88 | the user's live connections, each once, and none for the empty user ID |
| `ConnectionIndex.ConnectionManager.GetAllAnonymousConn` | core/service/websocket/connection-manager/connection_mamanger.go:90-99 | the anonymous live connections, each once |
| `ConnectionIndex.ConnectionManager.GetAllAuthenticatedConn` | core/service/websocket/connection-manager/connection_mamanger.go:101-112 | the authenticated live connections, each once |
| `ConnectionIndex.ConnectionManager.GetAllConnections` | core/service/websocket/connection-manager/connection_mamanger.go:114-133 | every live connection exactly once |
| `LimiterIndex.RateLimiter.New` | core/service/websocket/rate-limiter/rate_limiter.go:39-72 | the session is on file, its owner keeps its limiter or gets a new one, nobody else's changes, and doing it twice is doing it once |
| `LimiterIndex.RateLimiter.Remove` | core/service/websocket/rate-limiter/rate_limiter.go:74-92 | the session is off file, and its owner's limiter stays the same one exactly while another session remains |
| `LimiterIndex.RateLimiter.Get` | core/service/websocket/rate-limiter/rate_limiter.go:94-111 | the owner's limiter, registering the session exactly if there is none |
| `LimiterIndex.RateLimiter.LimiterWhileSessions` | core/service/websocket/rate-limiter/rate_limiter.go:39-111 | an owner has a limiter exactly while one of its sessions is on file |
| `CallbackRaces.FileMatchesUnlessCrossed` | core/service/websocket/mediator/delivery/0.new.go:211-258 | with any number of new-connection and close callbacks of a session, started at any time, and Gets in two halves: in every run a session with no callback between its two visits is on file exactly if it is in the manager, unless the last to visit the limiter was a Get while it is not connected or a callback overtaken at the manager by one going the other way; and exactly then it is not |
| `CallbackRaces.SameCallbackMatches` | core/service/websocket/mediator/delivery/0.new.go:211-258 | if one callback was the last at both, they agree |
| `CallbackRaces.EntryIsTheConnectionExactly` | core/service/websocket/connection-manager/connection_mamanger.go:27-57 | in every run an open connection is the manager's entry of its session exactly if no later connection and no close callback of another one has visited since it was added |
| `CallbackRaces.ClosedBetweenItsVisits` | core/service/websocket/server/gobwas/1_server.go:184-192 | after any run with both callbacks about to begin, a schedule that leaves a session out of the manager and on file |
| `CallbackRaces.LateCloseUnfiles` | core/service/websocket/mediator/delivery/0.new.go:167-170 | after any such run, a schedule that leaves the successor in the manager and off file |
| `CallbackRaces.LateCloseHidesSuccessor` | core/service/websocket/mediator/delivery/0.new.go:257 | after any such run, a schedule that leaves an open connection out of the manager |
| `CallbackRaces.ClosedAtOnce` | core/service/websocket/mediator/delivery/2.gobwas_endpoint.go:51-59 | both callbacks of one connection can be about to begin, for every session |
| `CallbackRaces.ClosedLate` | core/service/websocket/server/gobwas/1_server.go:361-364 | so can the close callback of a connected one and the callback of its successor |
| `CallbackRaces.StrayGetStays` | core/service/websocket/client-msg-handler/0_main_handler.go:138-171 | after any run, a Get for a session of whose owner nobody is on file, with no close callback of it under way, leaves it on file in every continuation until it is closed again |

## Left out

- HTTP, the REST admin API, dependency injection, configuration other than the worker pool's, metrics, tracing and logging.
- Authentication, exchange tokens, webhook signatures and the JSON and msgpack payloads.
- The clients of Postgres, DynamoDB, Valkey and NATS, and expression building; the databases appear only through the statements the code sends.
- The token bucket of a rate limiter: its identity is modelled, its arithmetic is not.
- Reading and validating WebSocket frames, ping and pong bookkeeping, the close handshake, and the long-polling transport.
- Aliasing of a decoded frame's binary part with its input; byte slices are values here.
- The batch reads of the DynamoDB client, which follow the same pattern as the batch writes.
- `VerifyMigration` and the creation of the version table, which have no branch worth stating.
- PendingRepository.PendingMessageRepo.Create: send times are whole numbers; the column's resolution is not modelled, only that equal times collide.
- Drain.BufferedBeforeLive: one connection at a time, and the fallback for connections without a drain lock is not modelled, because no transport takes it.
- AckRouting.NoChannelIsClosedTwice: identifiers are taken to be drawn once, as the code's random 18-character ones are meant to be.
- AckRouting.AckGetsThrough: how the container of a session is found is not modelled; which containers a send is published to is arbitrary.
- ReadToken.OneToken: one connection at a time; tokens of different connections share nothing but the pool, whose refusals are arbitrary here.
- SyncCaller.CircuitBreaker.Allow: the zero time is the number 0, which matters only for a threshold below one.
- AsyncDispatcher.AttemptsAreBounded: the wait of Shutdown for the loop, bounded by a context, is not modelled; what is left in the queue at that point stays there.
- MigrationRuns.AppliedExactlyOnce: each release's list extends the previous one by higher versions, as the numbering of the files intends; Postgres row locking and rollback are taken as documented.
- HealthMonitor.WorkerPoolConfig.LoadDefault: 64-bit overflow of three times the buffer size is not modelled.
- PendingHandoff.NoSavedMessageIsLost: a failing reconnect is a reconnect that did not happen; DynamoDB's own removal of outdated items is not told apart from the clean-up.
- Handoff.TransferringSticks: removal of a record by an expiry timer or by another container is not modelled, because the race shown is within one process.
- ConnectionCap.NetpollServer.NewConnection: a new descriptor is taken not to be watched already, as the kernel's are.
- PendingHandoff.UnsafeStepLosesAMessage: an expiry call can come once, at any time until its timer quits, as `HubTimers.CalledAtMostOnce` has it; the timers of several containers are numbered together.
- PendingHandoff.FailedWriteLosesExactly: a container that stops before it has written a batch leaves its writes to come forever.
- HealthRaces.TidyWithoutOverlap: appending to the history is one step; two appends at the same instant can also lose an entry.
