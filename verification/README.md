# Travel Token Messenger Bot: a Dafny model

The bot exchanges signed, encrypted and compressed messages over chat rooms that limit the size of an event, mints and
buys booking tokens, and watches the chain for what becomes of them. This project models the parts of it that carry
state over time and proves what they keep.

| module | part of the system |
|---|---|
| `MatrixEvents`, `Reassembly`, `ReassemblySpec`, `Messenger` | the receiver of multi-chunk messages and its sweeper |
| `Chunking`, `Framing`, `Encoding`, `Pipeline` | the sender: encoding, framing, cutting and sending; and the whole way there and back |
| `Subscriptions`, `ListenerHandlers`, `EventListener` | the reservation and cancellation listener, with handlers that run one at a time |
| `ListenerProtocol`, `ListenerDrops`, `ListenerExpiries`, `ListenerLossyRun` | the same listener under interleaving and crashes |
| `ListenerProgress`, `ListenerCalls` | what can happen from any of its states; and the first listener as a special case |
| `SchedulerProtocol`, `SchedulerRuns`, `Scheduler` | the persistent job scheduler |
| `Correlation` | responses matched to requests over a shared map of channels |
| `Decimals`, `Price`, `Purchase` | price scaling, and mint and buy at that price |
| `BotAuthCache` | the expiring cache of bot authorisations |
| `Timestamps` | the numbering of checkpoints |

Objects that the bot updates in place are classes (`Messenger`, `ChunkedMessage`, `EventListener`, `Scheduler`,
`Service`, `TimestampMap`); their methods are tied to functions on the values they hold, and the theorems are about
those functions. Concurrent protocols are step functions: a run is any sequence of enabled steps from an initial state,
and the main results hold for every run. Failures of storage, chain and partner calls are parameters or steps of their
own; the clock is a parameter that never goes back.

## What turned out not to hold

- **A subscription can be lost, or expire before its time.** The timeout handler reads the shared timer field again for
  the status, for the announcement and for the deletion (internal/eventlistener/subscription_token_bought.go:210-242).
  If another handler moves the timer on in between, it announces one token and deletes another
  (`ListenerLossyRun.SilentDropRun`), announces one whose status it never asked (`MisannouncedRun`), or asks about one
  that is not due (`EarlyExpiryRun`). Module `ListenerExpiries` gives for each of the three reads the exact guard:
  the field still names the token of the read before. Each could be checked where the field is read; with all three
  nothing is lost (`ListenerExpiries.NothingLost`), each of the runs breaks just one, and they hold by themselves when
  calls do not overlap (`ListenerExpiries.SerialRunsGuarded`). What leaves the table has proper cause iff every handler
  that deletes has dealt with one token throughout (`ListenerExpiries.ProperDropsIff`); it is at least named in some
  note iff no handler deletes an unannounced row in place of another (`ListenerDrops.NoSilentIff`). A field that has
  become nil in between ends the process, which the model treats as a crash.
- **A panicking job is not run again.** The panic of a job body on a tick ends the ticker's goroutine; the job is then
  not executed until the scheduler is stopped and started again (`SchedulerRuns.PanicKillsJob`).
- **Two metadata lengths cannot be decoded.** The encoder accepts blocks of 65534 and 65535 bytes, but the decoder adds
  the prefix length in 16 bits and its slice panics. `Encoding.DecodeUndoesEncode` gives the exact outcome.
- **A restarted job may run early.** Execution times are stored in whole seconds, so after a restart a job may really
  run up to a second less than its period after the last time. Recorded times are always a full period apart
  (`SchedulerRuns.ExecutionsSpaced`); `SchedulerRuns.FirstTimerMeetsPeriodIff` says exactly when the real times are too,
  and `SchedulerRuns.EarlyFirstExecution` is a run in which they are not.
- **Very negative decimals overflow.** Scaling is exact iff the difference of the decimals stays in the int32 range
  (`Price.ScalingExactIffNoOverflow`). Only version 3 prices carry signed decimals; `Price.NegativeDecimalsOverflow`
  gives an input.
- **Mint and buy agree only on equal decimals.** Supplier and distributor each ask the chain for the decimals of a
  contract. `Purchase.MintAndBuyAgree` shows that their amounts agree iff they are told the same decimals or the value
  is zero, and `Purchase.MintThenBuy` what becomes of the purchase. The response carries only the low 64 bits of the
  token ID, so the token ordered is the token minted iff its ID fits.

## Assumptions

- A failed commit leaves the tables as they were, and transactions are serialised.
- The table read inside a timer reset succeeds in module `ListenerProtocol`; in `EventListener` it may fail, and the
  contracts say what then holds.
- No bought event arrives between the startup scan and the start of the timer.
- Token IDs are below 2^63: storage keys rows by the signed 64-bit value and deletes some by the unsigned one
  (internal/eventlistener/storage/sqlite/subscription_token_bought.go:54-97), while tokens here are any natural numbers.
- A token ID is subscribed to once: a note about a token counts for every later row of the same ID.
- Request IDs are random UUIDs (internal/rpc/server/server.go:158), so none is drawn twice while in progress. The
  correlation theorems hold without this; the map of channels is exact iff it holds (`Correlation.MapExactIffUniqueIDs`),
  and `Correlation.CollidingRun` shows what it prevents.
- The clock is exact, ticks lie on the ticker's own grid, and the scheduler is started only when it is stopped.
- The library pairs in `Encoding.Codec` undo each other. JSON does so only for strings that are valid UTF-8.

## Model

| member | source | states |
|---|---|---|
| `MatrixEvents.VerifyChunk` | pkg/matrix/events.go:35-40 | a further chunk passes iff its index is positive and it has data and a message ID |
| `MatrixEvents.VerifySigned` | pkg/matrix/events.go:50-55 | a first chunk passes iff its count is positive and it has data and a message ID |
| `Reassembly.Receive` | internal/matrix/messenger/messages.go:96-154 | the bot's own and invalid events change nothing and deliver nothing; a sweep delivers nothing |
| `Reassembly.ProperEventCounts` | internal/matrix/messenger/messages.go:96-260 | every well-formed event of another bot, even an inconsistent one, is stored, or dropped when known to be out of range, and delivers in index order exactly when no index is missing; all other messages stay as they are |
| `Reassembly.ReceiveKeepsTableOk` | internal/matrix/messenger/messages.go:156-192 | for any accepted event, even an inconsistent one, a completed message assembles: the drop branch is unreachable |
| `Reassembly.ReachableTableOk` | internal/matrix/messenger/messages.go:230-281 | in every reachable table no entry is complete, chunk 0 is present iff the count is known, and the count is never 1 |
| `Reassembly.EntryLeavesOnlyDeliveredOrStale` | internal/matrix/messenger/messages.go:253-325 | an entry leaves the table only by a delivery of its own message or by a sweep that finds it older than the TTL |
| `Reassembly.PartialMessageAgeBound` | internal/matrix/messenger/messages.go:18-29 | if the last sweep is at most one interval ago, no entry is older than the TTL plus one interval |
| `ReassemblySpec.ConcernedStep` | internal/matrix/messenger/messages.go:194-260 | an arrival of a consistent message completes it iff it was the only chunk missing, and otherwise adds just that chunk and keeps the entry's age |
| `ReassemblySpec.RunRefines` | internal/matrix/messenger/messages.go:194-281 | after any consistent run the entry holds exactly the in-range chunks seen since the last reset, with the sender's data, and lacks one |
| `ReassemblySpec.DeliveredExactlyWhenAllSeen` | internal/matrix/messenger/messages.go:156-308 | an event delivers a multi-chunk message iff with it every chunk has been seen since the last delivery or eviction; the sender's chunks come out in order with its signature and account |
| `ReassemblySpec.DeliveriesConserved` | internal/matrix/messenger/messages.go:194-260 | a message is delivered at most as often as each of its chunks arrived, arrivals held by an open entry not counted |
| `ReassemblySpec.ExactlyOnceDelivery` | internal/matrix/messenger/messages.go:194-260 | if every chunk arrives, in any order and any number of times, and no sweep evicts the message before its first delivery, it is delivered; exactly once if some chunk arrives once, leaving no entry if all do and no stray index arrived |
| `ReassemblySpec.FirstSeenIsAnArrival` | internal/matrix/messenger/messages.go:198-225 | an entry's age counts from the first arrival of its message since the last reset |
| `ReassemblySpec.EvictedOnlyIfLate` | internal/matrix/messenger/messages.go:310-325 | an evicted message has a chunk of which no arrival, before or after, lies within the TTL of the one that opened the entry |
| `ReassemblySpec.TimelyDelivery` | internal/matrix/messenger/messages.go:18-29 | if every chunk arrives within one TTL of the first arrival, the message is delivered whatever the sweeper does and whatever is repeated; exactly once if some chunk arrives once |
| `Messenger.MessageIndexSetComplete` | internal/matrix/messenger/messages.go:271-281 | the walk over the indices answers true iff the count is known and no index below it is missing |
| `Messenger.AssembleEncodedMessage` | internal/matrix/messenger/messages.go:291-308 | the loop yields the chunks in index order with signature and account, or nothing if one is missing |
| `Messenger.Messenger.AddMessageChunk` | internal/matrix/messenger/messages.go:230-260 | storing in place, range check, completion and removal, as the value-level transition; other records untouched |
| `Messenger.Messenger.AddMessageFirstChunk` | internal/matrix/messenger/messages.go:194-212 | the record is found or made, its header set and chunk 0 added, as the value-level transition |
| `Messenger.Messenger.AddMessageNextChunk` | internal/matrix/messenger/messages.go:214-228 | the record is found or made and the chunk added, as the value-level transition |
| `Messenger.Messenger.HandleEvent` | internal/matrix/messenger/messages.go:96-181 | one event takes the whole map of records, and its output, through the transition that the theorems are about |
| `Messenger.Messenger.EvictStalePartialMessages` | internal/matrix/messenger/messages.go:313-325 | the deleting loop leaves exactly the entries that are not stale, unchanged |
| `Chunking.ChunksPartition` | internal/messaging/encoding/encoder_decoder.go:347-360 | the chunks join to the data, there are ceil(len/size) of them, none is empty or too long, all but the last are full |
| `Chunking.PartitionUnique` | internal/messaging/encoding/encoder_decoder.go:347-360 | no other list of chunks is such a partition |
| `Chunking.Chunk` | internal/messaging/encoding/encoder_decoder.go:347-360 | the loop that advances `start` fills exactly that partition |
| `Chunking.SendMessage` | internal/matrix/messenger/messages.go:49-94 | the events go out in order up to the send that fails; none if there is no room for the recipient, or if the count is zero or exceeds 32 bits |
| `Chunking.SentEventsVerify` | internal/matrix/messenger/messages.go:59-81 | every event built from a non-empty frame and message ID passes the receiver's checks |
| `Chunking.SentEventsConsistent` | internal/matrix/messenger/messages.go:59-81 | the events built never contradict the sender's chunks, and stay in range |
| `Framing.ParseUndoesBlock` | internal/messaging/encoding/encoder_decoder.go:239-249 | with 16-bit offsets, parsing a length-prefixed block undoes framing up to 65533 bytes and panics for the two longer lengths that fit the prefix |
| `Framing.CopyInto` | internal/messaging/encoding/encoder_decoder.go:158-177 | copying at an offset overwrites just that range |
| `Framing.BuildPrivateData` | internal/messaging/encoding/encoder_decoder.go:158-162 | the buffer ends up as length, metadata and content; a length over 16 bits panics |
| `Framing.BuildEncodedData` | internal/messaging/encoding/encoder_decoder.go:172-177 | the buffer ends up as version, length, metadata and data; a length over 16 bits panics |
| `Encoding.EncodeMessage` | internal/messaging/encoding/encoder_decoder.go:107-188 | the in-place encoder yields the signed, cut frame or the first error in the order of the code, from the key lookup to the signing |
| `Encoding.EncodesExactly` | internal/messaging/encoding/encoder_decoder.go:107-188 | exactly when encoding succeeds, the error of the first step that fails, and the frame byte by byte |
| `Encoding.DecodesExactly` | internal/messaging/encoding/encoder_decoder.go:190-289 | exactly which bytes decode and to what: version 1, signed by the very bot that sent them, not expired, with blocks and payload that say so, and the key stored |
| `Encoding.DecodeRefuses` | internal/messaging/encoding/encoder_decoder.go:200-217 | a short frame, another version, a bad signature and a signer other than the sending bot each end in their own way, in this order |
| `Encoding.ForgedSenderRefused` | internal/messaging/encoding/encoder_decoder.go:207-213 | whatever one bot encodes is refused when it comes from another |
| `Encoding.ExpiryWindow` | internal/messaging/encoding/encoder_decoder.go:142-147 | a message is accepted for at least 299 s and rejected after 300 s |
| `Encoding.DecodeV1UndoesFrame` | internal/messaging/encoding/encoder_decoder.go:231-289 | behind version and signature, decoding yields the message, key and account iff both blocks are at most 65533 bytes and it has not expired |
| `Encoding.DecodeUndoesEncode` | internal/messaging/encoding/encoder_decoder.go:190-229 | the exact outcome of decoding any encoded message: the same message, account and key, or a panic by block length, or expiry, or the failure to store the sender's key |
| `Pipeline.EncodedHasChunks` | internal/messaging/encoding/encoder_decoder.go:172-187 | an encoded message always has a chunk, and all its events pass the checks |
| `Pipeline.SingleChunkDelivery` | internal/matrix/messenger/messages.go:156-166 | each event of a one-chunk message that comes from its bot delivers it, from any table, which stays as it is |
| `Pipeline.PipelineRoundTrip` | internal/messaging/encoding/encoder_decoder.go:107-289 | in any run of genuine events, what is delivered decodes to what was sent |
| `Pipeline.PipelineFields` | internal/messaging/encoding/encoder_decoder.go:224-288 | the same, field by field, with the exact condition under which decoding succeeds |
| `Pipeline.LosslessPipeline` | internal/matrix/messenger/messages.go:49-192 | if each built event is brought to another bot within one TTL of the first, in any order, the message is delivered; exactly once and without a trace if each is accepted once |
| `Subscriptions.MinExists` | internal/eventlistener/storage/sqlite/subscription_token_bought.go:172-177 | a table that is not empty has a row of least timeout |
| `ListenerHandlers.ScanCorrect` | internal/eventlistener/subscription_token_bought.go:83-130 | whether or not a call fails, each row the scan removed was settled, and if bought was notified with its mint ID; on success only reserved rows remain and the result is a least one |
| `ListenerHandlers.ScanExact` | internal/eventlistener/subscription_token_bought.go:83-130 | the scan fails iff some row fails; the rows before the first such are noted and removed iff settled, that one is noted but kept, the rest are untouched |
| `ListenerHandlers.StartIsRun` | internal/eventlistener/subscription_token_bought.go:63-130 | for any rows and any failures the startup scan is a run of the protocol, a failing call its crash |
| `ListenerHandlers.CheckCorrect` | internal/eventlistener/subscription_cancellation.go:68-160 | only finalized tokens are removed, each after its notification; on success every other status was notified and kept |
| `ListenerHandlers.CheckExact` | internal/eventlistener/subscription_cancellation.go:68-160 | the same for the startup check of cancellations |
| `ListenerHandlers.CheckIsRun` | internal/eventlistener/subscription_cancellation.go:68-160 | for any tokens and any failures the startup check of cancellations is a run of the protocol |
| `ListenerHandlers.BoughtIsRun` | internal/eventlistener/subscription_token_bought.go:147-198 | for every combination of failures, what the handler does to tables, log and timer is a run of the protocol |
| `ListenerHandlers.ExpiryIsRun` | internal/eventlistener/subscription_token_bought.go:204-251 | the same for the timeout handler |
| `EventListener.EventListener.StartupCheck` | internal/eventlistener/subscription_token_bought.go:83-145 | the loop with its running minimum and per-row transactions computes that scan; a failing read of the rows changes nothing |
| `EventListener.EventListener.StartTokenBoughtSubscriptions` | internal/eventlistener/subscription_token_bought.go:63-81 | after startup the timer is exact iff the table is empty or some deadline is before the end of time; removed rows are accounted for; a protocol run |
| `EventListener.EventListener.SubscribeTokenBoughtEvent` | internal/eventlistener/subscription_token_bought.go:35-61 | a subscription is stored two seconds late iff every call succeeds and the token is new; the timer moves iff it is earlier, and stays exact; a protocol run |
| `EventListener.EventListener.ResetTimerIfAfter` | internal/eventlistener/subscription_token_bought.go:262-273 | the timer moves to the new row iff that is strictly earlier or there was none, and is exact afterwards |
| `EventListener.EventListener.ResetTimerFromDB` | internal/eventlistener/subscription_token_bought.go:292-313 | whatever the timer held, it is exact afterwards iff the table could be read or is empty |
| `EventListener.EventListener.PickMin` | internal/eventlistener/storage/sqlite/subscription_token_bought.go:172-177 | the lookup returns a stored row of least timeout |
| `EventListener.EventListener.TokenBoughtEventHandler` | internal/eventlistener/subscription_token_bought.go:147-198 | the row leaves iff every call on its way succeeds, whether or not the booking is cancellable; notification, cancellation entry, block number and timer for every combination of failures; a protocol run |
| `EventListener.EventListener.TokenBoughtTimeoutHandler` | internal/eventlistener/subscription_token_bought.go:204-251 | the row leaves iff it is still reserved and every call succeeds, after its expiry notification; the timer is then reset in every case; a run of the protocol, in which the timer field is read anew at each call |
| `EventListener.EventListener.CancellationStartupCheck` | internal/eventlistener/subscription_cancellation.go:68-177 | the loop with its per-token transactions computes the check above; a failing read of the tokens changes nothing |
| `EventListener.EventListener.CancellationFinalizedEventHandler` | internal/eventlistener/subscription_cancellation.go:292-332 | the token goes iff every call succeeds, after its notification; the block number returned in every case; a protocol run |
| `ListenerCalls.CallInherits` | internal/eventlistener/subscription_token_bought.go:35-313 | when calls come one after another, each call above extends the run so far; once idle again the timer covers every deadline, and every row ever stored that is gone left with proper cause |
| `ListenerProtocol.RunKeepsCoverage` | internal/eventlistener/subscription_token_bought.go:35-313 | the coverage invariant holds in every state of every interleaving, across crashes and startups |
| `ListenerProtocol.NoMissedDeadline` | internal/eventlistener/subscription_token_bought.go:147-313 | every stored subscription whose call has returned is covered by an armed timer no later than its timeout, or by a timeout handler whose reset is to come |
| `ListenerProtocol.QuiescentTimerIsEarliest` | internal/eventlistener/subscription_token_bought.go:262-313 | with no call in progress the armed timer is no later than any stored deadline |
| `ListenerProgress.ExpiryPossible` | internal/eventlistener/subscription_token_bought.go:204-313 | in every reachable state with an armed timer, whatever else is in progress, the timer can fire and its row be announced and deleted at once |
| `ListenerProgress.PurchasePossible` | internal/eventlistener/subscription_token_bought.go:147-198 | in every reachable state a stored token that is bought can be announced and settled at once |
| `ListenerProgress.RecoveryPossible` | internal/eventlistener/event_listener.go:108-131 | from every reachable state the process may crash, and the next one scans what was committed; it comes up iff no row fails, then idle, and every row it removed is accounted for |
| `ListenerProgress.NilFieldEndsProcess` | internal/eventlistener/subscription_token_bought.go:210-242 | a timeout handler that finds the timer field nil takes the process down, at each of its reads |
| `ListenerDrops.OnlyDisplacedDeletionsDrop` | internal/eventlistener/subscription_token_bought.go:83-251 | in every run a row leaves unannounced only when a timeout handler deletes another token than it announced |
| `ListenerDrops.NoSilentIff` | internal/eventlistener/subscription_token_bought.go:83-251 | a run drops no row silently iff no timeout handler deletes an unannounced row in place of the one it announced |
| `ListenerExpiries.ReservedDueIff` | internal/eventlistener/subscription_token_bought.go:204-218 | in any run each token a handler is told is reserved is the one its timer fired for, iff the timer names that one whenever a handler asks |
| `ListenerExpiries.NotesSeenIff` | internal/eventlistener/subscription_token_bought.go:210-233 | in any run each expiry note is of the token that its handler saw reserved, iff at each announcement the timer names the token whose status was read |
| `ListenerExpiries.RemovalsAnnouncedIff` | internal/eventlistener/subscription_token_bought.go:230-245 | in any run each row a handler goes on to delete is of the token it announced, iff the timer names that one at each lookup that finds a row |
| `ListenerExpiries.DeletedRowsExpired` | internal/eventlistener/subscription_token_bought.go:204-250 | under the last two guards every row a timeout handler deletes was seen reserved and announced by that handler; under all three its timer fired for it |
| `ListenerExpiries.ProperDropsIff` | internal/eventlistener/subscription_token_bought.go:83-251 | in any run every row that leaves was announced as bought, seen settled, or has properly expired, iff every handler that deletes has dealt with one token throughout |
| `ListenerExpiries.NothingLost` | internal/eventlistener/subscription_token_bought.go:83-251 | in every run with the three guards, a token that is no longer stored left with proper cause, whatever fails, interleaves or crashes |
| `ListenerExpiries.SerialRunsGuarded` | internal/eventlistener/subscription_token_bought.go:147-251 | in every run without overlapping calls the three guards hold |
| `ListenerDrops.NoSilentCancellationDrop` | internal/eventlistener/subscription_cancellation.go:134-154 | in every run a token that left the cancellation table was first notified as finalized |
| `ListenerLossyRun.SilentDropRun` | internal/eventlistener/subscription_token_bought.go:230-250 | with only the guard at the deletion broken there is a run that loses a row of which nobody is told |
| `ListenerLossyRun.MisannouncedRun` | internal/eventlistener/subscription_token_bought.go:210-230 | with only the guard at the announcement broken there is a run that announces and deletes a row whose status was never read |
| `ListenerLossyRun.EarlyExpiryRun` | internal/eventlistener/subscription_token_bought.go:204-216 | with only the guard at the status broken there is a run that announces and deletes a row whose timer never fired |
| `SchedulerProtocol.TruncateToSeconds` | pkg/scheduler/storage/sqlite/jobs.go:142-148 | a period is stored in whole seconds, rounded toward zero |
| `SchedulerProtocol.RunKeepsInvariant` | pkg/scheduler/scheduler.go:75-160 | in every run each worker's next tick is a period after the stored last execution, and that is the last one committed |
| `SchedulerRuns.ExecutionsSpaced` | pkg/scheduler/scheduler.go:107-157 | consecutive executions are recorded at least a period apart, a ticker's also really so, and any two by less than a second short of it |
| `SchedulerRuns.ExecutionUsesPeriodOfItsStart` | pkg/scheduler/scheduler.go:84-116 | that period is the one stored when the Start that armed the job read it, whatever was scheduled since |
| `SchedulerRuns.FirstTimerMeetsPeriodIff` | pkg/scheduler/scheduler.go:118-131 | the first timer after a restart meets the period iff the last execution was on a whole second or the period is over |
| `SchedulerRuns.EarlyFirstExecution` | pkg/scheduler/storage/sqlite/jobs.go:134-148 | there is a run with two executions less than a period apart |
| `SchedulerRuns.FirstExecutionDue` | pkg/scheduler/scheduler.go:118-140 | the first execution after Start is not before max(now, last + period), for the stored values that Start read |
| `SchedulerRuns.FirstExecutionPossible` | pkg/scheduler/scheduler.go:118-147 | the first tick can come at any time from then on, at once for an overdue job, and its commit, body and ticker can follow |
| `SchedulerRuns.TicksOnGrid` | pkg/scheduler/scheduler.go:142-157 | while the scheduler runs, a ticker's next tick is exactly one period after its making plus one for each tick handled, failed or dropped |
| `SchedulerRuns.TickPossible` | pkg/scheduler/scheduler.go:121-157 | a tick that has come can be committed and its body run |
| `SchedulerRuns.StopWaits` | pkg/scheduler/scheduler.go:162-172 | Stop is enabled iff no body is running, and then drops every timer |
| `SchedulerRuns.BodyOnlyAfterCommit` | pkg/scheduler/scheduler.go:121-127 | before each body the last commit of its job is of that body's tick, and there are never more bodies than commits |
| `SchedulerRuns.PanicKillsJob` | pkg/scheduler/scheduler.go:94-156 | after a panic on a tick neither a commit nor a body of that job follows before a stop or crash |
| `SchedulerRuns.NoLostUpdates` | pkg/scheduler/scheduler.go:176-252 | in every interleaving the last execution never goes back and the period is that of the last Schedule |
| `Scheduler.Scheduler.Schedule` | pkg/scheduler/scheduler.go:176-213 | the transaction takes the protocol's Schedule step iff every call succeeds, else changes nothing |
| `Scheduler.Scheduler.UpdateJobExecutionTime` | pkg/scheduler/scheduler.go:221-252 | the tick's transaction records its time, rounded down, iff every call succeeds and the job is stored |
| `Scheduler.Scheduler.HandleFirstTick` | pkg/scheduler/scheduler.go:121-140 | a first tick takes the commit and body steps, or the failure step without a body |
| `Scheduler.Scheduler.StartTicker` | pkg/scheduler/scheduler.go:142-147 | the ticker is made by the protocol's step, which for a period that is not positive leaves a dead goroutine |
| `Scheduler.Scheduler.HandleTick` | pkg/scheduler/scheduler.go:94-156 | a tick of the ticker takes the commit and body steps, or the skip without a body; the next lies one period on; a body that panics ends the goroutine |
| `Scheduler.Scheduler.Start` | pkg/scheduler/scheduler.go:75-160 | every job is armed for max(now, last + period) iff all have handlers; otherwise exactly those before the first without; a protocol run |
| `Scheduler.Scheduler.Stop` | pkg/scheduler/scheduler.go:162-172 | the loop drops every timer, as the protocol's Stop step |
| `Correlation.RequestsCorrelated` | internal/messaging/processor.go:197-277 | in every run a call receives at most one message, with its own ID; its channel is closed at most once and only after that; no call reads a closed channel |
| `Correlation.ReceivedIsFinal` | internal/messaging/processor.go:259-270 | a received message is never replaced or taken back |
| `Correlation.ResponseReachesCall` | internal/messaging/processor.go:354-382 | in every reachable state a response with the ID of a registered waiting call can be handed to it at once; the call ends with just that message and its ID is free |
| `Correlation.LookupFinds` | internal/messaging/processor.go:354-370 | a forwarder blocks on the channel registered under the ID, and ends without effect if there is none |
| `Correlation.CallEndsWithout` | internal/messaging/processor.go:204-277 | a call that cannot prepare, or times out, ends without a message and frees its ID |
| `Correlation.StepKeepsMapExactIff` | internal/messaging/processor.go:365-382 | from an exact map a step leads to an exact one unless it begins a call with an ID in progress |
| `Correlation.MapExactIffUniqueIDs` | internal/messaging/processor.go:204-206 | throughout a run the map holds exactly the requests in progress iff no call begins with an ID in progress |
| `Correlation.CollidingRun` | internal/messaging/processor.go:204-206 | with a repeated ID there is a run in which a call in progress loses its channel |
| `Decimals.ParseUndoesPrint` | pkg/price/price.go:23-27 | reading an integer from its decimal string undoes printing it |
| `Decimals.ParseIff` | pkg/price/price.go:23-27 | exactly an optional sign with at least one digit is read, and the sign is obeyed |
| `Price.ScalingAppendsZeros` | pkg/price/price.go:17-33 | for 0 <= decimals <= total the result is the number written with total - decimals zeros appended |
| `Price.ScalingExactIffNoOverflow` | pkg/price/price.go:29-32 | for a nonzero value and any decimals the result is value * 10^(total - decimals) iff that difference fits int32 |
| `Price.NegativeDecimalsOverflow` | pkg/price/price.go:29-32 | at the smallest int32 decimals the value 1 scales to 1, also through the version 3 handler |
| `Price.SameScaledIffSameAmount` | pkg/price/price.go:17-33 | two prices scale to the same integer iff v1 * 10^d2 = v2 * 10^d1 |
| `Price.VersionsAgree` | internal/price/price.go:70-200 | versions 3, 4 and 5 compute one function: when it succeeds, and which amount, token and currency it gives |
| `Price.PanicsIff` | internal/price/price.go:110-200 | unsigned decimals panic iff they exceed int32 and the currency and its decimals are known |
| `Price.SameAmountIffSameDecimals` | internal/price/price.go:162-200 | two parties told different decimals of a contract get the same payment token, and the same amount iff the decimals agree or the value is zero |
| `Purchase.PollTokenVisible` | pkg/booking/booking.go:361-418 | the retry loop stops at the first attempt that decides, and makes no more reads than that |
| `Purchase.FirstPresentDecides` | pkg/booking/booking.go:351-394 | the first present read decides between success and mismatch, after exactly that many reads |
| `Purchase.AbsentOutcomes` | pkg/booking/booking.go:351-418 | the poll ends cancelled iff a wait is before anything is present, and unseen iff nothing is ever present and no wait is cancelled |
| `Purchase.ImmutableDecides` | pkg/booking/booking.go:348-360 | against an immutable reservation the poll decides iff the reservation is not the free native one and is shown before a cancelled wait; it succeeds iff the expectation is what was reserved, and mismatches iff not |
| `Purchase.PrepareMint` | internal/messaging/mint_v5.go:19-76 | something is put on chain iff the deadline is accepted, the price converts and the mint takes effect; then it is the number written with the missing zeros; the response succeeds iff the mint was also seen |
| `Purchase.ProcessMintResponse` | internal/messaging/mint_v5.go:78-134 | the distributor's checks, poll, purchase and cancellation subscription in order, and the response for each failure, as the function of the next two rows |
| `Purchase.MintAndBuyAgree` | internal/messaging/mint_v5.go:36-115 | an order is placed iff the expected price is the supplier's and converts; it names the minted token iff its ID fits 64 bits, in the payment token on chain, at the amount on chain iff both sides are told the same decimals or the value is zero |
| `Purchase.MintThenBuy` | internal/messaging/mint_v5.go:78-134 | for any expected price and any token ID, against what the chain holds for the ID's low 64 bits: exactly when the purchase succeeds and when the poll mismatches; for an ID that fits, what is reserved is what was worked out iff both sides scale alike |
| `BotAuthCache.Service.IsBotAllowed` | pkg/ttm_accounts/ttm_accounts.go:154-187 | an unexpired entry answers; errors are returned and not cached |
| `BotAuthCache.LookupIsRun` | pkg/ttm_accounts/ttm_accounts.go:154-187 | such a lookup is a run of the concurrent protocol, whose recorded answer is what it returns |
| `BotAuthCache.AnswersBoundedStale` | pkg/ttm_accounts/ttm_accounts.go:154-187 | with concurrent lookups every answer is one the chain gave at most the timeout plus its fetch ago; no timeout, no caching |
| `BotAuthCache.CachedUntilExpiry` | pkg/ttm_accounts/ttm_accounts.go:154-187 | in every concurrent run a stored answer is used by every lookup of its key until the timeout is over or it is replaced, and by none after |
| `Timestamps.KeyInjective` | pkg/metadata/timestamps.go:35-38 | keys with different numbers or checkpoints differ |
| `Timestamps.KeysDistinct` | pkg/metadata/timestamps.go:35-38 | n stamps make n distinct keys |
| `Timestamps.KeysNumbered` | pkg/metadata/timestamps.go:35-38 | the i-th key reads as the number i, a dash and the i-th checkpoint |
| `Timestamps.TimestampMap.Stamp` | pkg/metadata/timestamps.go:35-38 | on a map made by stamping the key is always new; on any other map the entry under it is set |

## Left out

- Real cryptography, compression, JSON, protobuf and validation: abstract pairs of functions that undo each other.
- The store and cache of bot public keys: the recipient's key, and whether looking it up and storing the sender's succeed, are parameters.
- Slices of malformed frames: bounds are checked against the length of the data, while Go checks the upper bound against the capacity.
- The rooms, the Matrix client, the gRPC services, resolver, block-number subscriber, configuration and logging.
- SQL text and migrations: tables are maps and sets with transactions.
- EventListener.EventListener.TokenBoughtTimeoutHandler: handlers run one at a time there, so what other handlers do between its reads of the timer field is modelled in ListenerProtocol instead.
- The reset's table read and the timer's re-arming are one step in ListenerProtocol, as the code holds the timer's mutex over both.
- The handlers of pending, rejected and withdrawn cancellations: they change no table; ListenerProtocol has their notification as a step.
- A graceful stop of the listener: in ListenerProtocol it is not distinguished from a crash.
- The goroutines of the scheduler beyond their steps: two starts without a stop between them are not modelled.
- A forwarder that stays blocked in its send after its request timed out: nothing is claimed about its end.
- Versions 3 and 4 of mint and buy: same flow as version 5, with no further arithmetic on prices.
- The correction of a response's deadline, and the subscription to the bought event that follows a mint (its own method is modelled).
- The service-hash memo and the account cache: they cache values that never change.
