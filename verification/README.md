# Verified model of the bot's stateful protocols

This project models the parts of the repository that keep state under concurrency, expiry or crashes, and three
algorithms whose meaning is much simpler than their code, and proves what they promise.

- **Event deduplication** (`DedupStore`, `DedupRuns`, `DedupProperties`, `DedupOutcomes`, `MemoryStore`): the bounded in-memory claim,
  commit and release store. `MemoryStore.MemoryDedupStore` updates the fields the mutex protects; each method is proved
  against a function on the whole state and keeps the store's part of the invariant. `DedupRuns` interleaves any number
  of claims with cancellation at every wait, commits and releases with any token, and the two signals a release sends
  after it has unlocked. One invariant over all runs carries the accounting, the eviction queue and the justification of
  every wait.
- **OneBot 11 connection** (`Connection`, `ConnectionRuns`, `ConnectionProperties`, `ConnectionOrder`,
  `ConnectionActions`, `ConnectionLimits`, `ConnectionRetirement`, `ConnectionTask`): the select loop with its pending map and overflow deque, the event forwarder, and the admission of
  actions under the shared lock. Every select branch, every lock section after an await, the teardown and an abort are
  steps. A ghost history records what callers were told and what the runtime received. The class in `ConnectionTask`
  carries out every run of these steps on mutable fields.
- **QQ webhook** (`Webhook`, `WebhookRuns`, `WebhookProperties`, `WebhookLifecycle`, `WebhookService`): the record of seen event ids with
  expiry and saturation, the run lifecycle with generations, and delivery. Every request brings the clock it has read
  before taking the lock, so the clocks seen under the lock come in any order.
- **Managed logs** (`LogDisk`, `LogFiles`, `LogArchive`, `LogClosing`, `LogWriter`, `LogRuns`): the directory as a map from paths to
  contents together with a journal of every single change made to it, so that a crash is a prefix of the journal;
  oldest-first capacity enforcement; archiving of one log and of all closed logs; and the writer that rotates and
  appends. Every method states that each change it made was safe at the moment it was made, which logs it may have
  written and which limits it may have enforced. `LogRuns` puts whole sessions together, with a crash at any point.
- **Schema search** (`Json`, `JsonPointer`, `SchemaSearch`): the search for a declared property over a possibly cyclic
  schema, with references resolved as in section 4 of RFC 6901.
- **Canonical JSON** (`Sorting`, `CanonicalJson`): the canonical form, the hexadecimal digest, and the derived event ids.
- **Range download** (`RangeDownload`): the byte ranges of a download and their assembly in any order of completion.

`Common` holds what the modules share. Times are integers that each step reads. Fresh tokens and echoes are arbitrary
values not in use, the hash and the compression codec are parameters, and where a property needs an assumption about
them (no collision on two given inputs, digests of one length, a lossless codec) its `requires` says so.

## Where the code differs from what one might expect

Each of these has a concrete run or input in the project, next to a statement of exactly when the expectation holds.

- A duplicate claim whose future is dropped gives up its guard before its pin, so for a moment a live pin has no live
  guard (`DedupProperties.PinOutlivesGuard`); it is the only such moment (`DedupProperties.PinWithoutGuard`).
- `event_producer_waiting` stays up between moving the last event out of the deque and refreshing the flags
  (`ConnectionLimits.WaitingFlagOutlivesTheDeque`); the exact condition is `ConnectionProperties.FlagsAreExact`.
- A forwarder that fails while a full connection drains leaves `event_queue_full` up, and the next connection refuses
  actions although its queue is empty (`ConnectionLimits.FullFlagOutlivesTheConnection`), until it has read an event
  (`ConnectionLimits.LeftOverFlagRefusesActions`). Which retired connections can still come to
  that, by the events they hold, is `ConnectionRetirement.FlagLeftUpExactlyWhen`; in one run, the flag is up exactly when
  the forwarder's last refresh after retirement found no free slot (`ConnectionLimits.FullFlagAfterRetirement`), and a
  clean end never leaves it up (`ConnectionProperties.CleanEndDeliversAll`).
- The loop does not read while it writes a frame, whoever else waits for a reply; when a connection does not read is
  `ConnectionProperties.NotReadingExactlyWhen`, and that it resumes is `ConnectionProperties.ReadingResumes`.
- A later event can overtake one that waits in the deque, because it is read into a slot that has just become free
  (`ConnectionLimits.LaterEventsMayOvertake`). Events are delivered in the order in which they were accepted exactly when
  no read does so (`ConnectionOrder.DeliveryOrderExactlyWhen`, and `ConnectionOrder.OrderIsKeptExactlyWhen` for every
  stretch of a run); without such a read the deliveries are the first of the accepted events in their order however the
  connection ends (`ConnectionOrder.DeliveriesAreFirst`).
- A replay can be delivered twice. It may be authenticated in the last second of its window and dispatched in the next,
  because the two clocks are read separately (`WebhookProperties.ReplayAtTheEdge`). It may also be dispatched inside the
  window, when a concurrent request with a later clock has already made the record go
  (`WebhookProperties.ReplayBehindALaterClock`). Exactly when an event is delivered again is
  `WebhookProperties.RedeliveredExactlyWhen`, and exactly when its record goes is
  `WebhookProperties.ForgottenExactlyWhen`.
- A percent-encoded `$ref` is not decoded, so it misses a key with a character that a URI fragment must encode
  (`JsonPointer.EncodedSpaceMisses`). It finds its target in every document exactly when no key on its path has such a
  character (`JsonPointer.EncodedPointerFindsPathExactlyWhen`), and that decides what the search answers
  (`SchemaSearch.SearchBehindReference`).
- A new log looks up only its own name, so it may get the name of an earlier archive, and then the next opening fails
  (`LogRuns.ReusedNameStopsOpening`). Exactly when a change does that is `LogRuns.ConsistencyExactlyWhen`; a session
  whose names nobody has used never does (`LogRuns.Session`).
- A writer whose file limit exceeds its total limit, which the configuration check refuses but the writer itself does
  not, can fail a record that is within both limits (`LogWriter.FileLimitAboveTotal`); the condition is in the contract
  of `LogWriter.ManagedLogWriter.Write`.

## Model

| member | source | states |
|---|---|---|
| MemoryStore.MemoryDedupStore.PinWaiter | crates/bot-core/src/dedup.rs:431-434 | one more waiter on the key, everything else as before |
| MemoryStore.MemoryDedupStore.UnpinWaiter | crates/bot-core/src/dedup.rs:436-448 | the last waiter to leave removes its key, makes a committed entry evictable and signals capacity; an unknown key changes nothing |
| MemoryStore.MemoryDedupStore.EvictCommitted | crates/bot-core/src/dedup.rs:450-462 | the loop computes the eviction function on the whole state, stale queue items included; `EvictionRemovesFront` says what that means |
| MemoryStore.MemoryDedupStore.AdmitPendingClaim | crates/bot-core/src/dedup.rs:410-429 | a claim without a guard is admitted exactly while fewer claims are pending than the capacity |
| MemoryStore.MemoryDedupStore.Surrender | crates/bot-core/src/dedup.rs:164-214 | a finishing claim gives back its guard and its pin, and nothing else changes |
| MemoryStore.MemoryDedupStore.ClaimPass | crates/bot-core/src/dedup.rs:285-345 | one pass of the claim loop: the verdict, the guard and pin then held, and the whole new state; on a valid store the verdict is the one that entries, waiters and pending claims call for |
| MemoryStore.MemoryDedupStore.Commit | crates/bot-core/src/dedup.rs:348-376 | the whole new state and the result of a commit with any token |
| MemoryStore.MemoryDedupStore.ReleaseLocked | crates/bot-core/src/dedup.rs:378-399 | the whole new state of the locked half of a release, and whether the two signals are still owed |
| DedupRuns.EvictionRemovesFront | crates/bot-core/src/dedup.rs:450-462 | on a valid store making room removes exactly the oldest evictable entry, and only from a full store |
| DedupRuns.PassKeepsStore | crates/bot-core/src/dedup.rs:285-345 | a pass keeps the capacity bound and the exact eviction queue, and moves the counters by exactly the guard and pin taken or given back |
| DedupRuns.PassSignals | crates/bot-core/src/dedup.rs:285-345 | whatever a pass changes that another claim may be waiting for is signalled in the same critical section |
| DedupRuns.StepKeepsValid | crates/bot-core/src/dedup.rs:276-407 | every step of every claim, cancellation, commit, release and late signal keeps the invariant |
| DedupRuns.RunsAreValid | crates/bot-core/src/dedup.rs:276-407 | the invariant holds in every state of every run |
| DedupOutcomes.VerdictExactlyWhen | crates/bot-core/src/dedup.rs:285-345 | a claim is a duplicate exactly when its key is committed, granted exactly when the key is free and the store has room or a committed entry without waiters, and otherwise waits on the entry or for room, or is refused exactly when it holds no guard and the pending claims are at the limit |
| DedupOutcomes.ClaimsGetTheirVerdict | crates/bot-core/src/dedup.rs:285-345 | the same for every try of every claim in all runs, whether it is new or has waited |
| DedupOutcomes.ReleasedKeyIsGranted | crates/bot-core/src/dedup.rs:321-341 | a waiting claim that is tried while its key is free and there is room owns the key and holds nothing else |
| DedupOutcomes.RefusedExactlyWhen | crates/bot-core/src/dedup.rs:277-283 | in all runs a claim is refused for its size exactly when its key has more than 1024 bytes |
| DedupOutcomes.QueueIsByAge | crates/bot-core/src/dedup.rs:436-448 | in all runs the eviction queue is in the order in which its entries became evictable |
| DedupOutcomes.OldestIsForgotten | crates/bot-core/src/dedup.rs:450-462 | a committed entry is forgotten only when every other entry that could go became evictable later |
| DedupProperties.NoLostWakeUp | crates/bot-core/src/dedup.rs:285-345 | a claim that waits without an unseen signal waits on the in-flight entry with the token it watched, or on a full store in which every committed entry is pinned, unless a release has yet to signal |
| DedupProperties.WaitingWakesNobody | crates/bot-core/src/dedup.rs:302-337 | a pass that ends in a wait moves no channel, so waiters do not wake each other |
| DedupProperties.InternalStepsUseUpWork | crates/bot-core/src/dedup.rs:285-345 | every retry, finished drop and late signal uses up a well-founded measure, so claims cannot spin |
| DedupProperties.InternalRunsSettle | crates/bot-core/src/dedup.rs:285-345 | from every valid state the internal steps reach a state in which none is left |
| DedupProperties.WaitsAreForOwners | crates/bot-core/src/dedup.rs:302-337 | in such a state a claim waits only for the owner of its key with the token it watched, or for room in a full store whose entries are all owned |
| DedupProperties.UnfinishedClaimsHaveAnOwner | crates/bot-core/src/dedup.rs:285-345 | no deadlock: while a settled store has an unfinished claim somebody owns an entry |
| DedupProperties.PinnedClaimNeverRunsTwice | crates/bot-core/src/dedup.rs:292-314 | a claim pinned on a key that gets committed is never granted that key: the entry stays until the claim is told it is a duplicate or is dropped |
| DedupProperties.PassOnSlot | crates/bot-core/src/dedup.rs:285-345 | what a pass does to any one key: grants the claimed free key, forgets one unpinned committed key of a full store, or nothing |
| DedupProperties.SlotTransitions | crates/bot-core/src/dedup.rs:277-407 | one step takes a key from free to owned with a new token, from owned to done or free by its own token only, and from done to free only to make room for another key |
| DedupProperties.OwnerFinishesFirst | crates/bot-core/src/dedup.rs:348-407 | an in-flight entry changes only by the commit or release of its own token, over any stretch of a run |
| DedupProperties.GrantsAreExclusive | crates/bot-core/src/dedup.rs:277-407 | between two grants of one key the first owner has committed or released, while still owning it |
| DedupProperties.StaleTokensStayStale | crates/bot-core/src/dedup.rs:348-400 | a token that is no longer stored is refused for good and never changes the store again |
| DedupProperties.ForgedTokensChangeNothing | crates/bot-core/src/dedup.rs:348-400 | exactly the stored token commits, exactly it or an absent entry releases, and every other token leaves the state untouched |
| DedupProperties.FinalizationIsIdempotent | crates/bot-core/src/dedup.rs:348-400 | repeating a finalization succeeds and changes nothing; a commit survives a release, and a released entry cannot be committed |
| DedupProperties.OversizedKeysAreRefused | crates/bot-core/src/dedup.rs:277-283 | in all runs a claim for a key of more than 1024 bytes is refused and no such key is ever stored |
| DedupProperties.CountsAreExact | crates/bot-core/src/dedup.rs:302-337 | in all runs: entries within capacity, pending claims equal to the guards held and within capacity, waiters of a key equal to the pins on it, no zero entries |
| DedupProperties.QueueIsExact | crates/bot-core/src/dedup.rs:365-372 | in all runs the eviction queue is, without duplicates, exactly the committed entries without waiters |
| DedupProperties.PinWithoutGuard | crates/bot-core/src/dedup.rs:164-223 | a pin has no guard exactly while a dropped claim has given up the one and not yet the other |
| DedupProperties.PinOutlivesGuard | crates/bot-core/src/dedup.rs:277-284 | a run that reaches that moment |
| ConnectionTask.OneBotConnection.Admit | crates/adapter-onebot11/src/lib.rs:816-843 | an action is put at the back of the queue exactly when the connection is published, neither flag is up and the queue has room; otherwise nothing changes and the caller is told which of these failed |
| ConnectionTask.OneBotConnection.ExpirePending | crates/adapter-onebot11/src/lib.rs:1146-1160 | exactly the pending actions whose deadline has come are settled as unknown and removed |
| ConnectionTask.OneBotConnection.FailPendingUnknown | crates/adapter-onebot11/src/lib.rs:1162-1168 | every pending action is settled as unknown once |
| ConnectionTask.OneBotConnection.FailUnsent | crates/adapter-onebot11/src/lib.rs:1170-1176 | every queued action is settled as not sent once |
| ConnectionTask.OneBotConnection.FailAll | crates/adapter-onebot11/src/lib.rs:416-421 | at the limit of the deque all queued and pending actions are settled |
| ConnectionTask.OneBotConnection.StartTransmission | crates/adapter-onebot11/src/lib.rs:977-1028 | an expired, surplus or unencodable action is refused as not sent; any other becomes pending under its echo before its frame is handed over |
| ConnectionTask.OneBotConnection.EndTransmission | crates/adapter-onebot11/src/lib.rs:1022-1041 | a failed write settles the action as unknown and ends the loop |
| ConnectionTask.OneBotConnection.ReadResponse | crates/adapter-onebot11/src/lib.rs:487-509 | a response settles the action with its echo and is ignored when there is none |
| ConnectionTask.OneBotConnection.EnqueueLocalEvent | crates/adapter-onebot11/src/lib.rs:250-286 | an event is queued, put into the deque with both flags raised, or refused when the queue is closed |
| ConnectionTask.OneBotConnection.MoveOverflow | crates/adapter-onebot11/src/lib.rs:383-390 | the front of the deque moves to the back of the queue |
| ConnectionTask.OneBotConnection.RefreshFlags | crates/adapter-onebot11/src/lib.rs:391-397 | both flags are recomputed from the queue and the deque |
| ConnectionTask.OneBotConnection.Unpublish | crates/adapter-onebot11/src/lib.rs:131-147 | the sender is withdrawn and both flags are lowered |
| ConnectionTask.OneBotConnection.RefreshFullFlag | crates/adapter-onebot11/src/lib.rs:871-877 | having taken an event the forwarder recomputes the full flag |
| ConnectionTask.OneBotConnection.PassToRuntime | crates/adapter-onebot11/src/lib.rs:878-903 | the runtime takes the event, or the forwarder ends and its event and the queued ones are lost |
| ConnectionTask.OneBotConnection.Retire | crates/adapter-onebot11/src/lib.rs:449-452 | what is queued is settled as not sent and what is pending as unknown |
| ConnectionTask.OneBotConnection.Drop | crates/adapter-onebot11/src/lib.rs:149-154 | the guard of a dropped task lowers the flags and stops the forwarder, and what was held or unsettled is given up |
| ConnectionTask.OneBotConnection.Perform | crates/adapter-onebot11/src/lib.rs:331-476 | every step is carried out by the handlers above and keeps the invariant |
| ConnectionTask.OneBotConnection.Serve | crates/adapter-onebot11/src/lib.rs:331-476 | every run is carried out by the class, and one that ends has told the caller of every admitted action exactly once |
| ConnectionRuns.SteadyStays | crates/adapter-onebot11/src/lib.rs:331-476 | every step of the task, the forwarder and the callers keeps the phases, bounds and flags consistent |
| ConnectionRuns.PendingStillFits | crates/adapter-onebot11/src/lib.rs:990-995 | at most the configured number of actions is ever pending |
| ConnectionRuns.ActionStaysAccounted | crates/adapter-onebot11/src/lib.rs:977-1041 | every step leaves each admitted action queued, pending, settled or abandoned, in exactly one way |
| ConnectionRuns.EventStaysAccounted | crates/adapter-onebot11/src/lib.rs:383-398 | every step leaves each accepted event delivered, held or lost as often as it was accepted |
| ConnectionRuns.RunsAreValid | crates/adapter-onebot11/src/lib.rs:331-476 | the connection's invariant holds in every state of every run |
| ConnectionProperties.SettledAtMostOnce | crates/adapter-onebot11/src/lib.rs:977-1041 | in all runs an action is settled at most once; "not sent" means no frame was handed to the socket, a response or "unknown" means exactly one was |
| ConnectionProperties.EndedSettlesAll | crates/adapter-onebot11/src/lib.rs:446-452 | a connection that ran to its end has settled every admitted action exactly once |
| ConnectionProperties.NotSentIsFinal | crates/adapter-onebot11/src/lib.rs:977-1012 | an action reported as not sent has no frame handed over earlier or later in the run |
| ConnectionProperties.OneFramePerEcho | crates/adapter-onebot11/src/lib.rs:996-1021 | no two frames of a connection carry the same echo, which rests on every echo being fresh |
| ConnectionProperties.AnswersMatchFrames | crates/adapter-onebot11/src/lib.rs:499-507 | in all runs a response answers the action of the one frame that carried its echo, handed over before that action's deadline |
| ConnectionProperties.TicksGiveUpTheOverdue | crates/adapter-onebot11/src/lib.rs:1146-1160 | a tick settles only actions whose deadline has come and leaves no such action pending |
| ConnectionActions.ActionsStayInOrder | crates/adapter-onebot11/src/lib.rs:829-843 | over any stretch in which the queue is not emptied at once, the actions taken and then those still queued are, in order, those queued before and then those admitted |
| ConnectionActions.TakenInOrder | crates/adapter-onebot11/src/lib.rs:368-382 | of any two actions taken out of the queue in a run, the one taken first was admitted first |
| ConnectionActions.FramesFollowAdmissions | crates/adapter-onebot11/src/lib.rs:977-1028 | of any two actions that get a frame, the one admitted first gets it first |
| ConnectionActions.HandedOverExactlyWhen | crates/adapter-onebot11/src/lib.rs:977-1012 | the front of the queue gets a frame exactly when its deadline has not come, the pending actions are below the limit and it can be encoded, and is told "not sent" otherwise |
| ConnectionActions.AnsweredExactlyWhen | crates/adapter-onebot11/src/lib.rs:487-509 | a response answers exactly the action pending under its echo and touches no other |
| ConnectionActions.FailedWriteIsUnknown | crates/adapter-onebot11/src/lib.rs:1022-1041 | a failed write settles its own action as unknown at once and no other, and a successful one none |
| ConnectionActions.AdmitsExactlyWhen | crates/adapter-onebot11/src/lib.rs:816-843 | away from the moments in which a flag is about to be refreshed, a connection that did not start with a left-over flag, or has had an event since, admits exactly when the deque is empty and both queues have room |
| ConnectionProperties.NotReadingExactlyWhen | crates/adapter-onebot11/src/lib.rs:398-421 | while the loop waits without reading, no action is queued, pending or admissible, so nobody waits for a reply that is not read; otherwise a published connection does not read only while it writes a frame or is between two steps of a branch |
| ConnectionProperties.ReadingResumes | crates/adapter-onebot11/src/lib.rs:1022-1041 | the end of a write leads to a state that reads or ends the loop, refreshing the flags leads to one that reads, and settling everything leaves nothing waiting for a reply |
| ConnectionProperties.FlagsAreExact | crates/adapter-onebot11/src/lib.rs:383-398 | while published the waiting flag is up exactly when the deque is in use or was just popped, and with both flags down the queue has a free slot |
| ConnectionProperties.AdmissionMeansRoom | crates/adapter-onebot11/src/lib.rs:816-843 | every admission happens with an empty deque and a free event slot |
| ConnectionProperties.EventsAreConserved | crates/adapter-onebot11/src/lib.rs:232-286 | as multisets, accepted events are those delivered, held by forwarder, queue and deque, or lost; at most 64 are held, and only a failed forwarder loses any |
| ConnectionProperties.CleanEndDeliversAll | crates/adapter-onebot11/src/lib.rs:449-475 | an end without a runtime failure or an abort delivers every accepted event exactly once and leaves both flags down |
| ConnectionProperties.ClosingUsesUpWork | crates/adapter-onebot11/src/lib.rs:443-475 | once the loop has ended every step but an abort uses up a measure, or is an admission before the sender is withdrawn |
| ConnectionProperties.ClosingIsNeverStuck | crates/adapter-onebot11/src/lib.rs:443-475 | while closing the task or the forwarder can always take a step that uses up work, so the teardown cannot deadlock |
| ConnectionLimits.WaitingFlagOutlivesTheDeque | crates/adapter-onebot11/src/lib.rs:383-398 | a reachable state with the waiting flag up and an empty deque |
| ConnectionLimits.LaterEventsMayOvertake | crates/adapter-onebot11/src/lib.rs:261-265 | a reachable state in which an event read later is queued while an earlier one waits in the deque |
| ConnectionOrder.ReadGoesExactlyWhere | crates/adapter-onebot11/src/lib.rs:250-286 | an event that is read goes into the queue while that holds fewer than 61, otherwise into the deque, a second one there makes the loop fail its actions, and after the end of the forwarder it stops the loop |
| ConnectionOrder.OrderIsKept | crates/adapter-onebot11/src/lib.rs:250-286 | in a run without losses and without an overtaking read, the deliveries followed by what is held are the accepted events in their order |
| ConnectionOrder.OvertakingSwaps | crates/adapter-onebot11/src/lib.rs:261-265 | an overtaking read puts its event before the front of the deque, which was accepted earlier |
| ConnectionOrder.OrderIsKeptExactlyWhen | crates/adapter-onebot11/src/lib.rs:250-286 | after any number of steps without losses, for distinct events, the order of acceptance is kept exactly when no read overtook |
| ConnectionOrder.DeliveryOrderExactlyWhen | crates/adapter-onebot11/src/lib.rs:383-475 | a connection that ends without a failure or an abort has delivered distinct events in the order of acceptance exactly when no read overtook |
| ConnectionOrder.DeliveriesAreFirst | crates/adapter-onebot11/src/lib.rs:859-906 | in every run without an overtaking read, with losses or not, the deliveries are the first of the accepted events in their order |
| ConnectionRetirement.FlagLeftUpExactlyWhen | crates/adapter-onebot11/src/lib.rs:443-475 | a retired connection with its full flag down can end with it up exactly when it holds at least 62 events, or 63 when the forwarder has already checked the queue for the one in its hand; from every other state the flag stays down whatever happens |
| ConnectionRetirement.StoppingDecides | crates/adapter-onebot11/src/lib.rs:131-147 | the same, decided by the state in which the loop stops, before the sender is withdrawn |
| ConnectionLimits.FullFlagAfterRetirement | crates/adapter-onebot11/src/lib.rs:871-877 | after retirement the full flag is up exactly when the forwarder's last refresh after retirement found no free slot |
| ConnectionLimits.OnlyFullConnectionsLeaveTheFlag | crates/adapter-onebot11/src/lib.rs:871-877 | in one run, the full flag is up after retirement only if at least 62 events were held when the connection retired and, once it has ended, only if the forwarder failed |
| ConnectionLimits.FullFlagOutlivesTheConnection | crates/adapter-onebot11/src/lib.rs:449-475 | a run that ends with the full flag up, after which a new and empty connection admits no action |
| ConnectionLimits.LeftOverFlagRefusesActions | crates/adapter-onebot11/src/lib.rs:816-843 | a connection that opens with the full flag up admits no action before it has read an event, in any run |
| WebhookService.SeenEvents.Lookup | crates/adapter-qqbot/src/webhook.rs:286-296 | the state of an unexpired record; an expired one is forgotten |
| WebhookService.SeenEvents.Reserve | crates/adapter-qqbot/src/webhook.rs:298-322 | a duplicate, a new pending record, or saturation, with expired records purged only when there is no room |
| WebhookService.SeenEvents.Accept | crates/adapter-qqbot/src/webhook.rs:324-330 | a pending record becomes accepted, and nothing else changes |
| WebhookService.SeenEvents.Release | crates/adapter-qqbot/src/webhook.rs:332-336 | a pending record is forgotten, and nothing else changes |
| WebhookService.WebhookState.StartRun | crates/adapter-qqbot/src/webhook.rs:166-186 | refused exactly while a run is active, otherwise a run of a new generation |
| WebhookService.WebhookState.DropRunGuard | crates/adapter-qqbot/src/webhook.rs:262-278 | only the guard of the active generation ends the run |
| WebhookService.WebhookState.Deliver | crates/adapter-qqbot/src/webhook.rs:531-598 | records, lifecycle, response and terminal error of one delivery, for every reservation, run and queue answer |
| WebhookRuns.DeliveredExactlyWhen | crates/adapter-qqbot/src/webhook.rs:531-598 | an event goes into the queue exactly when its id has no live record, there is room, the request's run is active and the queue takes it |
| WebhookRuns.AttemptIsSound | crates/adapter-qqbot/src/webhook.rs:531-598 | a delivery leaves only accepted records and forgets others only when its clock is past their expiry |
| WebhookRuns.RunsAreValid | crates/adapter-qqbot/src/webhook.rs:453-598 | the webhook's invariant holds in every state of every run |
| WebhookLifecycle.GuardEndsItsRun | crates/adapter-qqbot/src/webhook.rs:262-278 | after the drop of a guard a run is active exactly when one of another generation was, and then nothing has changed |
| WebhookLifecycle.StartsAfterGuardExactlyWhen | crates/adapter-qqbot/src/webhook.rs:177-186 | after the drop of a guard a run can start exactly when none of another generation is active |
| WebhookLifecycle.NothingGoesIntoAnEndedRun | crates/adapter-qqbot/src/webhook.rs:551-566 | once the guard of a started run is dropped no event is ever delivered into that run |
| WebhookLifecycle.ToldExactlyWhen | crates/adapter-qqbot/src/webhook.rs:567-583 | a run is told of a terminal error exactly when one of its delivery attempts has met a mismatching adapter, that is, on the first |
| WebhookLifecycle.LetInExactlyWhen | crates/adapter-qqbot/src/webhook.rs:401-407 | a callback is let in exactly when the clock is no further from its signature than the tolerance, on either side |
| WebhookLifecycle.ReplayIsLetInOnlyBeforeExpiry | crates/adapter-qqbot/src/webhook.rs:401-407 | a replay of a delivered callback is let in only up to the end of its window, which is no later than the expiry of the delivery |
| WebhookLifecycle.RefusedExactlyWhen | crates/adapter-qqbot/src/webhook.rs:465-530 | a request is answered as a bad request exactly when it has no usable id where it needs one |
| WebhookLifecycle.NewEventIsDelivered | crates/adapter-qqbot/src/webhook.rs:453-598 | an event without a live record, for the active run, with room and a queue that takes it, is delivered and acknowledged under whichever id it goes by, when nobody interferes |
| WebhookProperties.AtMostOnceUntilExpiry | crates/adapter-qqbot/src/webhook.rs:528-598 | between two deliveries of one id somebody used a clock later than the first record's expiry, which covers both the signature window and the request timeout |
| WebhookProperties.ReplayInsideWindow | crates/adapter-qqbot/src/webhook.rs:480-550 | a request with a remembered id and a clock inside the window is answered as a duplicate at every stage, as long as nobody has used a later clock |
| WebhookProperties.RedeliveredExactlyWhen | crates/adapter-qqbot/src/webhook.rs:528-598 | after any earlier delivery of its id an event is delivered again exactly when the id has no live record, there is room, the request's run is active and the queue takes it; without a live record the request's clock or one used since is past the expiry |
| WebhookProperties.ForgottenExactlyWhen | crates/adapter-qqbot/src/webhook.rs:286-322 | a remembered delivery is forgotten or replaced exactly by a request that looks up or reserves its id, or makes room, with a clock past the expiry |
| WebhookProperties.ReplayAtTheEdge | crates/adapter-qqbot/src/webhook.rs:401-407 | a run in which the same signed callback is delivered twice |
| WebhookProperties.ReplayBehindALaterClock | crates/adapter-qqbot/src/webhook.rs:474-483 | a run in which the second delivery's own clock is inside the window |
| WebhookProperties.AcknowledgementsAreSound | crates/adapter-qqbot/src/webhook.rs:480-598 | code 0 for a mapped event means that its id was put on the queue by this or an earlier request; code 1 is for malformed dispatches only; nobody is told that an event is still pending |
| WebhookProperties.RecordsAreSettled | crates/adapter-qqbot/src/webhook.rs:298-336 | whenever the record lock is free there are at most 4096 records and none is pending |
| WebhookProperties.FailuresAreRetryable | crates/adapter-qqbot/src/webhook.rs:532-598 | a delivery attempt leaves its id recorded exactly when it is acknowledged, so every failure can be retried |
| WebhookProperties.NoForeignRuns | crates/adapter-qqbot/src/webhook.rs:551-572 | an event only ever goes into the active run of the request's own generation |
| WebhookProperties.OneTerminalErrorPerRun | crates/adapter-qqbot/src/webhook.rs:567-583 | no run is told of a terminal error twice |
| LogDisk.LogDirectory.KnownLogFiles | src/logging/writer.rs:277-303 | the listing has every managed file exactly once and nothing else |
| LogFiles.ManagedLogSize | src/logging/writer.rs:236-242 | the loop adds up to the total size of the managed files |
| LogFiles.EnforceCapacity | src/logging/writer.rs:244-275 | nothing happens within the limit; above it the shortest run of oldest deletable files goes that reaches the low-water mark, or all of them if none does; every single removal was due: the oldest file that may go, with the total above the mark; and where a file went, every older one that may go went too |
| Sorting.BeforeExactlyWhen | src/logging/writer.rs:258-262 | a text is before another exactly when it has the smaller character in the first place where they differ, or ends there |
| LogFiles.OldestFirstIsByAge | src/logging/writer.rs:258-262 | the order of removal is by timestamp, earlier first, and between equal timestamps by the names |
| LogFiles.OlderGoFirst | src/logging/writer.rs:263-275 | in every such run of removals, a removed file has no older log or archive that is kept, but for the active one |
| LogFiles.EnforcementTakesTheOldest | src/logging/writer.rs:244-275 | the same of every enforcement of a limit, by rotation, maintenance, opening or writing |
| LogFiles.DueIsOldest | src/logging/writer.rs:258-275 | every single eviction takes the oldest log or archive there is, but for the active one |
| LogFiles.EveryLogCounts | src/logging/writer.rs:236-242 | each plain log and each archive counts towards the total with every byte, and nothing else does |
| LogFiles.LowWaterIsNinetyPercent | src/logging/writer.rs:263 | the target is ninety percent of the limit rounded down, as long as ninety times the limit fits 64 bits, and never more |
| LogFiles.RunIsUnique | src/logging/writer.rs:244-275 | which files go depends on the directory alone, not on the order of its listing |
| LogFiles.EnforcementKeeps | src/logging/writer.rs:244-275 | the active file and unmanaged files stay, kept files are unchanged, and the limit is met unless only the active file is left |
| LogArchive.ValidateArchiveMatchesSource | src/logging/writer.rs:208-234 | for every way in which the two readers chunk their data, it accepts exactly when the archive decodes to the source |
| LogArchive.ArchiveFile | src/logging/writer.rs:185-206 | succeeds exactly without a mismatching archive and leaves the archive in place of the source; each change in its journal was safe when it was made, and each state in between is one from which archiving can be taken up again |
| LogArchive.CrashLosesNothing | src/logging/writer.rs:172-275 | for every prefix of a journal of safe changes, by whichever methods: what a log held is in the log or in a complete archive, unless one of the two was evicted, which was then due under a limit of the scope |
| LogArchive.ArchivesStay | src/logging/writer.rs:185-275 | for every such prefix an archive is unchanged, unless it was itself evicted |
| LogArchive.MismatchChangesNothing | src/logging/writer.rs:188-192 | in every state of archiving a log other logs are untouched, and a mismatching archive means that nothing is changed |
| LogArchive.RestartConverges | src/logging/writer.rs:185-206 | from every intermediate state archiving again ends with the archive alone, the same as without the crash |
| LogClosing.ArchiveClosedLogs | src/logging/writer.rs:172-183 | every closed log is archived and the active one left alone; it stops early exactly when some closed log has a mismatching archive; every change was safe and every state in between is one of closing |
| LogClosing.ArchivingLosesNothing | src/logging/writer.rs:172-183 | whether it finishes or stops, each log is as it was or in an archive that decodes to it |
| LogClosing.CrashWhileClosingLosesNothing | src/logging/writer.rs:172-206 | the same in every state that closing the logs goes through |
| LogClosing.ArchivingKeepsContent | src/logging/writer.rs:172-183 | when it finishes, each closed log is an archive that decodes to it, and the active one is as before |
| LogClosing.ArchivedIsUnique | src/logging/writer.rs:172-183 | the files in the end do not depend on the order of archiving |
| LogClosing.ClosingRestartConverges | src/logging/writer.rs:172-206 | after a crash in any such state, closing the logs again succeeds and ends with the same files |
| LogWriter.ManagedLogWriter.Rotate | src/logging/writer.rs:114-123 | the active file is archived and the total enforced, or nothing changes on a mismatch; every change was safe, no log was written, and nothing was evicted under another limit than the total |
| LogWriter.ManagedLogWriter.OpenFile | src/logging/writer.rs:83-112 | the new file has the first free name, is empty, and no existing file is touched |
| LogWriter.ManagedLogWriter.Maintain | src/logging/writer.rs:125-129 | all closed logs are archived and then the total is enforced, with the active file untouched; on a mismatch some closed logs are archived and nothing else has changed; every change was safe |
| LogWriter.MaintenanceKeepsLogs | src/logging/writer.rs:125-129 | after maintenance each log is as it was or in an archive that decodes to it, unless the total was exceeded and its archive was in the shortest run of oldest files that had to go |
| LogWriter.ManagedLogWriter.EnsureFile | src/logging/writer.rs:65-81 | the directory is the one given, rotated and reopened if that was called for, and maintained if that was due; the active file is of the current day with room for the record; on a failure, where it stopped and what had changed by then; maintenance is due again six hours after it has succeeded |
| LogWriter.ManagedLogWriter.Write | src/logging/writer.rs:133-163 | a success is the prepared directory, with older files evicted only if the record would not have fitted, and the record appended, within both limits, to the active file if that is of the same day and has room and to a new one otherwise; a record cannot fit exactly when it and its file exceed the total, which is impossible when the file limit is no larger; every change was safe, only the active file was written, and evictions were under the total or what the record leaves of it; maintenance is due again six hours after it has succeeded |
| LogWriter.OpenWriter | src/logging/writer.rs:38-63 | a writer starts exactly when no earlier log has a mismatching archive, with all logs archived and then the total enforced; every change was safe, and evictions were under the total |
| LogRuns.ConsistencyExactlyWhen | src/logging/writer.rs:83-112 | on a disk where every archive agrees with its log, a safe change keeps that so exactly unless it writes a log under the name of an archive with other content |
| LogRuns.ReusedNameStopsOpening | src/logging/writer.rs:83-112 | a disk on which creating a log under such a name makes the next opening fail |
| LogRuns.CleanHistoryIsConsistent | src/logging/writer.rs:172-234 | after a crash at any point of a history that writes no such log, no archive disagrees with its log, so opening succeeds |
| LogRuns.NothingStopsAWrite | src/logging/writer.rs:133-163 | on such a disk neither rotation nor maintenance stops a write |
| LogRuns.NamesComeFromScope | src/logging/writer.rs:83-112 | no name is ever taken on the disk but those of the logs that were written |
| LogRuns.Session | src/logging/writer.rs:38-163 | a writer is opened and writes any sequence of records: no archive stops it, at every point of the journal every archive agrees with its log, every written record was at the end of a log, and only logs of the session were written and only its limits enforced |
| LogRuns.RecordsSurviveACrash | src/logging/writer.rs:133-275 | after a crash at any later point of the session a written record is in its log or in a complete archive, unless that was evicted |
| LogRuns.OpeningAgainKeeps | src/logging/writer.rs:38-63 | opening again on what the crash left keeps it, unless the total is exceeded and its archive is in the shortest run of oldest files that has to go |
| LogWriter.FileLimitAboveTotal | src/config/mod.rs:517-524 | a writer with the limits that this check refuses fails a record within both limits |
| SchemaSearch.SchemaNodeDeclaresProperty | src/cli.rs:650-679 | it terminates; a positive answer has a path of compositions and local references to a declaring node, a negative one leaves every visited reference clear |
| SchemaSearch.SearchReference | src/cli.rs:663-674 | a local reference is followed at most once, and afterwards counts as visited |
| SchemaSearch.SearchComposed | src/cli.rs:675-679 | the loop over the composed nodes finds a declaration or shows each of them clear |
| SchemaSearch.SchemaDeclaresProperty | src/cli.rs:643-648 | the answer is yes exactly when a node declaring the property can be reached from the root |
| SchemaSearch.EdgeExactlyWhen | src/cli.rs:663-679 | a node leads exactly to those in the arrays under its "allOf", "anyOf" and "oneOf", and to what its reference finds when that starts with # |
| SchemaSearch.DeclaresExactlyWhen | src/cli.rs:656-662 | a node declares a property exactly when the object under its "properties" has the key |
| SchemaSearch.DeclaredInKeyword | src/cli.rs:675-679 | what an entry of any of the three arrays declares is declared by the node |
| SchemaSearch.DeclaredFromExactlyWhen | src/cli.rs:650-679 | a property is declared from a node exactly when the node declares it or it is declared from a node it leads to |
| JsonPointer.ResolveExactlyWhen | src/cli.rs:666-667 | one step of a pointer finds the item at the index whose decimal text the token is, or the first member with that key, and nothing in other values |
| JsonPointer.IndexExactlyWhen | src/cli.rs:666-667 | a token is an index exactly when it is the decimal text of it: no sign and no leading zero |
| JsonPointer.StandardPointers | src/cli.rs:666-667 | examples of section 5 of RFC 6901 find the values it gives |
| JsonPointer.PointerFindsPath | src/cli.rs:666-667 | a local reference written for a path of keys and indices, escaped as section 3 of RFC 6901 says and not percent-encoded, finds exactly what the path leads to |
| JsonPointer.EncodedPointerFindsEncodedKeys | src/cli.rs:666-667 | a reference percent-encoded as section 6 of RFC 6901 says finds what the path with percent-encoded keys leads to |
| JsonPointer.EncodedPointerFindsPathExactlyWhen | src/cli.rs:666-667 | so it finds its target in every document exactly when no key on the path has a character that a fragment must encode |
| SchemaSearch.SearchBehindReference | src/cli.rs:643-679 | behind a reference as it is the search sees the property always, and behind its percent-encoded form exactly when the key has no such character |
| JsonPointer.EncodedSpaceMisses | src/cli.rs:666-667 | a reference with an encoded space misses the key with the space |
| JsonPointer.UnescapeUndoesEscape | src/cli.rs:666-667 | decoding a reference token undoes its escaping for every key |
| JsonPointer.IndexIsReadBack | src/cli.rs:666-667 | an array index is read back from its decimal text |
| SchemaSearch.ClearPath | src/cli.rs:650-679 | why a fruitless search is complete: nothing reachable from a clear node declares the property |
| SchemaSearch.ClearGrows | src/cli.rs:663-679 | references visited later never invalidate what was found clear |
| CanonicalJson.CanonicalMembers | crates/adapter-onebot11/src/mapping.rs:172-184 | a canonical object is in strict key order and maps each key to the canonical form of its value |
| CanonicalJson.CanonicalKeysAscend | crates/adapter-onebot11/src/mapping.rs:175-176 | the keys of a canonical object ascend by the first character in which they differ |
| CanonicalJson.OrderedMembersAreUnique | crates/adapter-onebot11/src/mapping.rs:175-176 | two objects in strict key order with the same values are the same list |
| CanonicalJson.CanonicalFormsDecide | crates/adapter-onebot11/src/mapping.rs:172-188 | canonical forms are equal exactly for values that differ by key order at any depth |
| CanonicalJson.CanonicalFormIsSame | crates/adapter-onebot11/src/mapping.rs:172-188 | a canonical form differs from its original by key order only |
| CanonicalJson.CanonicalizeIsIdempotent | crates/adapter-onebot11/src/mapping.rs:172-188 | canonicalizing twice is canonicalizing once |
| CanonicalJson.HexReadsBack | crates/adapter-onebot11/src/mapping.rs:165-168 | every byte is two lower-case hexadecimal digits, the higher one first |
| CanonicalJson.HexIsInjective | crates/adapter-onebot11/src/mapping.rs:165-168 | different digests have different texts |
| CanonicalJson.PayloadDigest | crates/adapter-onebot11/src/mapping.rs:160-170 | the loop writes the hexadecimal text of the hash of the canonical form |
| CanonicalJson.EventIdsFollowContent | crates/adapter-onebot11/src/mapping.rs:137-149 | any two events have the same id exactly when the readable parts of their ids are the same and adapter and content agree up to key order, as long as the digests have one length and do not collide on them |
| RangeDownload.PlanRanges | src/browser.rs:1287-1306 | the ranges are non-empty, contiguous and cover exactly the object, all but the last of the same size, at most sixteen, without 64-bit overflow |
| RangeDownload.PartSizeIsLeast | src/browser.rs:1287 | the common size of the parts is the least of which sixteen cover the object |
| RangeDownload.RangesPartition | src/browser.rs:1289-1306 | every byte of the object is in exactly one range |
| RangeDownload.CopyInto | src/browser.rs:1319-1322 | a part overwrites exactly its slice of the buffer |
| RangeDownload.AssembleArchive | src/browser.rs:1308-1334 | assembly succeeds exactly when every task delivered inside the archive and every part arrived once |
| RangeDownload.AssemblyIsTheObject | src/browser.rs:1308-1334 | for every order of completion the assembled archive is the original object |

## Left out

- Widths: watch-channel versions, run and connection generations are unbounded counters here and wrap at 64 bits in the code; the segment number saturates at 2^32 - 1, after which all names of one moment are the same; directory totals are unbounded and saturate at 2^64 - 1.
- MemoryStore.MemoryDedupStore.ReleaseLocked: states the locked half only; the two signals after unlocking are separate steps of `DedupRuns`.
- SchemaSearch.SchemaNodeDeclaresProperty: takes a node whose strings are strings of the root, as every node of the root has; the code only ever calls it with such nodes.
- LogWriter.ManagedLogWriter.Write: file-system failures other than a mismatching archive are not modelled, and the removal of empty month directories is left out.
- LogRuns.Session: takes a session whose file names no earlier one has used, which is what the process id and the nanosecond of the start in them are for; `LogRuns.ConsistencyExactlyWhen` says what happens otherwise.
- ConnectionOrder.OrderIsKeptExactlyWhen: speaks of distinct events, since of two equal ones nobody can tell which came first.
- LogArchive.CrashLosesNothing: a process crash between changes, with each change durable; loss of unsynced data on power failure is not modelled.
- LogDisk.LogDirectory.KnownLogFiles: the directory is changed only through the methods of `LogDisk.LogDirectory`, which keep its journal; the language has no private fields to enforce that.
- ConnectionTask.OneBotConnection.Serve: the steps come from a given run; which step comes next is the choice of the scheduler, the peer and the callers.
- CanonicalJson.EventIdsFollowContent: SHA-256 and the JSON encoding are one abstract hash of a value; the text of numbers is uninterpreted, and the separately derived ids of message events are left out.
- WebhookProperties.AtMostOnceUntilExpiry: speaks of the records in memory; they do not survive the process.
- Tokio's scheduling and the fairness of `select!` and of the mutexes: any enabled step may come next, so nothing here says how often a read overtakes.
- A panic of the event forwarder, and an aborted forwarder that still runs its lock section while the next connection opens.
- The caller of an action that stops waiting: its settlement is recorded although nobody receives it.
- Writes of pong and close frames, which only delay the loop; WebSocket, HTTP and TLS framing, handshakes and authentication other than the time window.
- Media permits, attachment checks and the JSON of actions; the mapping of OneBot and QQ payloads to events: flat case tables.
- Whether an event id is blank or too long is one abstract case; Unicode trimming is not modelled.
- Validation responses of the webhook and its limits on bodies and concurrency.
- The log directory lock, private file modes, and the parsing of file names; a path carries its timestamp and kind.
- The download of a single range, its retries and the checksum of the whole archive.
- Objects with a repeated key, which the JSON library never yields; the canonical-form results require distinct keys.
- The browser worker, plugin store and marketplace, management, configuration other than the log limits, bootstrap and console output.
