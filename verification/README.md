# Verified model of minipulsar's delivery core

minipulsar stores published messages in SQLite and hands them to consumers under permits. This
project models the parts of it that decide whether a message reaches everybody it is owed to, and
proves what they keep: the tables and every transaction on them, the dispatcher above them,
producer arbitration, and the framing of messages on the wire. Check it with
`dafny verify dfyconfig.toml --resource-limit 2000000 --warn-contradictory-assumptions`.

| file | what it models |
|---|---|
| TopicNames.dfy | the topic name parser and its canonical names |
| Tables.dfy | the tables as values, and what each transaction does to them |
| Ledger.dfy | the operations, what each subscription is owed, and the invariants |
| NoLoss.dfy | every operation keeps the invariants, so every run does |
| Effects.dfy | what each transaction and the book change, row by row |
| Claims.dfy | claims as taking the front of one sorted list; how cursors move over a run |
| Backlog.dfy | the backlog figure against what it is meant to count |
| Storage.dfy | the store as an object, one method per transaction |
| Retention.dfy | what a retention sweep may remove; start positions and seeks |
| Sweeps.dfy | what a whole sweep leaves of each table |
| Selection.dfy | which consumer is served next |
| Delivery.dfy | consumers, subscription states and the uninterrupted delivery loop |
| Dispatch.dfy | the dispatcher as interleaved actors |
| WakeUps.dfy | kicks still to come, and when delivery stalls |
| Handlers.dfy | the commands that act on a consumer's subscription |
| Brokers.dfy | the broker's registries, SUBSCRIBE and removals, the namespace sweep and the acknowledgement timeout |
| StateFiles.dfy | how subscription states are filed and removed under concurrency |
| Producers.dfy | producer access modes and their waiters |
| Checksums.dfy, Wire.dfy | CRC32C, frames and message sections |
| Basics.dfy | options, results, finite sets of ids, division |

The tables are maps, a transaction is one atomic step, and one that fails changes nothing. Clocks
are parameters, and so is the outcome of parsing a topic argument (`Target`) where a transaction
starts with it. What a subscription is owed is recorded beside the tables, in a `Book` that never
looks at cursors or pending rows: a position owes what is stored from it on and what is inserted
later, and a seek starts over. `NoLoss.NoLossOnEveryRun` ties the two together; most other results
about the store start from it. Imperative code is modelled by methods that are proved equal to
functions on values, and the functions' properties are lemmas. Effects.dfy says in the tables' own
columns what each of these functions does to the rows.

## Where the code falls short of what is promised

The model follows the code. Each property below fails on some input. The first member named says
exactly when it fails, the others are lemmas about concrete inputs on which it does.

- An acknowledgement is meant to finish a message. A requeue rewinds the cursor past rows other
  consumers still hold; acknowledging such a row makes the message claimable again
  (`Backlog.AckLowersOutstanding`; `Backlog.AckCanLeaveOutstanding`, `Backlog.RewoundArises`).
- The backlog figure is documented as pending plus not yet claimed work
  (docs/content/development/codebase-reference.md:205). It is one too high for a subscription with
  nothing stored at or past its cursor (`Backlog.ReportedIsOutstandingUnlessEmpty`;
  `Backlog.EmptyBacklogIsReported`).
- Failover serves the highest-priority permitted consumer according to
  docs/content/concepts/messaging-semantics.md:38 and the comment at internal/broker/delivery.go:186.
  It serves the first consumer of highest priority and waits while that one has no permits, as
  docs/content/concepts/delivery-state-machine.md:78-79 says
  (`Selection.FailoverWaitsForPrimary`; `Selection.FailoverCanWait`).
- A waiting producer is meant to be let in once the topic is free. A producer id reused on another
  topic without closing it first can leave a waiter for the old topic asleep
  (`Producers.StepStuck`; `Producers.KeyReuseStrandsWaiter`).
- A removed consumer's rows are meant to go back to the queue. A consumer removed between being
  chosen and the claim made for it ends up owning the claimed rows (`Dispatch.StepOwned`;
  `Dispatch.RemovalCanStrandARow`). They are not lost: they stay held until an expiry frees them,
  where an acknowledgement timeout is set.
- A consumer with permits is meant to get what is available. Delivery stalls in three cases
  (`WakeUps.StepAwake`): a kick comes between a loop's last, empty claim and the end of the loop
  (`WakeUps.KickCanBeLost`; docs/content/concepts/delivery-state-machine.md:80-83 warns of it), a
  failed write ends a loop that somebody else was relying on (`WakeUps.FailedWriteCanStall`), or a
  dropped subscription is created again over stored messages while a consumer that is still attached
  has permits (`WakeUps.RecreationCanStall`).
- An attached consumer's commands are meant to find its subscription's state. The state is looked up,
  checked, attached to and removed under separate locks, so a removal that meets an attaching consumer
  can leave it on a state nobody finds (`StateFiles.StepFound`; `StateFiles.SweepCanLoseState`).
- A connection that ends in the middle of a frame is an error, but one that ends right after the
  length of a frame counts as closed in an orderly way (`Wire.StreamExactly`;
  `Wire.BareLengthIsAnEnd`).

## Model

| member | source | states |
|---|---|---|
| TopicNames.ParseFullName | internal/topic/topic.go:27-73 | Parsing the canonical name of any accepted string gives the same record back. |
| TopicNames.FullNameIdentifiesTopic | internal/storage/storage.go:692-716 | Two accepted persistent names have one canonical name exactly when they agree on tenant, namespace and name, so lookups by triple and by full name agree. |
| TopicNames.ParsedParts | internal/topic/topic.go:44-72 | Accepted parts are non-empty, tenant and namespace hold no slash, and the canonical name is printed from exactly these parts. |
| TopicNames.ParseCanonical | internal/topic/topic.go:65-72 | Any canonical name parses back to the parts it was printed from. |
| TopicNames.SplitJoined | internal/topic/topic.go:52-63 | Splitting in at most three takes a printed triple apart again, whatever slashes the last part holds. |
| TopicNames.ParseShort | internal/topic/topic.go:27-73 | A name without scheme and with fewer than two slashes is a persistent topic of the public tenant's default namespace. |
| TopicNames.ParseTriple | internal/topic/topic.go:52-63 | Without a scheme the first two slashes separate tenant, namespace and name of a persistent topic; an empty part is an error. |
| TopicNames.ParseQualified | internal/topic/topic.go:34-73 | With a scheme, which ends at the first mark, exactly the two known ones are accepted and all three parts must be there. |
| TopicNames.ParseQualifiedShort | internal/topic/topic.go:53-58 | With a scheme, fewer than two slashes are an error. |
| Storage.ResolveCanonical | internal/storage/subscriptions.go:35-41 | Every spelling of a topic resolves to the same stored topic as its canonical name. |
| Storage.ResolvePlain | internal/storage/storage.go:378-384 | A plain name is stored under the public tenant's default namespace. |
| Storage.ResolveQualified | internal/storage/storage.go:378-384 | A name with all parts is stored under exactly these parts when its scheme is persistent, and not stored otherwise. |
| Storage.ReadCanonical | internal/storage/subscriptions.go:31-41 | In a list of subscriptions a topic's canonical spelling, and no other accepted one, is taken. |
| NoLoss.NoLossOnEveryRun | internal/storage/storage.go:286-664 | After any run of all operations from an empty store, each id a subscription is owed is acknowledged by it, held in its pending rows as a stored message, or stored at or past its cursor. |
| NoLoss.StepKept | internal/storage/storage.go:286-664 | Every single operation keeps, for every subscription: position <= cursor <= max(position, next id), what is owed includes everything stored from the position on and nothing before it, and everything owed is acknowledged, held or claimable. |
| NoLoss.StepConsistent | internal/storage/storage.go:89-127 | Every single operation keeps the referential invariant: a cursor exactly per subscription, each pending row for an existing subscription and a stored message of its topic, ids below the next id. |
| NoLoss.ReachableConsistent | internal/storage/storage.go:89-127 | The referential invariant holds of every store that any run leads to. |
| NoLoss.DropIsRequeueUnlessZero | internal/storage/storage.go:500-530 | A disconnect removes the consumer's rows and rewinds to the least of them exactly when the cursor is not zero or it holds nothing. |
| NoLoss.DropIsRequeue | internal/storage/storage.go:478-533 | On a consistent store a disconnect is the common requeue of the consumer's rows, with no exception. |
| NoLoss.RedeliverAllIsDrop | internal/storage/storage.go:332-348 | Redelivery without ids is the disconnect's requeue. |
| NoLoss.ExpireIsRequeue | internal/storage/cleanup.go:320-363 | Expiry acts on each subscription as a requeue of its own expired rows, independently of the others. |
| NoLoss.RepairIsNoOp | internal/storage/cleanup.go:212-277 | The repair changes nothing on a consistent store. |
| NoLoss.RepairExactly | internal/storage/cleanup.go:227-265 | From any tables the repair makes every cursor and pending row of the namespace belong to a subscription, keeps all rows that do, and changes nothing exactly when they all did (so it is idempotent). |
| NoLoss.PositionPromise | internal/storage/storage.go:203-232 | Setting a position owes exactly what is stored from there on, all of it claimable. |
| NoLoss.AppendPromise | internal/storage/storage.go:394-416 | A new message is owed to, and claimable by, every subscription positioned at or before it. |
| NoLoss.ClaimPromise | internal/storage/storage.go:616-658 | A claim loses nothing: what the cursor passes over is held. |
| NoLoss.AckPromise | internal/storage/storage.go:422-474 | Rows leave the pending set by an acknowledgement only as acknowledged. |
| NoLoss.RequeuePromise | internal/storage/storage.go:500-530 | Freed rows are claimable again, because the cursor goes back to the least of them. |
| NoLoss.PrunePromise | internal/storage/cleanup.go:91-165 | Removing messages that nobody holds or can claim keeps every promise. |
| Effects.RecordPlaced | internal/storage/storage.go:203-232 | Being created or sought makes a subscription owed exactly what is stored from its cursor on. |
| Effects.RecordOwed | internal/storage/storage.go:394-416 | Otherwise what it is owed grows by exactly what is published on its topic from its position on. |
| Effects.RecordAcked | internal/storage/storage.go:422-474 | What it has acknowledged grows by exactly the messages that an acknowledgement names and that the asking consumer holds. |
| Effects.InsertExactly | internal/storage/storage.go:378-418 | A publish stores its content and time under its topic's id, creating the topic when there is none, and changes no other row. |
| Effects.SubscribeNewExactly | internal/storage/storage.go:174-251 | A new subscription gets the type asked for, or Shared, a stamp and a cursor; no other row changes. |
| Effects.SubscribeNewClaims | internal/storage/storage.go:203-232 | It can claim exactly what is stored from the explicit position on, else everything for Earliest and nothing for Latest. |
| Effects.SubscribeAgainExactly | internal/storage/storage.go:174-251 | One that exists is stamped and keeps its type and cursor; with another type nothing changes. |
| Effects.ClaimFromFront | internal/storage/storage.go:590-614 | A claim hands out the first stored messages, in order, that lie at or past the cursor and are not held: as many as the limit allows, or all. |
| Effects.ClaimHandsOut | internal/storage/storage.go:616-658 | What it hands out is what it adds rows for, and the cursor moves just past the last. |
| Effects.ClaimExactly | internal/storage/storage.go:538-664 | It stamps the subscription, gives the new rows to the asking consumer with the time, and changes nothing else. |
| Effects.RedeliverExactly | internal/storage/storage.go:321-374 | A redelivery frees exactly the consumer's rows that are listed, all when none is, and the cursor goes back to the least freed. |
| Effects.DropExactly | internal/storage/storage.go:478-533 | A disconnect frees exactly the consumer's rows of that subscription, with the same rewind. |
| Effects.ExpireExactly | internal/storage/cleanup.go:281-369 | An expiry frees exactly the rows handed out before the cutoff, each subscription with its own rewind. |
| Effects.SeekExactly | internal/storage/storage.go:286-317 | A seek moves the cursor to the position, or to 1, takes all pending rows of the subscription, and changes nothing else. |
| Effects.TouchExactly | internal/storage/subscriptions.go:42-52 | A touch changes one stamp. |
| Effects.NothingOnUnknownTopic | internal/storage/storage.go:286-664 | On a topic without a row these operations change nothing. |
| Effects.DropStaleExactly | internal/storage/cleanup.go:17-89 | Exactly the namespace's subscriptions last stamped before the cutoff go, with all their rows; every other keeps its row, cursor and pending rows. |
| Effects.DropConsumedExactly | internal/storage/cleanup.go:125-165 | Exactly the namespace's old messages go whose topic has subscriptions none of which holds them or has its cursor at or before them. |
| Effects.DropOrphanedExactly | internal/storage/cleanup.go:92-122 | Exactly the namespace's old messages go whose topic has no subscription. |
| Effects.DropEmptyExactly | internal/storage/cleanup.go:168-209 | Exactly the namespace's topics go that have no message and no subscription and are not excluded. |
| Claims.ClaimTakesFront | internal/storage/storage.go:581-658 | The cursor and pending rows refine one sorted list of available ids: a claim takes exactly its first k ids, in order, and leaves the rest. |
| Claims.SeriesTakesFront | internal/storage/storage.go:581-658 | A series of claims hands out the front of that list by the sum of the limits; chunk sizes and consumers do not matter. |
| Claims.ClaimIsLocal | internal/storage/storage.go:616-658 | The claimed rows belong to the asking consumer and no other subscription's list changes. |
| Claims.AckRemovesExactly | internal/storage/storage.go:422-474 | An acknowledgement removes exactly the consumer's own rows it names (or up to the id) and moves no cursor. |
| Claims.ReclaimNeedsRewind | internal/storage/storage.go:590-658 | On every run, between two claims of one id for one subscription some step moved its cursor from past the id back to it or before. |
| Claims.RewindHasCause | internal/storage/storage.go:286-533 | Such a step is one that freed a held row at or before the id, a seek of that subscription to it or before, or the removal of the stale subscription. |
| Claims.ClaimsIncrease | internal/storage/storage.go:590-658 | Between rewinds the ids claimed by all consumers together are strictly increasing. |
| Backlog.ReportedIsOutstandingUnlessEmpty | internal/storage/stats.go:119-139 | The reported figure is the number of held and unclaimed messages exactly when some stored message is at or past the cursor; otherwise it is one too high. |
| Backlog.EmptyBacklogIsReported | internal/storage/stats.go:119-139 | One subscribe on an empty store: the figure is one, and nothing is outstanding. |
| Backlog.ClaimKeepsOutstanding | internal/storage/storage.go:616-658 | A claim leaves that number unchanged. |
| Backlog.AckLowersOutstanding | internal/storage/storage.go:422-474 | An acknowledgement lowers it by the removed rows behind the cursor, so by all of them exactly when none lies at or past it; those become claimable again. |
| Backlog.AckCanLeaveOutstanding | internal/storage/storage.go:422-447 | A concrete store where acknowledging a held message leaves the number as it was. |
| Backlog.RewoundArises | internal/storage/storage.go:478-664 | That store is reached by six operations: two inserts, a subscribe, two claims, a disconnect. |
| Backlog.RequeueRaisesOutstanding | internal/storage/storage.go:500-530 | A requeue raises it by exactly the stored, unheld ids between the new cursor and the old one. |
| Storage.Store.InsertMessage | internal/storage/storage.go:378-418 | The transaction's whole effect and its errors; the id returned was never used before. |
| Storage.Store.EnsureSubscription | internal/storage/storage.go:174-251 | The transaction's whole effect; a type mismatch changes nothing, and success means the subscription exists with that type. |
| Storage.Store.ResetSubscription | internal/storage/storage.go:286-317 | The transaction's whole effect; it fails exactly when the topic exists and the subscription does not. |
| Storage.Store.RedeliverPending | internal/storage/storage.go:321-374 | Both branches, with the loop that tracks the least id really deleted, are the common requeue of the rows they free, which Effects.RedeliverExactly names. |
| Storage.Store.AckIndividual | internal/storage/storage.go:422-447 | The delete loop removes exactly the consumer's listed rows. |
| Storage.Store.AckCumulative | internal/storage/storage.go:451-474 | One delete removes exactly the consumer's rows up to the id. |
| Storage.Store.DropPendingByConsumer | internal/storage/storage.go:478-533 | The whole effect is the common requeue of the consumer's rows; without the subscription it fails and changes nothing. |
| Storage.Store.ClaimBatch | internal/storage/storage.go:538-664 | The transaction's whole effect, the ids it hands out with their stored messages, and its errors. |
| Storage.HoldAll | internal/storage/storage.go:616-644 | The insert loop hands out everything selected: no INSERT OR IGNORE is ever ignored. |
| Storage.DeleteListed | internal/storage/storage.go:350-366 | The redelivery loop removes the consumer's listed rows and ends with the least of them, repeated ids included. |
| Storage.Store.ExpirePendingBefore | internal/storage/cleanup.go:281-369 | The loop over groups requeues every subscription's expired rows; the count is the rows removed, and the subscriptions listed are those that lost rows. |
| Storage.RequeueExpired | internal/storage/cleanup.go:318-363 | The group loop in any order reaches the same tables; no group is skipped. |
| Storage.Store.PruneStaleSubscriptions | internal/storage/cleanup.go:17-89 | Removes the stale subscriptions with their rows, which Effects.DropStaleExactly names, and reports exactly those. |
| Storage.Store.PruneConsumedMessages | internal/storage/cleanup.go:125-165 | The transaction's whole effect and the number of messages removed. |
| Storage.Store.PruneOrphanedMessages | internal/storage/cleanup.go:92-122 | The transaction's whole effect and the number of messages removed. |
| Storage.Store.PruneEmptyTopics | internal/storage/cleanup.go:168-209 | The transaction's whole effect and the number of topics removed. |
| Storage.Store.PruneOrphanedSubscriptionData | internal/storage/cleanup.go:212-277 | The transaction's effect on any tables, with both counts; on a valid store it finds nothing. |
| Storage.Store.TouchSubscriptions | internal/storage/subscriptions.go:17-56 | The loop stamps exactly the listed subscriptions of the namespace, up to the first entry that does not parse or is not in canonical form; that entry's error is answered and the earlier stamps stay. |
| Storage.ListStops | internal/storage/subscriptions.go:30-41 | Up to its first bad entry a list gives its references; that entry's error ends it. |
| Retention.MessagesChange | internal/storage/cleanup.go:91-165 | Stored messages never change, and only the two retention deletes remove any. |
| Retention.RetentionRemovesExactly | internal/storage/cleanup.go:91-165 | The two retention deletes together remove exactly the namespace's messages that are older than the cutoff and that no subscription holds or can claim. |
| Retention.RemovalIsSafe | internal/storage/cleanup.go:91-165 | Under any interleaving a message is removed only if older than the cutoff and acknowledged by every subscription that is owed it. |
| Retention.SweepIsSafe | internal/broker/maintenance.go:35-70 | What a whole sweep removes was older than the cutoff and, for every subscription that survives it, acknowledged or not owed. |
| Sweeps.SweepExactly | internal/broker/maintenance.go:35-70 | A whole sweep, row by row: which subscriptions, messages and topics go, with listed subscriptions counted as just seen, and that everything else keeps its type, cursor, pending rows and content. |
| Sweeps.SweepStaysInside | internal/broker/maintenance.go:35-70 | Subscriptions, messages and topics of other namespaces are left as they were. |
| Sweeps.TouchesExactly | internal/storage/subscriptions.go:17-56 | The touches of a sweep change exactly the stamps of the listed subscriptions of the namespace. |
| Retention.AttachedSurvivesSweep | internal/broker/maintenance.go:35-81 | A subscription whose touch succeeds survives the sweep, unless the clock ran back. |
| Retention.TouchedSurvives | internal/broker/maintenance.go:35-81 | A touched subscription survives whatever follows the touch, operations of others in between included, while no stamp or cutoff contradicts the sweep's cutoff. |
| Retention.OnlyOwedIsClaimed | internal/storage/storage.go:590-614 | Only messages that are owed, hence at or past the position, are ever handed out. |
| Retention.LatestStart | internal/storage/storage.go:203-232 | Until repositioned, a new Latest subscription is never owed or handed a message stored before it, and is owed every message inserted on its topic after it. |
| Retention.OwedStaysOwed | internal/storage/storage.go:286-664 | Over any run an owed id stays owed until that subscription is repositioned or dropped. |
| Retention.SeekByTime | internal/broker/handlers.go:306-325 | A seek by time makes every stored message published at or after it claimable, even when publish times do not follow ids; when there is none, nothing below the largest 64-bit id is claimable. |
| Selection.ServedWithinARound | internal/broker/delivery.go:52-69 | With n consumers listed, one that keeps permits is chosen within n selections, however the others' permits change. |
| Selection.SelectionApproaches | internal/broker/delivery.go:52-69 | Each selection serves a waiting consumer or brings the scan strictly closer to it. |
| Selection.NextSharedFails | internal/broker/delivery.go:52-69 | Round-robin selection fails exactly when nobody has permits, also when removals left the position past the end. |
| Selection.FailoverWaitsForPrimary | internal/broker/delivery.go:187-209 | Failover serves the highest-priority permitted consumer exactly when the first consumer of highest priority has permits or nobody has. |
| Selection.FailoverCanWait | internal/broker/delivery.go:187-209 | Two consumers, the one of higher priority without permits: nobody is served although the other has permits. |
| Selection.PickNeedsCapacity | internal/broker/delivery.go:135-209 | Somebody is selected exactly when the subscription's capacity (summed, owner's or primary's permits) is positive. |
| Selection.ServingUsesCapacity | internal/broker/delivery.go:123-128 | Sending to the selected consumer uses up exactly that much of the capacity. |
| Selection.PrimaryUnique | internal/broker/delivery.go:187-201 | The priority scan ends at the one consumer that is first among those of highest priority. |
| Delivery.FilteredTakesOne | internal/broker/cleanup.go:26-32 | Filtering a consumer out removes it and only it, leaving the others' order. |
| Delivery.SubState.Attach | internal/broker/handlers.go:259-265 | A consumer is appended, unless the subscription is exclusive and taken. |
| Delivery.SubState.Detach | internal/broker/cleanup.go:24-34 | The in-place filter removes the consumer and keeps the others in order; the position is left alone. |
| Delivery.SubState.NextConsumerWithPermits | internal/broker/delivery.go:52-69 | The loop finds the first permitted consumer from the position on, and moves the position past it. |
| Delivery.SubState.PrimaryConsumerWithPermits | internal/broker/delivery.go:187-209 | The first consumer of highest priority, if it has permits. |
| Delivery.SubState.SelectConsumerWithPermits | internal/broker/delivery.go:158-169 | The consumer each subscription type's rule selects, and where the round-robin position ends: past the one selected if shared, where it was otherwise. |
| Delivery.SubState.ReadyConsumer | internal/broker/delivery.go:135-154 | It is nil exactly when selection is, for every type. |
| Delivery.SubState.MaybeStart | internal/broker/delivery.go:27-48 | A loop is started exactly when the subscription is persistent, none runs and selection would succeed; the flag is taken with the decision. |
| Delivery.ClaimTakesLine | internal/storage/storage.go:538-664 | A claim by name takes the first ids of the subscription's line, up to the limit. |
| Delivery.SendBatch | internal/broker/delivery.go:114-129 | One permit per message written, in batch order, stopping at the first failed write. |
| Delivery.DeliverOnce | internal/broker/delivery.go:82-129 | One turn sends the front of the line and uses as much room as it sends; without write errors it ends the loop only when the line is empty or there is no room. |
| Delivery.TurnFair | internal/broker/delivery.go:52-131 | A turn on a shared subscription brings the scan closer to every other consumer with permits and leaves those permits alone. |
| Delivery.FairToAll | internal/broker/delivery.go:52-131 | Over turns that together send more than a batch per consumer, everybody who had permits is sent something. |
| Delivery.DeliveryLoop | internal/broker/delivery.go:73-131 | Uninterrupted, the loop terminates, sends the front of the line in ascending order and, without write errors, exactly min(room, available) messages; on a shared subscription, once more than a batch per consumer was sent, everybody who had permits was sent something. |
| Delivery.RemoveConsumer | internal/broker/cleanup.go:5-56 | The consumer leaves the list, its rows are requeued and none remains, the others keep theirs, and delivery is woken exactly when somebody can be served and no loop runs. |
| Dispatch.NeverOversent | internal/broker/delivery.go:27-131 | On every interleaving: at most one loop runs, exactly while the flag is up; sent plus permits equals granted, one message in flight aside; sent never exceeds granted; the rest of a batch fits in the permits. |
| Dispatch.StepSolvent | internal/broker/delivery.go:27-131 | Every step of every actor keeps the permit accounts balanced and the running batch covered. |
| Dispatch.PermitsStillThere | internal/broker/delivery.go:90-100 | The retry after reading no permits is never taken, and the limit is between 1 and 200. |
| Dispatch.OthersAddNoRow | internal/storage/storage.go:286-664 | No operation but a claim for a subscription gives it a pending row or changes a row's owner. |
| Dispatch.StepOwned | internal/broker/cleanup.go:5-56 | Every row keeps an owner that is attached or being removed exactly when the step is neither a claim of something for a consumer already gone nor a restart over held rows. |
| Dispatch.OwedIsAckedLiveOrClaimable | internal/broker/cleanup.go:5-56 | If no removal comes between choosing a consumer and claiming for it, and no restart finds held rows: on every interleaving each owed id is acknowledged, held by a live consumer, or claimable. |
| Dispatch.RemovalCanStrandARow | internal/broker/delivery.go:82-102 | Otherwise some interleaving leaves a message held by a consumer that is gone. |
| WakeUps.StepAwake | internal/broker/delivery.go:27-131 | Nothing deliverable is ever left without a running loop or a kick to come, except exactly when the last kick falls between a loop's decision to return and its lowered flag, a failed write ends a loop that nobody will restart, or a dropped subscription is created again over stored messages while somebody attached is ready and no kick is to come. |
| WakeUps.NothingLeftBehind | internal/broker/delivery.go:27-131 | On every interleaving without these: once no loop runs, no removal is under way and no kick is to come, no consumer that may be served has permits while a message is available. |
| WakeUps.KickCanBeLost | internal/broker/delivery.go:34-37 | Some interleaving ends with a message stored, a consumer with permits, no loop and no kick to come. |
| WakeUps.FailedWriteCanStall | internal/broker/delivery.go:123-128 | Some reachable failed write leaves a stored message, a ready consumer, no loop and no kick to come. |
| WakeUps.RecreationCanStall | internal/broker/handlers.go:203-226 | Some reachable SUBSCRIBE that creates a dropped subscription again leaves the same. |
| WakeUps.OthersAddNoMore | internal/storage/storage.go:174-664 | Only operations whose handlers kick the subscription, and its own creation, make messages available to it. |
| WakeUps.EmptyClaim | internal/storage/storage.go:590-664 | A claim that hands out nothing found nothing available, and leaves nothing. |
| Retention.SweepInParts | internal/broker/maintenance.go:35-70 | The sweep's transactions one after another are the sweep. |
| Brokers.Broker.Subscribe | internal/broker/handlers.go:203-270 | The whole effect: unless the ledger or a stored type refuses, the tables get the row, of the type asked for, and a new subscription can claim exactly what it asked for; then the key's old consumer goes with its rows; then the limit, another type among those attached, or an exclusive subscription that is taken refuses, exactly in these cases; success attaches and registers a fresh consumer with a new uid. |
| Brokers.Broker.Replace | internal/broker/handlers.go:239-270 | The key's old consumer is removed, with its rows returned, before the new one is attached; the new one is refused exactly when those left have another type or it is exclusive and somebody is left. |
| Brokers.Broker.LimitExactly | internal/broker/handlers.go:243-246 | The consumer limit turns a key away exactly when letting it in would exceed it. |
| Brokers.Broker.AttachTo | internal/broker/handlers.go:259-265 | An exclusive subscription takes nobody while somebody is attached; otherwise the consumer is appended. |
| Brokers.Broker.Remove | internal/broker/cleanup.go:5-56 | A consumer leaves both registries, its rows are returned and delivery to the others is woken; registered and attached consumers stay the same ones, each under its own subscription, with distinct uids, and an exclusive subscription has at most one. |
| Brokers.ReturnedExactly | internal/broker/cleanup.go:36-39 | Returning a leaving consumer's rows frees exactly its own rows of that subscription. |
| Brokers.Broker.DropConnection | internal/broker/server.go:150-185 | Nobody of the connection stays registered or attached or holds a row, everybody else stays, and the subscriptions they leave are being delivered if they can be. |
| Brokers.JoinedRegistered | internal/broker/handlers.go:264-270 | Attaching and registering a consumer under a free key keeps the two registries in step. |
| Brokers.LeftRegistered | internal/broker/cleanup.go:5-34 | So does taking a consumer out of both. |
| Brokers.LeftExactly | internal/broker/cleanup.go:24-54 | Who leaves is filtered out of its own list, which goes with it only if it was alone on a volatile subscription; the other lists stay. |
| Brokers.Broker.GetOrCreateSubState | internal/broker/state.go:11-27 | One state and one type per subscription: created when absent, shared when the type agrees, refused otherwise. |
| Brokers.Broker.ActiveSubscriptions | internal/broker/maintenance.go:84-120 | Lists exactly the namespace's persistent subscriptions with consumers. |
| Brokers.Broker.ActiveTopics | internal/broker/maintenance.go:145-192 | Collects exactly the namespace's topics that a producer, a consumer, or either end of a binding refers to; names that do not parse are skipped. |
| Brokers.Broker.DropSubscriptionStates | internal/broker/maintenance.go:123-142 | Removes exactly the dropped subscriptions' states that nobody is attached to. |
| StateFiles.StepFound | internal/broker/maintenance.go:123-142 | Every attached consumer's state stays the one filed under its key, except exactly when a key is removed whose state somebody has attached to since it was checked, or a handler attaches to a state no longer filed. |
| StateFiles.FoundOnEveryRun | internal/broker/state.go:11-27 | On every interleaving of look-ups, attachments, departures, checks and removals without such a step, every attached consumer's state is found under its key. |
| StateFiles.SweepCanLoseState | internal/broker/handlers.go:255-265 | A look-up, a sweep's check and removal, and the attachment leave a consumer whose state is not found. |
| Brokers.Broker.Sweep | internal/broker/maintenance.go:35-70 | One namespace's turn runs the sweep's transactions, with the effect on the rows that Sweeps.SweepExactly states and none on other namespaces; attached subscriptions keep their state and their rows, and exactly the idle states whose subscription's row is gone are dropped. |
| Brokers.Broker.ExpirePending | internal/broker/ack_timeout.go:32-56 | Expiry, after which every affected subscription that can be served is being delivered. |
| Handlers.HandleAck | internal/broker/handlers.go:595-674 | Removes exactly the consumer's own rows that are named, or for a cumulative acknowledgement lie at or before an id named; ignored cases change nothing. |
| Handlers.HandleRedeliver | internal/broker/handlers.go:338-369 | Frees exactly the consumer's own rows that the references name, all when there is none, and rewinds to the least of them; one foreign ledger refuses the whole command. |
| Handlers.HandleSeek | internal/broker/handlers.go:291-335 | Afterwards exactly what was asked for can be claimed: from the entry on, from the first message published since the time on, or everything; nothing is held and no other subscription changes. A foreign ledger, a subscription without a row and a non-persistent one are answered for and change nothing. |
| Handlers.HandleFlow | internal/broker/handlers.go:558-591 | Grants the permits, to a consumer that has just left as well; afterwards a subscription with room is being delivered. |
| Handlers.EnsurePositioned | internal/broker/handlers.go:203-226 | A new subscription can claim exactly what it asked for: from the entry on, from the first message published since the rollback time on, or all or nothing of what is stored; one that exists stays where it is. Refused, changing nothing, exactly for a foreign ledger or a stored type that differs. |
| Handlers.RollbackCovers | internal/broker/handlers.go:214-226 | A new subscription with a rollback duration can claim every stored message published since, whatever the order of publish times. |
| Producers.ExclusiveOnEveryRun | internal/broker/handlers.go:127-157 | On every run at most one producer of a topic holds it by an exclusive mode, and while none registers as shared at most one producer is on a topic. |
| Producers.ExclusiveIsAlone | internal/broker/handlers.go:132-156 | A registration in an exclusive mode finds or makes the topic free of everybody else. |
| Producers.OneWinner | internal/broker/handlers.go:139-143 | However many waiters one broadcast wakes, and in whatever order, the first is registered alone and the others sleep again. |
| Producers.StepStuck | internal/broker/handlers.go:150-156 | A step leaves a waiter asleep on a free topic exactly when it reuses the key of the last producer of another topic that somebody waits for. |
| Producers.NobodyStuckOnEveryRun | internal/broker/producer_access.go:29-44 | On every run without such a step, whoever sleeps has somebody to wait for. |
| Producers.KeyReuseStrandsWaiter | internal/broker/handlers.go:150-156 | Three commands that leave a waiter asleep on a free topic. |
| Producers.Arbiter.TopicHasProducers | internal/broker/producer_access.go:18-25 | The scan finds a producer exactly when the topic has one. |
| Producers.Arbiter.Fence | internal/broker/producer_access.go:29-36 | The loop removes exactly the topic's producers and wakes exactly its waiters. |
| Producers.Arbiter.HandleProducer | internal/broker/handlers.go:102-157 | The command up to its answer or first wait: who is refused for the limit, for being exclusive on a taken topic or for its mode, who waits, who is registered, and what each answer changes. |
| Producers.ArrivedExactly | internal/broker/handlers.go:102-157 | Each answer is given exactly in its case; a registration puts the producer under its key and, unless it fences, removes nobody else and wakes nobody. |
| Producers.ResumedExactly | internal/broker/handlers.go:139-156 | A woken waiter registers exactly when nobody is on its topic, and sleeps again otherwise. |
| Producers.ClosedExactly | internal/broker/handlers.go:696-702 | Closing removes that producer and wakes exactly its topic's waiters. |
| Producers.Arbiter.Recheck | internal/broker/handlers.go:141-150 | A woken waiter registers exactly when the topic is free. |
| Producers.Arbiter.CloseProducer | internal/broker/handlers.go:696-702 | The producer goes and its topic's waiters wake. |
| Producers.Arbiter.DropConnection | internal/broker/server.go:150-176 | The loop removes exactly the connection's producers and wakes exactly the waiters of their topics. |
| Checksums.BitStepInjective | internal/protocol/wire.go:84 | The bit step of CRC32C (section 12.1 of RFC 3720) is injective. |
| Checksums.BurstChangesChecksum | internal/protocol/wire.go:84-88 | Any change confined to four adjacent bytes changes the checksum. |
| Checksums.ZeroesChecksum | internal/protocol/wire.go:84-88 | Thirty-two zero bytes have the checksum printed in section B.4 of RFC 3720. |
| Checksums.FoldAppend | internal/protocol/wire.go:85-87 | Summing up in pieces is summing up the whole. |
| Checksums.Hasher.Write | internal/protocol/wire.go:84-88 | After any writes the running checksum is that of everything written. |
| Wire.ReadExactly | internal/broker/framing.go:23-54 | The frame reader accepts a frame exactly when the stream starts with its printed form, its command is not empty and it is within the limit. |
| Wire.OversizedIsRejected | internal/broker/framing.go:27-48 | A printed frame over the limit, or without a command, is rejected with its own error. |
| Wire.FrameAnswer | internal/broker/framing.go:23-54 | A frame within the limit is refused for a zero size, for having no room for a command size, or for a command size that is zero or does not fit. |
| Wire.CutFrameAnswer | internal/broker/framing.go:19-54 | A cut-off frame is an error, except right at its start or right after its length. |
| Wire.ReadSectionExactly | internal/broker/handlers.go:423-475 | A section is accepted exactly when it is the printed form of metadata that is non-empty and decodes, and a payload within the limit. |
| Wire.SectionAnswer | internal/broker/handlers.go:423-475 | A section with a correct size is answered with the first thing wrong with it: magic, empty metadata, metadata that does not decode, payload limit, checksum. |
| Wire.CutSectionAnswer | internal/broker/handlers.go:423-475 | A section cut off before the end of its metadata is refused for the part that is missing. |
| Wire.DamageIsRejected | internal/broker/handlers.go:423-475 | Damage to up to four adjacent bytes on one side of the end of the stored checksum makes the receiver reject the section, whatever it does to the sizes. |
| Wire.DamageAnywhereIsRejected | internal/broker/handlers.go:423-475 | In a section shorter than sixteen megabytes two adjacent damaged bytes are rejected wherever they lie, below 64 kilobytes three, below 256 bytes four. |
| Wire.OneByteIsRejected | internal/broker/handlers.go:423-475 | Any single changed byte is rejected: magic, checksum, metadata size, metadata or payload. |
| Wire.StreamExactly | internal/broker/framing.go:19-54 | Reading a stream returns given frames and then its end exactly when it is their printed forms and nothing more, save the bare length of a frame that never came. |
| Wire.BareLengthIsAnEnd | internal/broker/framing.go:19-54 | The four bytes of a length and nothing after them read as an orderly end. |
| Wire.StreamRoundTrip | internal/protocol/wire.go:25-128 | Any concatenation of printed commands and messages is read back whole and in order, with no byte left over. |
| Wire.SizeRoundTrip | internal/protocol/wire.go:31-37 | Lengths below four gigabytes survive being printed and read. |
| Wire.FrameHeader | internal/protocol/wire.go:25-45 | A printed frame is two big-endian lengths, of all that follows and of the command, then the command and the rest. |
| Wire.SectionHeader | internal/protocol/wire.go:49-128 | A printed section starts with 0x0e 0x01, the big-endian checksum of what follows it, and the big-endian metadata length. |
| Wire.WriteSimpleCommand | internal/protocol/wire.go:25-45 | Appends exactly one command frame to the connection. |
| Wire.WriteMessageFrame | internal/protocol/wire.go:49-128 | Appends exactly one message frame, its checksum built by three writes. |
| Wire.HandleFrame | internal/broker/framing.go:19-54 | The step-by-step reader has the outcome, and leaves the stream, that the properties above are about. |
| Wire.HandleSection | internal/broker/handlers.go:423-475 | The step-by-step section reader has the outcome that the properties above are about. |

## Left out

- SQLite itself: schema migration, pooling, settings and I/O errors. Ids, times and permits are unbounded integers; the 64-bit limit appears only where a seek sets it. A transaction reads the clock once.
- The namespaces table: a topic row carries its tenant and namespace directly.
- Message payload encoding in the store: properties are a map and sequence ids are numbers; the JSON encoding of properties and the protobuf encoding of commands and metadata are opaque.
- Delivery on non-persistent topics, which is best effort; the persistent branches' behaviour on such topics is modelled.
- Authorization, TLS, JWT, throttling, metrics, the terminal UI and bindings; a binding's output is one more insert.
- WakeUps.NothingLeftBehind: which consumers a subscription type lets it serve is a set that changes when somebody attaches or leaves.
- Delivery.DeliveryLoop: one clock value for all claims of a loop, and writes fail or succeed by a given set of frames.
- Dispatch.NeverOversent: the selection rule is left open and consumers' permits are read one at a time; any attached consumer with permits, or none, may be chosen, which includes what the code does.
- Dispatch.StepOwned: about one subscription state. StateFiles.StepFound says when a second one for the same subscription comes about; loops of two states side by side are not modelled.
- Brokers.Broker.Subscribe: one command at a time; the steps of different connections interleave in Dispatch.dfy, StateFiles.dfy and Producers.dfy.
- Storage.Store.TouchSubscriptions: the list holds what each raw pair reads as, so a canonical entry is a reference already; Storage.ReadCanonical connects it to the strings.
- Brokers.Broker.Sweep: the sweep without other actors between its steps. Retention.RemovalIsSafe covers each step of it under any interleaving.
- Producers.Arbiter.DropConnection: without other actors between the removals; under any interleaving each removal is one CloseProducer.
- Producers.NobodyStuckOnEveryRun: says whom a waiter waits for, not that it is ever served; later arrivals may overtake it.
- Wire.DamageAnywhereIsRejected: for longer sections, damage to two or more adjacent bytes that reaches from the stored checksum into the size behind it is not covered.
