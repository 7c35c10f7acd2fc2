# Verified models of the application's hardest protocols

A Dafny project that models how this web application delivers business events, runs its durable queue,
captures exceptions, aggregates load metrics, and guards a few invariants of its data, and proves what those
protocols promise over every run. `dafny verify dfyconfig.toml` checks it.

## What is modelled

**Event delivery** (`journal.dfy`, `delivery.dfy`, `spread.dfy`, `listener.dfy`). Writers append facts in
their own transactions; a key is minted at insert, so a slow transaction surfaces below keys already read.
Any number of listener instances tick at once, each topic off its own locked cursor, along the contiguous
settled prefix, through a ledger that makes a replay a no-op. `delivery.dfy` is the step relation; `listener.dfy`
is the listener as an object with loops, proved to take those steps. `wiring.dfy` says which topics a stored
fact is owed to, `eventtypes.dfy` what a consumer gets back of the event that was emitted, and `secretnames.dfy`
which fields are masked on the way.

**The durable queue** (`queue.dfy`, `claims.dfy`, `recurring.dfy`, `worker.dfy`) with crashes, lapsed claims,
stale outcomes by id, retries, parking, recurring rows and the idempotency ledger; `endtoend.dfy` composes it
with delivery: from a committed fact to its consumers' writes, exactly once; `progress.dfy` says that what is owed
can always still happen.

**Exception capture** (`capture.dfy`, `capturequeue.dfy`): the bounded queue, its shedding, the drain.

**Load metrics** (`histogram.dfy`, `metrics.dfy`, `metricstable.dfy`, `pipeline.dfy`): counters, deltas, rows,
rollup, percentile, and the whole pipeline under failing flushes.

**Smaller machines**: the rate limiter (`limiter.dfy`); the last-admin guard, as code (`admins.dfy`) and under
concurrency (`adminraces.dfy`); organization ownership, the same (`organizations.dfy`, `ownerraces.dfy`);
positioned rows (`positions.dfy`).

## How to read it

A protocol is a `State`, an `Act`, `Enabled` and `Apply`, and results speak of `After` any `IsRun`. A class is
the code as it runs, over fields it updates, and its methods promise what those functions say. Where the code
does not meet a promise in every run, the project states exactly when it does and exhibits a failing run.

## What the proofs found

- The settle window. `created_at` is `now()`, the transaction's start
  (`supabase/migrations/20260818000003_business_events.sql:6-8`), while the key takes the clock at insert
  (`supabase/migrations/20260818000001_foundation.sql:20-47`). The comments at `apps/shared/events/listener.py:35-38`
  and `apps/shared/events/repository.py:278-280` treat the window as the longest a transaction may stay open. It is
  enough exactly when the longest begin-to-insert delay of one transaction plus the longest insert-to-commit delay
  of another fit in it; knowing only the whole length of a transaction, that is half the window.
- Spread facts. The in-memory cursor and applied set move before the tick commits, so facts read by a tick that
  then fails never run on that instance.
- A handler on a base event class alone is resolved for a subclass's fact but the scan never offers one
  (`apps/shared/events/wiring.py:119-131`).
- A required field that may be NULL makes its event impossible to rebuild: a regression of an issue resolved in no
  release (`resolved_in_release`, `apps/issues/contract/events.py:35`) never reaches its consumers.
- A claim is exclusive exactly when outcomes are written within the visibility window, and `attempts` is bounded
  exactly when besides no worker dies: a dead worker's claim lapses and is taken again without end.
- The last-admin guard reads accounts in pages of a thousand. From a full page on, a sign-up between two pages can
  show the last admin twice, and an account gone between two pages can hide it; either lets that admin go.
- The comment at `supabase/migrations/20260818000002_organizations.sql:147-148` says the trigger closes the race the
  application's check leaves. Under read-committed visibility owners leaving at once all pass both. What a removal
  needs, exactly, is an owner besides its member whom no open removal touches.
- Positions are "dense, 0-based" (`apps/shared/persistence/repository.py:88`) after any successful move, but a
  removal leaves a gap and the first navigation item gets position 1.
- A fixed window lets through twice its limit within a second at a boundary.

## Assumptions

- One logical clock drives keys, `created_at`, claims and due times; two keys minted in the same instant are told
  apart by the random part of a UUIDv7 (section 5.7 of RFC 9562), here `salt`.
- A listener instance that carries a topic agrees with the others on its kinds.
- Tables are maps, sets and sequences with commit-time visibility, row locks and insert-or-nothing. The partial
  unique index on pending recurring rows is `supabase/migrations/20260818000006_queue.sql:7-47`, the cursor and ledger
  tables `supabase/migrations/20261005000001_dispatch_per_consumer.sql`.
- A handler leaves commit and rollback to the worker; `_create_org`, which rolls back itself
  (`apps/organizations/contract/integration.py:124-163`), is outside the exactly-once result.
- In the limiter time does not go backwards and the store's and the application's clocks agree.
- Disabling, deleting and revoking run under the last-admin lock, and the account server applies a mutation before its
  call returns, so before the transaction that holds the lock ends.

## Model

| member | source | states |
|---|---|---|
| `Journal.FactsAboveMembers` | apps/shared/events/repository.py:287-293 | The query returns exactly the committed facts of the wanted kinds above the cursor, in key order. |
| `Journal.NextCursorIsSettled` | apps/shared/events/repository.py:294-295 | The next cursor is the old one or the key of a found fact before the cutoff, and no found fact at or below it is unsettled: the prefix is contiguous. |
| `Journal.NextCursorEndsSettledPrefix` | apps/shared/events/repository.py:294-295 | The next cursor is the end of the settled prefix: it has not moved or stands on a wanted fact, nothing passed is unsettled, and the first fact left, if any, is unsettled. |
| `Journal.PassedIffSettled` | apps/shared/events/repository.py:272-284 | Such a cursor has passed a wanted fact if and only if every wanted fact up to it began before the cutoff. |
| `Journal.SettledPrefixIsUnique` | apps/shared/events/repository.py:294-295 | Those facts leave one possible cursor. |
| `Journal.PlaceAllIsSorted` | apps/shared/events/repository.py:287-293 | A commit puts its facts at their key positions: the journal stays sorted and holds just the old facts and the new. |
| `Journal.ApplyKeepsValid` | apps/shared/events/repository.py:272-284 | Every writer step keeps the journal sorted by key and every key minted between its transaction's begin (`created_at`) and the longest allowed delay after it. |
| `Journal.SurfacesAboveSealed` | apps/shared/events/repository.py:272-284 | A fact that becomes visible, however late it commits, lies above every cursor old enough that no open transaction can still hold a lower key. |
| `Journal.NextCursorIsSealed` | apps/shared/events/repository.py:278-295 | When the settle window covers the begin-to-mint plus the mint-to-commit delay, the cursor a reader takes next is again one nothing can surface under. |
| `Delivery.UndispatchedMembers` | apps/shared/events/repository.py:241-252 | A topic dispatches exactly the found facts its ledger lacks, each once. |
| `Delivery.ApplyKeepsLedgerInv` | apps/shared/events/repository.py:215-252 | Every step of every instance keeps: a topic's cursor is locked by one open tick at most, pending pairs are disjoint from the ledger, and the queue holds one task per ledger pair and no other. |
| `Delivery.TickTopicCoversVisible` | apps/shared/events/listener.py:126-139 | After an instance ticks a topic, every fact of its kinds visible then is in the ledger or in that tick, however long the backlog. |
| `Delivery.TickTopicKeepsCursorInv` | apps/shared/events/listener.py:126-139 | Ticking a topic keeps every cursor, stored or in an open tick, from passing a fact it has not dispatched. |
| `Delivery.CommitTickKeepsCursorInv` | apps/shared/events/listener.py:86-102 | Committing a tick publishes its cursors, ledger pairs and tasks together and keeps that invariant. |
| `Delivery.RunKeepsInvariants` | apps/shared/events/listener.py:110-139 | Both invariants hold in every reachable state of any writers and listeners interleaved. |
| `Delivery.OneTaskPerDispatchedPair` | apps/shared/events/repository.py:241-252 | In every reachable state a (fact, topic) pair is in the ledger if and only if exactly one task was ever enqueued for it, and otherwise none. |
| `Delivery.TickDispatchesWholeBacklog` | apps/shared/events/listener.py:117-122 | A tick that gets a topic's lock leaves every fact visible at that moment dispatched once it commits, whatever the backlog and whatever happened in between. |
| `Delivery.NoFactSkipped` | apps/shared/events/repository.py:264-295 | Under the covered window, in every interleaving no fact at or below a topic's cursor, early or late to commit, is missing from that topic's ledger. |
| `Delivery.UncoveredWindowSkips` | apps/shared/events/listener.py:35-38 | Whenever the window does not cover the two delays, a run exists that loses a fact. |
| `Delivery.NothingSkippedIffCovered` | apps/shared/events/repository.py:272-284 | The promise exactly: no run skips a fact if and only if longest begin-to-mint plus longest mint-to-commit is at most the settle window. |
| `Delivery.WholeTransactionMayLastHalfTheWindow` | apps/shared/events/listener.py:35-38 | Knowing only how long a transaction may last, the safe bound is half the settle window, not the window. |
| `Delivery.LostForever` | apps/shared/events/repository.py:275-276 | A skipped fact is never dispatched by any later tick of any instance: nothing stands behind the cursor. |
| `Spread.FreshIsUnread` | apps/shared/events/listener.py:141-155 | What a tick hands on has never been read by this instance, and each fact once. |
| `Spread.TickKeepsInv` | apps/shared/events/listener.py:141-155 | A tick, committed or failed, keeps: handlers ran once per fact, and the applied set holds only keys read and above the cursor. |
| `Spread.HandlersRunAtMostOnce` | apps/shared/events/listener.py:86-102 | On one instance no fact's spread handlers run twice, and the applied set holds only keys above the in-memory cursor, on every run. |
| `Spread.HandlersMissOnlyFailedTicks` | apps/shared/events/listener.py:141-155 | Each committed spread fact at or below the cursor either ran or was read by a tick whose commit failed, never both; when every commit succeeds all of them ran. |
| `Spread.FailedTickLosesItsFacts` | apps/shared/events/listener.py:86-102 | Whatever a run did before and does after, a fact a tick reads unread and then fails to commit is never run by that instance: cursor and applied set moved before the commit. |
| `Spread.AllRanIffNoFailedRead` | apps/shared/events/listener.py:141-155 | On every run under the covered window, all spread facts at or below the cursor ran if and only if no failed tick read one of them unread. |
| `Spread.FailedTickRun` | apps/shared/events/listener.py:86-102 | Whatever the window and the delays, a run leaves a committed spread fact below the cursor whose handlers never ran. |
| `Listener.Store.LockDispatchCursor` | apps/shared/events/repository.py:215-233 | Returns nothing when another instance holds the topic; else the stored cursor, inserting a nil row on first sight. |
| `Listener.Store.AdvanceDispatchCursor` | apps/shared/events/repository.py:235-239 | Moves one topic's cursor and no other table. |
| `Listener.Store.DispatchConsumer` | apps/shared/events/repository.py:241-252 | True exactly the first time a pair is seen; the ledger gains just that pair. |
| `Listener.Store.Enqueue` | apps/shared/queue.py:81-101 | Appends one task for the pair and changes no other table. |
| `Listener.EventListener.DispatchReaction` | apps/shared/events/listener.py:128-139 | One topic's loop body: ledger and tasks gain the undispatched pairs, the cursor its next place, or nothing moves when another instance holds the topic. |
| `Listener.ReactionAdvances` | apps/shared/events/listener.py:128-139 | What that method leaves is the free topic's cursor at the end of its settled prefix. |
| `Listener.EventListener.DispatchFound` | apps/shared/events/listener.py:133-137 | The ledger-then-enqueue loop adds exactly the undispatched pairs, in order, to ledger and queue. |
| `Listener.EventListener.DispatchBacklog` | apps/shared/events/listener.py:110-139 | The whole loop over the wiring: each reaction in turn, off its own cursor. |
| `Listener.BacklogAdvances` | apps/shared/events/listener.py:110-139 | What the loop leaves: every free topic's cursor at the end of its settled prefix, and every other cursor as it was. |
| `Listener.DispatchedIsBacklog` | apps/shared/events/listener.py:86-102 | The loop's tables are what the machine's open tick holds after ticking each free topic. |
| `Listener.EventListener.ReadSpread` | apps/shared/events/listener.py:141-155 | Sets cursor and applied set to what the spread machine remembers; with no kinds it changes nothing. |
| `Listener.ReadsUnread` | apps/shared/events/listener.py:141-155 | What it returns is just the visible facts of the kinds above the cursor and not yet applied. |
| `Listener.ReadRemembers` | apps/shared/events/listener.py:141-155 | The cursor it keeps is the end of the settled prefix, and the applied set is exactly the visible facts beyond it. |
| `Listener.BacklogIsTickTopics` | apps/shared/events/listener.py:126-139 | The loop is a run of the machine: ticking each free topic in turn from a fresh tick reaches the state the method describes. |
| `Queue.ApplyKeepsOnePending` | supabase/migrations/20260818000006_queue.sql:7-47 | No step gives a recurring topic two unfinished rows. |
| `Queue.ApplyStepsRows` | apps/shared/queue.py:403-459 | Every step, stale outcomes included, only ever adds attempts to unfinished rows, never unfinishes a row, and moves a due time later by at most the backoff. |
| `Queue.ApplyKeepsEffectsInv` | apps/shared/events/repository.py:297-310 | Every step keeps an idempotent delivery's committed writes equal to its mark in the ledger, with at most one open handler about to write. |
| `Queue.ApplyKeepsCustody` | apps/shared/queue.py:361-385 | Every step keeps each enqueued delivery either in a row still owed or consumed, and a done row only where its writes committed. |
| `Queue.RunKeepsInv` | apps/shared/queue.py:344-459 | Those invariants hold in every reachable state, through retries, crashes, lapsed claims and concurrent double runs. |
| `Claims.EffectCommitsAtMostOnce` | apps/shared/events/bus.py:88-98 | For an idempotent consumer whose handler leaves commit and rollback to the worker, its writes commit at most once per fact on every run, and exactly once where its row is done. |
| `Claims.TaskHeldUntilConsumed` | apps/shared/queue.py:81-101 | Whatever was enqueued for an idempotent consumer is still in the table or its writes have committed once. |
| `Claims.FinishedIsNeverClaimed` | apps/shared/queue.py:272-284 | A done or parked row is never claimed again, lapsed claims and stale outcomes included, and its attempts stay as they were. |
| `Claims.OwedCanTakeEffect` | apps/shared/queue.py:272-284 | From every reachable state, wherever workers died, an unfinished task of an idempotent consumer can still be claimed and its writes commit, once. |
| `Claims.TimelyClaimsAreExclusive` | apps/shared/queue.py:344-385 | On every run whose live workers write their outcome within the visibility window, no row is held by two workers; when besides none dies, attempts never exceed `max_attempts` (or one, when that is zero). |
| `Claims.CrashesAreRetriedForever` | apps/shared/queue.py:363-372 | With workers that die holding their claims, attempts are unbounded: for every n a run whose other outcomes are all in time reaches n attempts on a row allowed five. |
| `Claims.LateOutcomeDoublesTheHolder` | apps/shared/queue.py:272-284 | For every hold time past the window, a run without crashes has a second worker take a row the first still holds, one attempt more than the row allows. |
| `Claims.ExclusiveIffTimely` | apps/shared/queue.py:344-385 | Over the runs whose live workers write within `hold`: no row is ever held by two workers if and only if `hold` is at most the visibility window, with crashes or without. |
| `Claims.AttemptsBoundedIffTimelyAndAlive` | apps/shared/queue.py:363-372 | Over the same runs, attempts stay within what the row allows if and only if `hold` is at most the window and no worker dies. |
| `Recurring.CompleteKeepsAlive` | apps/shared/queue.py:403-429 | A completion, stale or not, leaves the topic a pending row that will plant its successor. |
| `Recurring.ChainNeverBreaksNorForks` | apps/shared/queue.py:104-115 | Once planted, a recurring topic has exactly one row that is neither done nor parked, in every reachable state until that row is parked. |
| `Recurring.DueNeverMovesEarlier` | apps/shared/queue.py:431-440 | No step makes a row due earlier. |
| `Recurring.SuccessorWaitsItsInterval` | apps/shared/queue.py:410-429 | A successor is claimed no sooner than `recurring_seconds` after the completion that planted it, however it was retried. |
| `Worker.TaskTable.Enqueue` | apps/shared/queue.py:81-101 | One new row of these columns: due now, never attempted, unclaimed, unfinished. |
| `Worker.TaskTable.EnsureScheduled` | apps/shared/queue.py:104-115 | Plants one row of these columns exactly when the topic has no unfinished recurring row. |
| `Worker.TaskTable.EarliestDue` | apps/shared/queue.py:279-279 | The row of a set with the least due time. |
| `Worker.TaskTable.ClaimBatch` | apps/shared/queue.py:272-284 | Takes only rows neither done nor parked, due, not locked and not held by a claim under 300 seconds old; all of them when fewer than the batch, the earliest due otherwise; returns their columns, and locks and counts an attempt on just those. |
| `Worker.TaskTable.Complete` | apps/shared/queue.py:403-429 | The row is done now and unlocked, its other columns and every other row as before; a recurring claim adds exactly one row of its columns, due its interval from now; all of it, or nothing when another unfinished recurring row holds the topic. |
| `Worker.TaskTable.Retry` | apps/shared/queue.py:431-440 | The row of that id is unlocked and due after the backoff, its other columns and every other row as before; a row that is gone stays gone. |
| `Worker.TaskTable.Fail` | apps/shared/queue.py:449-459 | The row of that id is parked now, its other columns and every other row as before; a row that is gone stays gone. |
| `Worker.TaskTable.PurgeFinishedTasks` | apps/shared/queue.py:118-130 | Deletes exactly the done rows past retention, returns how many, and keeps pending and parked rows whatever their age. |
| `Worker.Ledger.Deliver` | apps/shared/events/bus.py:88-98 | The consumed mark and the handler's writes commit together or not at all; a delivery already marked does nothing; a payload without an event just runs its handler. |
| `Worker.Process` | apps/shared/queue.py:353-385 | One claimed task, with an event or without, from handler to outcome: done, put back or parked, column by column, with the ledger and the writes changed exactly when the handler ran to commit. |
| `Worker.BatchIsTakes` | apps/shared/queue.py:344-351 | Claiming a batch is a run of single claims of the machine. |
| `Worker.BatchLeavesClaims` | apps/shared/queue.py:272-284 | The claims such a run leaves are the columns the batch read, and no other claim changes. |
| `Worker.InsertsAreSteps` | apps/shared/queue.py:81-115 | The machine's two inserts write the columns the methods do. |
| `Worker.ProcessIsARun` | apps/shared/queue.py:353-385 | The method's steps are a run of the machine reaching just the tables the method promises. |
| `EndToEnd.EnqueueAllCounts` | apps/shared/queue.py:81-101 | A listener's commit adds to the queue exactly one enqueue per dispatched pair. |
| `EndToEnd.RunKeepsInv` | apps/shared/events/listener.py:86-102 | Journal, listeners and queue together keep all their invariants and agree on what was enqueued. |
| `EndToEnd.FactToEffectExactlyOnce` | apps/shared/events/bus.py:88-98 | For every fact owed to an idempotent consumer, on every run of writers, listeners and workers: its writes commit at most once; once the cursor has reached it exactly one task was enqueued and either the writes committed once or that one row is still owed; a done row proves they committed. |
| `Progress.FactCanBeDispatched` | apps/shared/events/listener.py:110-139 | From every state the invariants allow, a run dispatches any committed fact to any topic it is owed to, and the cursor passes it. |
| `Progress.DispatchedCanCommit` | apps/shared/queue.py:353-385 | Once dispatched and not parked, a task's writes have committed or a run commits them. |
| `Progress.OwedFactCanTakeEffect` | apps/shared/events/bus.py:88-98 | From every reachable state of writers, listeners and workers, for every committed fact owed to an idempotent consumer whose task was not parked: a run exists in which the consumer's writes have committed, exactly once. |
| `EventTypes.FromPayloadFields` | apps/shared/events/types.py:125-141 | Rebuilding fails exactly when some field has neither a usable value nor a default, and otherwise each field is what that field alone reads. |
| `EventTypes.PayloadCarries` | apps/shared/events/repository.py:135-146 | The queue payload carries, for every field, the lifted column or the written payload value, and the journal's creation time. |
| `EventTypes.RecordSplits` | apps/shared/events/repository.py:103-129 | The record's columns are the event's four lifted fields, the organization's only for a class in one; its payload is every other field but the creation time. |
| `EventTypes.FieldSurvives` | apps/shared/events/types.py:136-140 | One field reads back as emitted if and only if it is intact (typed for what it holds, not masked, not an `org_id` without the mixin, no text its type would reparse, no NULL it has no default for). |
| `EventTypes.RoundTripIffIntact` | apps/shared/events/types.py:125-141 | For every event of every class: every record of it is rebuilt to the event with the journal's `created_at` if and only if no field takes a reserved name and every other field is intact. |
| `EventTypes.RecordRoundTrips` | apps/shared/events/types.py:125-141 | For one record of any event of any class: it is rebuilt equal if and only if each field is intact, or under a reserved name happens to hold what the record carries there. |
| `SecretNames.SecretIffReadable` | apps/shared/events/types.py:61-66 | A name is secret if and only if one of the fragments can be read off it, letter by letter in either case with only underscores between, and it does not end in `_id`. |
| `SecretNames.SpelledIsSecret` | apps/shared/events/types.py:61-66 | Whatever text surrounds it, a fragment so spelled makes a name secret exactly when the name does not end in `_id`. |
| `EventTypes.RecordHides` | apps/shared/events/repository.py:83-100 | A field outside the columns is masked if and only if a fragment can be read off its name and it does not end in `_id`; every other value is carried as it was, uuids and datetimes as text. |
| `EventTypes.SpelledSecretIsMasked` | apps/shared/events/repository.py:88-93 | For all texts before and after, a field named with a spelled fragment reaches the journal as the mask. |
| `EventTypes.DefinableRoundTrips` | apps/shared/events/types.py:69-83 | For every event of every class that can be defined: it is rebuilt equal from every record of it if and only if its values are typed. |
| `EventTypes.AccountCreatedArrives` | apps/auth/contract/events.py:17-26 | For every account, name and address: its creation arrives as it was emitted, with the journal's time. |
| `EventTypes.FailsIffRequiredNull` | apps/shared/events/types.py:131-132 | For every event of every class, rebuilding raises exactly when a required field travels as NULL: emitted so, an `org_id` without the mixin, or a `request_id` outside a request. |
| `EventTypes.UnreleasedRegressionFails` | apps/issues/contract/events.py:17-36 | Every regression of an issue with its other required fields set is impossible to rebuild if and only if it was resolved in no release. |
| `EventTypes.UnreleasedRegression` | apps/issues/contract/events.py:32-36 | There is such an event: a regression with a NULL `resolved_in_release`. |
| `EventTypes.ReservedNameIsOverwritten` | apps/shared/events/repository.py:143-145 | A field named `event_id` or `request_id`, of any type, reads back the record's own id (or its default, or fails), whatever the event held. |
| `EventTypes.ParseUuids` | apps/shared/events/types.py:136-140 | The uuid loop reparses in place exactly the fields that carry a uuid and hold text that parses. |
| `EventTypes.ParseTimes` | apps/shared/events/types.py:136-140 | The datetime loop does the same for datetimes, after the uuids. |
| `EventTypes.Rebuild` | apps/shared/events/types.py:125-141 | Filter, both loops and construction compute the specification of `from_payload`. |
| `Wiring.EventCatalog.Register` | apps/shared/events/catalog.py:34-47 | Refused exactly when another declaration holds the kind; a kind never changes declaration, and every registered class of a kind is the same declaration as the one the kind maps to. |
| `Wiring.EventWiring.AddConsumer` | apps/shared/events/wiring.py:82-101 | Refused exactly on a kindless class or when any consumer has the topic `evt:<kind>:<name>` already; else that topic; topics stay unique over all events. |
| `Wiring.EventWiring.ConsumersOf` | apps/shared/events/wiring.py:103-108 | The consumers of each class of the resolution order, in that order. |
| `Wiring.EventWiring.SpreadHandlersFor` | apps/shared/events/wiring.py:124-131 | Exactly the handlers of the class or a base, each once, most specific first. |
| `Wiring.KindsOfTheOneClass` | apps/shared/events/listener.py:126-128 | One registration stands behind each topic, so the kinds read for it are just its class's. |
| `Wiring.OwedTopicsAreConsumers` | apps/shared/events/listener.py:41-46 | For every stored kind, the listener reads it for a topic if and only if a consumer of its class or of a base feeds that topic: `_kinds_of` inverts the walk up the bases. |
| `Wiring.SpreadScansOwnClassOnly` | apps/shared/events/wiring.py:119-122 | For every catalog the registrations can leave: a fact is scanned for spread handlers if and only if a handler is registered on some declaration of its very class. |
| `Wiring.SpreadScansOwnRegistration` | apps/shared/events/wiring.py:119-122 | Where no class was declared anew, that is the class the kind maps to. |
| `Wiring.BaseHandlerIsNotScanned` | apps/shared/events/wiring.py:119-131 | So a handler on a base alone, though it resolves for a subclass's fact, is never offered one. |
| `Wiring.TasksGoToConsumers` | apps/shared/events/wiring.py:103-112 | In every run of the listeners each dispatched pair is a committed fact and a topic fed by a consumer of that fact's class or a base. |
| `Capture.VictimFrom` | apps/shared/logs/capture.py:123-136 | The search ends on the first queued capture of the first most repeated fingerprint. |
| `Capture.DistinctFillsSet` | apps/shared/logs/capture.py:123-128 | Captures that never repeat are as many as their fingerprints (the pigeonhole). |
| `Capture.ShedKeepsFingerprints` | apps/shared/logs/capture.py:123-136 | When captures outnumber fingerprints, evicting one keeps the fingerprint set. |
| `Capture.AppendedMultiset` | apps/shared/logs/capture.py:68-76 | An append adds the capture, evicts the victim exactly when the queue is full, and never exceeds the capacity. |
| `Capture.ApplyConserves` | apps/shared/logs/capture.py:243-264 | Every step keeps accepted = queued + finished + in hand + shed and shed = reported + pending counter + report in progress. |
| `Capture.CapturesAreConserved` | apps/shared/logs/capture.py:243-314 | In every reachable state, across any mix of appends, refusals, re-appends and untaken reports, no capture is lost uncounted. |
| `Capture.RunErasesNone` | apps/shared/logs/capture.py:123-136 | Along any run with few enough fingerprints each one captured is finished, queued or in the drain's hand. |
| `Capture.DistinctQueueErases` | apps/shared/logs/capture.py:131-132 | For every capacity a run with that many fingerprints (two, for capacity one) erases one. |
| `Capture.NoneErasedIffFits` | apps/shared/logs/capture.py:123-136 | No run with at most k fingerprints erases one if and only if k is below the capacity, or k is at most one. |
| `CaptureQueue.CountFingerprints` | apps/shared/logs/capture.py:129-129 | The counter holds each fingerprint's count and lists fingerprints in the order first met. |
| `CaptureQueue.MostCommon` | apps/shared/logs/capture.py:129-129 | The first maximum in that order. |
| `CaptureQueue.FirstMaximumIsVictim` | apps/shared/logs/capture.py:123-136 | The first capture of that fingerprint is the specified victim. |
| `CaptureQueue.Queue.Shed` | apps/shared/logs/capture.py:123-136 | Both branches remove exactly the victim and keep the order of the rest. |
| `CaptureQueue.Queue.Append` | apps/shared/logs/capture.py:68-76 | Appends, shedding and counting exactly when full. |
| `CaptureQueue.Queue.Enqueue` | apps/shared/logs/capture.py:151-161 | A marked instance changes nothing; an unmarked one is appended and marked when it takes the mark. |
| `CaptureQueue.Queue.Tick` | apps/shared/logs/capture.py:243-264 | Whatever arrives before it reads the length, during each delivery and during the report: one turn per capture queued at the start, the first refused to the back and last, the overflow count kept unless its report is taken; a run of the machine ending on this queue and counter. Undisturbed, it finishes the longest prefix the trackers take. |
| `CaptureQueue.TurnGoesOn` | apps/shared/logs/capture.py:247-261 | A turn whose capture is taken leaves the drain going with one more finished; the first one refused ends it. |
| `CaptureQueue.Queue.Deliver` | apps/shared/logs/capture.py:266-291 | Taken exactly when some tracker did not raise or there is none; reports exactly the trackers that had no run of failures; moves each run on or ends it. |
| `CaptureQueue.OneCapturePerOutage` | apps/shared/logs/capture.py:185-210 | Over any sequence of deliveries a tracker's failures are reported exactly once per outage, however long; queueing skips a marked exception, so an outage is captured at most once. |
| `Histogram.BucketFrom` | apps/metrics/domain/accumulator.py:52-56 | The slot found is the first whose bound is not exceeded. |
| `Histogram.OfConcat` | apps/metrics/domain/accumulator.py:77-81 | Histograms add up over concatenated observations. |
| `Histogram.CumulativeCounts` | apps/metrics/domain/service.py:20-25 | The counts up to a bucket are the number of durations at most its bound. |
| `Histogram.PercentileMs` | apps/metrics/domain/service.py:13-26 | The loop's value, from its running count and lower bound: none beyond the last bound; else, in the first bucket whose count reaches the rank, it divides the bucket's width as the rank divides its count. |
| `Histogram.EqualStepsMoveEqually` | apps/metrics/domain/service.py:20-23 | Inside a bucket equal steps of the rank move the value equally. |
| `Histogram.BoundAtLastRankOnly` | apps/metrics/domain/service.py:3-5 | The value is on the bucket's bound if and only if the rank is the bucket's last. |
| `Histogram.DividesByZeroIff` | apps/metrics/domain/service.py:22-23 | It divides by zero exactly for a non-positive quantile over an empty first bucket; never for a quantile in (0, 1]. |
| `Histogram.PercentileIsMonotone` | apps/metrics/domain/service.py:13-26 | Raising the quantile never lowers the value, and once there is none there is none above. |
| `Histogram.PercentileInBucketOfOrderStatistic` | apps/metrics/domain/service.py:13-26 | For every multiset of durations, the value is missing exactly when the ceil(q·n)-th smallest exceeds the last bound, and otherwise lies in that duration's bucket. |
| `Histogram.PercentileError` | apps/metrics/domain/service.py:3-5 | For non-negative durations the value is off by at most that bucket's width. |
| `Histogram.PercentileMissingIff` | apps/metrics/domain/service.py:15-26 | For every quantile in (0, 1] the percentile is missing exactly for no durations, or when the order statistic exceeds the last bound. |
| `Histogram.KthExists` | apps/metrics/domain/service.py:13-26 | The order statistic exists at every rank from 1 to n. |
| `Metrics.ObservedIsStatsOf` | apps/metrics/domain/accumulator.py:64-81 | Counting one request into the counters of a history gives the counters of the longer history. |
| `Metrics.SnapshotDeltas` | apps/metrics/domain/accumulator.py:125-141 | The loop computes the specified deltas, skipping labels whose status counts did not change. |
| `Metrics.DeltaIsNewObservations` | apps/metrics/domain/accumulator.py:125-141 | For one label the delta is the counters of just the requests in between, and it is skipped exactly when there were none. |
| `Metrics.DeltasAreNewObservations` | apps/metrics/domain/accumulator.py:125-141 | Between two snapshots of a process the deltas are those of a fresh process that saw only the requests in between, label by label. |
| `Metrics.StatusesSumToRequests` | apps/metrics/domain/accumulator.py:33-35 | Status counts add up to the number of requests. |
| `Metrics.MetricsAccumulator.Observe` | apps/metrics/domain/accumulator.py:64-81 | The live counters are always the closed form of the whole history, under the bounded label. |
| `Metrics.MetricsAccumulator.BoundedUnmatchedLabel` | apps/metrics/domain/accumulator.py:83-89 | Own label while known or while there is room, else the shared one; never more than the cap. |
| `MetricsTable.MergedAdds` | apps/metrics/infra/repository.py:15-59 | Merging adds exactly its measure to every total that covers its slot and nothing to the others. |
| `MetricsTable.MergedKeepsUnique` | apps/metrics/infra/repository.py:28-36 | One row per slot is kept, and just that slot may appear. |
| `MetricsTable.DropGroup` | apps/metrics/infra/repository.py:134-135 | Deleting a group takes exactly its stale rows out of every total. |
| `MetricsTable.CollapseConserves` | apps/metrics/infra/repository.py:119-133 | A group collapsed into its hour row leaves every label's and every hour's totals unchanged, component by component. |
| `MetricsTable.MergedBuckets` | apps/metrics/domain/service.py:38-43 | The nested loops compute the bucket-wise sum of the rows. |
| `MetricsTable.SumStatuses` | apps/metrics/domain/accumulator.py:33-35 | The loop sums the status counts. |
| `MetricsTable.Grouped` | apps/metrics/infra/repository.py:115-118 | The loop groups the stale rows by hour, method and route, in order, each group exactly its members. |
| `MetricsTable.RequestMetrics.MergeRow` | apps/metrics/infra/repository.py:15-59 | Updates the row of the slot in place, or appends one. |
| `MetricsTable.RequestMetrics.AddDeltas` | apps/metrics/infra/repository.py:62-78 | Every total gains exactly the delta of its label where its scope covers that instance's row of that minute; no other row changes. |
| `MetricsTable.RequestMetrics.CollapseGroups` | apps/metrics/infra/repository.py:119-133 | The loop over the groups conserves every label's and every hour's totals, whatever order it takes them in. |
| `MetricsTable.RequestMetrics.Rollup` | apps/metrics/infra/repository.py:101-137 | For every hour, method and route each figure summed over minute rows and hour row is unchanged, wherever the cutoff falls; stale minute rows are gone, other rows untouched, one row per slot; the counts returned are right. |
| `Pipeline.ApplyKeepsLog` | apps/metrics/infra/flusher.py:49-60 | Each process's flushed requests stay a prefix of what it counted, through commits and failures. |
| `Pipeline.ApplyKeepsTable` | apps/metrics/infra/repository.py:62-78 | Every step keeps each label's rows equal, figure by figure, to the flushed requests. |
| `Pipeline.TableHoldsWhatWasFlushed` | apps/metrics/infra/flusher.py:49-60 | On every run of any processes, failed flushes and rollups, the table adds up to the flushed prefixes interleaved. |
| `Pipeline.RowsPlusDeltaAreCounters` | apps/metrics/infra/flusher.py:49-60 | Without a rollup, one process's rows are its last flushed snapshot, and rows plus the next delta are its live counters. |
| `Pipeline.MergedBucketsAreHistogram` | apps/metrics/domain/service.py:61-93 | The merged buckets of a label's rows are the histogram of every flushed duration. |
| `Pipeline.PercentileOfTable` | apps/metrics/domain/service.py:61-93 | On every run the percentile read off a label's rows is in the bucket of the true order statistic of all flushed durations, or missing when that exceeds the last bound. |
| `Pipeline.MetricsFlusher.Tick` | apps/metrics/infra/flusher.py:49-60 | Succeeds exactly when the commit does or there is nothing to write; the previous snapshot advances only then, and a failed flush changes nothing. |
| `Limiter.CounterStore.Increment` | apps/shared/http/limiter.py:61-75 | Counts one hit in the window of the moment and returns the new count, or nothing when the store failed. |
| `Limiter.CounterStore.PurgeCounters` | apps/shared/http/limiter.py:78-82 | A counter is kept, with its count, exactly when its window started at most a day ago. |
| `Limiter.CounterStore.Call` | apps/shared/http/limiter.py:94-114 | An answered call counts one hit in its window and is refused exactly when the hits exceed the limit; an unanswered one counts nothing and goes through. |
| `Limiter.LiveWindowIsKept` | apps/shared/http/limiter.py:78-82 | The window a moment falls in is never one a purge at that moment deletes. |
| `Limiter.WindowLetsThroughItsLimit` | apps/shared/http/limiter.py:61-75 | On every run with purges and a clock that does not go back, each key's window lets through exactly the first `max` of the calls it counted, and a window that can still be hit keeps its count. |
| `Limiter.SpanLetsThroughTwiceItsLimit` | apps/shared/http/limiter.py:94-114 | Any span one window long lets through at most twice the limit. |
| `Limiter.TwiceTheLimitIsReached` | apps/shared/http/limiter.py:64-65 | For every limit with a window over a second, a run lets through twice the limit within one second. |
| `Limiter.KeysAreDistinct` | apps/shared/http/limiter.py:90-109 | Endpoints and clients never share a counter, as module paths hold no colon. |
| `AdminRaces.PassingLeavesAnother` | apps/auth/domain/admin_guard.py:8-10 | A check that passes on a listing without repeats, whose target was shown or has company, leaves another admin who can act. |
| `AdminRaces.ReadKeepsSeen` | apps/auth/infra/user_repository.py:57-66 | Each account read under the lock keeps: whoever was read as able to act still is. |
| `AdminRaces.ApplyKeepsInv` | apps/auth/infra/accounts_router.py:117-133 | Every step of any actor, and every unlocked enable, promotion, sign-up or expunge, keeps an admin who can act. |
| `AdminRaces.LastAdminSurvives` | apps/auth/infra/admin_guard.py:14-17 | For any number of actors in any interleaving of lock, page reads, check, mutate and release, the admins who can act never drop from one or more to none, while no list change crosses a page already read and the lock outlives the mutation. |
| `AdminRaces.ListedTwiceDropsTheLast` | apps/auth/infra/user_repository.py:41-54 | On a full page of accounts, a sign-up between two pages shows the only admin twice, and that admin is removed. |
| `AdminRaces.MissedTargetDropsTheLast` | apps/auth/infra/user_repository.py:41-54 | On one account more than a page, an account gone between two pages hides the only admin, and that admin is removed. |
| `AdminRaces.LostLockDropsTheLast` | apps/auth/infra/admin_guard.py:1-5 | A lock that ends before the mutation lets two actors remove the last two admins. |
| `AdminRaces.LastAdminSurvivesIff` | apps/auth/infra/admin_guard.py:1-17 | On every server and every run an admin remains if and only if no sign-up and no expunge moves accounts across a page a listing has passed, and the lock outlives the mutation: each of the three is needed. |
| `AdminRaces.CoversMore` | apps/auth/infra/user_repository.py:41-54 | A page of a list that stays put adds just its live accounts: read to the end, the listing shows each once. |
| `AdminRaces.InsertRepeatsIff` | apps/auth/infra/user_repository.py:41-54 | A listing that has read `start` accounts shows one of them again after an insertion exactly when it lands ahead of there. |
| `AdminRaces.RemoveMissesIff` | apps/auth/infra/user_repository.py:41-54 | And misses one after a removal exactly when it was ahead of there and some account was still to come. |
| `Admins.RefusesExactlyTheLast` | apps/auth/domain/admin_guard.py:8-10 | On a listing of every live account once, the guard refuses exactly the removal of the only admin who can act. |
| `Admins.AccountServer.ListServerAdmins` | apps/auth/infra/user_repository.py:41-66 | The paging loop lists every live account once, in order. |
| `Admins.AccountServer.GuardLastAdmin` | apps/auth/infra/accounts_router.py:117-133 | Passes exactly when the target is not the last admin who can act. |
| `Admins.AccountServer.DisableUser` | apps/auth/infra/accounts_router.py:138-153 | Refused exactly for oneself or the last admin; bans just that account; someone still can act. |
| `Admins.AccountServer.DeleteUser` | apps/auth/infra/accounts_router.py:174-193 | The same for deletion. |
| `Admins.AccountServer.ByEmail` | apps/console/domain/admins.py:31-33 | The first live account of the address in any case, in the order listed, or none exactly when there is none. |
| `Strings.LowerIff` | apps/console/domain/admins.py:31-33 | Two addresses count as one exactly when they differ in nothing but the case of their letters. |
| `Admins.AccountServer.GrantAdmin` | apps/console/domain/admins.py:40-56 | Not found exactly for an empty or unknown address; else the target is an admin and changed says whether it was not. |
| `Admins.AccountServer.SetAdmin` | apps/console/domain/admins.py:59-77 | Not found, refused or done exactly as the directory says; only the target's role changes; someone still can act. |
| `Organizations.LastOwnerMeansSole` | supabase/migrations/20260818000002_organizations.sql:149-167 | The application's count and the database trigger refuse the same removals, those of a sole owner; the trigger lets go a user no longer in `auth.users`. |
| `Organizations.TriggerRefusesIff` | supabase/migrations/20260818000002_organizations.sql:149-167 | The trigger refuses exactly the one owner of an organization that still exists, while the account does. |
| `Organizations.OrganizationStore.CreateWithOwner` | apps/organizations/infra/repository.py:21-46 | Organization and owner appear together, or neither on a taken id. |
| `Organizations.OrganizationStore.AcceptInvitation` | supabase/migrations/20260818000002_organizations.sql:226-260 | Refused exactly for a missing invitation, one neither pending nor accepted, or another address; a pending one becomes a membership unless there is one already; every organization keeps an owner. |
| `Organizations.OrganizationStore.EnsureNotLastOwner` | apps/organizations/domain/service.py:16-24 | Refuses exactly the organization's one owner. |
| `Organizations.OrganizationStore.RemoveMember` | apps/organizations/infra/router.py:650-672 | Refused exactly for a sole owner, absent for a non-member, else just that membership goes; owners remain. Leaving is the same with oneself as target. |
| `Organizations.OrganizationStore.UpdateMemberRole` | apps/organizations/infra/router.py:593-620 | The same for a demotion; a promotion is never refused. |
| `Organizations.OrganizationStore.DropMemberships` | apps/organizations/contract/integration.py:175-190 | The first loop drops the user's memberships except where they are the sole owner, never tripping the trigger, and collects exactly those. |
| `Organizations.OrganizationStore.DeleteLeftovers` | apps/organizations/contract/integration.py:191-200 | The second loop deletes exactly the doomed organizations and those left empty, with their memberships. |
| `Organizations.OrganizationStore.ForgetUser` | apps/organizations/contract/integration.py:166-200 | The two loops compute the closed form of an account's removal. |
| `Organizations.ForgottenFrees` | apps/organizations/contract/integration.py:166-172 | Afterwards the user has no membership; an organization went exactly when the user was its one owner or its one member; everyone else's memberships are as before. |
| `Organizations.ForgottenKeepsValid` | apps/organizations/contract/integration.py:166-200 | Surviving organizations keep an owner, and every organization with another owner survives. |
| `Organizations.EveryOrganizationKeepsAnOwner` | apps/organizations/domain/service.py:16-24 | With each operation atomic, every run of create, join, role change, removal and account deletion leaves each organization a membership with the owner's role. |
| `OwnerRaces.OwnedIffGuarded` | supabase/migrations/20260818000002_organizations.sql:147-175 | For every run of overlapping removals, demotions and account deletions: at each point every organization has an owner whatever then commits, if and only if each removal found, besides its own member, an owner in no open removal. |
| `OwnerRaces.GuardedRunsKeepOwners` | supabase/migrations/20260818000002_organizations.sql:147-175 | A guarded run keeps, for each organization, an owner no open transaction touches, unless one is deleting it. |
| `OwnerRaces.OpenRemovalsOrphan` | supabase/migrations/20260818000002_organizations.sql:147-175 | From any state in which all owners of an organization, however many, are in open removals, the commits leave it ownerless. |
| `OwnerRaces.RacingRemovalsOrphan` | supabase/migrations/20260818000002_organizations.sql:147-175 | For every organization with two or more owners a run of overlapping removals that pass both checks leaves it ownerless. |
| `OwnerRaces.AloneIsGuarded` | apps/organizations/domain/service.py:16-24 | A removal that passes both checks while no other is open in its organization is guarded. |
| `OwnerRaces.PassesIff` | apps/organizations/domain/service.py:16-24 | A removal passes both checks exactly for a membership other than the one owner's. |
| `OwnerRaces.ForgetIsATransaction` | apps/organizations/contract/integration.py:166-200 | An account deletion is such a transaction of drops and deletes, and uninterrupted leaves the tables `ForgetUser` does. |
| `Positions.ShowsIsUnique` | apps/shared/persistence/repository.py:88-89 | The positions determine one list. |
| `Positions.MoveIsWhatItSays` | apps/shared/persistence/repository.py:96-114 | A move fails exactly on a missing row, a missing target or itself as target; else it permutes the list, keeps the others' order, and puts the row directly above its target or last. |
| `Positions.PlacedIsUnique` | apps/shared/persistence/repository.py:96-114 | Those facts leave one possible list. |
| `Positions.WritesRefineTheList` | apps/shared/persistence/repository.py:116-122 | Each operation's writes to the position column are the plain list operation on what the rows show. |
| `Positions.RunRefinesTheList` | apps/shared/persistence/repository.py:87-93 | Any mix of prepends, appends, removals and moves keeps positions distinct, non-negative and in the order of the list operations. |
| `Positions.DenseAfter` | apps/shared/persistence/repository.py:88-88 | Positions stay exactly 0..n-1 after a prepend or a move; after an append unless the list was empty; after a removal exactly when it was of the last. |
| `Positions.PositionedRepository.All` | apps/shared/persistence/repository.py:65-69 | Every row in position order. |
| `Positions.PositionedRepository.Prepend` | apps/todo/infra/repository.py:13-17 | Every row one down, the new one on top. |
| `Positions.PositionedRepository.MaxPosition` | apps/pages/infra/repository.py:187-189 | The largest position, 0 of none. |
| `Positions.PositionedRepository.Append` | apps/pages/infra/repository.py:186-195 | Refused exactly for a page already listed; else the item is last. |
| `Positions.PositionedRepository.Remove` | apps/pages/infra/repository.py:197-205 | Just that row goes. |
| `Positions.PositionedRepository.MoveAbove` | apps/shared/persistence/repository.py:116-122 | The specified move, positions rewritten to 0..n-1; nothing changes when it fails. |
| `Positions.Reorder` | apps/shared/persistence/repository.py:96-114 | The search, filter and insert compute the specified move. |

## Left out

- Limiter.WindowLetsThroughItsLimit: counts only calls the store answered, because the code lets the others through unlimited.
- Histogram.PercentileError: durations and percentiles are reals, because rounding is not what the bound is about.
- Listener.Store.Enqueue: records the fact and the topic of a task; its payload is `EventTypes.TaskPayload`, its actor is the fact's user where the reaction asks for one, and `max_attempts` the default five, as in `EndToEnd`.
- AdminRaces.LastAdminSurvives: an expunge is the account server's own purge, because the application only marks accounts deleted; it takes no admin who can act.
- OwnerRaces.OwnedIffGuarded: row locks are held to the end of their transaction and reads see what is committed; deadlocks, which abort one side, are aborts here.
- CaptureQueue.Queue.Deliver: says whose failure is reported; queueing the reported exception is an arrival in `Tick`.
- Strings.LowerIff: ASCII letters only; the application lower-cases every letter that has a small form, in addresses and in field names alike.
- Progress.OwedFactCanTakeEffect: says that a run exists, not that the schedulers choose it; a parked task waits for an operator.
- Metrics.MetricsAccumulator.Observe: takes the status class, because deriving it from the code is one expression.
- Admins.AccountServer.GrantAdmin: runs uninterrupted; two grants racing may both report a change.
- EventTypes.RoundTripIffIntact: a default is a value; default factories are not modelled, and no event uses one.
- SQL text, the ORM, LISTEN/NOTIFY and the connection pool: tables are modelled by what a statement does.
- The routability claim (`checked_at`) and the cursors a migration seeds: neither decides what is delivered.
- HTTP routing, templates, charts and console screens: presentation.
- The account server, storage, mail, token decoding and row-level policies: foreign systems.
- Scheduling, start, stop and cancellation: each awaited section is one step, and a crash is a step where it matters.
- Timeline paging, settings coercion, slugs, calendar helpers: they would add only easy members.
- Optimistic locking on positioned rows and the purge of old hour rows: one statement each.
- The Prometheus rendering of the counters and the error-rate and mean columns: one expression each.
