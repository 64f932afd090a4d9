# A verified model of IoTAPS

IoTAPS is the backend of an IoT platform: devices talk MQTT, a listener writes what they send into Redis, a batch
writer moves it into a time-series table, rules react to it, commands travel the other way, and organisations pay for
all that. This project models the protocols and algorithms inside that backend and proves what they keep.

Where a component works by changing state step by step, it is a class or a method with loops, proved equal to a
specification function; the theorems are lemmas about those functions, over all inputs, all runs or all interleavings.

| file | what it models |
|---|---|
| `Commands.dfy` | command delivery, each handler as one step: issue, flush on reconnect, acknowledge, time out |
| `CommandRuns.dfy` | the same protocol with every Redis or publish call as one step, any number of concurrent actors, any call raising |
| `CommandSafety.dfy`, `CommandRaces.dfy` | what every interleaving keeps, and three interleavings in which the documented life cycle breaks |
| `CommandRefinement.dfy` | a handler that runs undisturbed computes its one-step form |
| `CommandDelivery.dfy` | exactly which QUEUED commands a reconnect can still deliver |
| `CommandOrder.dfy` | delivery in queue order while one flush of the device runs at a time, and its failure with two |
| `CommandTimeouts.dfy` | exactly which SENT commands can still time out |
| `Ingest.dfy`, `IngestRuns.dfy` | the telemetry queue: listener and writer one after the other, then call by call |
| `RateLimit.dfy` | the token bucket and its eviction |
| `RuleChain.dfy`, `RulePlan.dfy`, `RuleStore.dfy` | rule graphs: linearised, compiled to a plan, executed; and persisted |
| `NodeAssignment.dfy` | least-loaded assignment of devices to broker nodes |
| `Calendar.dfy`, `Subscriptions.dfy`, `Wallet.dfy` | billing periods, webhook captures and refunds, partner payouts |
| `PdfText.dfy`, `PdfFile.dfy` | the PDF report writer against a reader of ISO 32000-1 |
| `Topics.dfy`, `Scheduler.dfy` | MQTT topics and filters; the simulator's due-time scheduler |

`Prelude.dfy` holds the shared vocabulary. `dafny verify dfyconfig.toml` verifies all of it.

## Where the code and its documentation part

These are stated as lemmas, with the exact condition under which the documentation is right.

- A CONFIRMED command is documented as never downgraded (`app/services/command_service.py:252-253`). With load and save
  as one step that holds (`TerminalAbsorbing`). Call by call it fails exactly when an ACK timer is between its load and
  its save (`ConfirmedDowngradedIff`, with the run in `ConfirmedCanBeDowngraded`); what survives is that a record's rank
  never decreases (`RankNeverDecreases`).
  The mirror race revives an UNACKNOWLEDGED command, exactly when an acknowledgement is between its load and its save
  (`UnacknowledgedRevivedIff`, `UnacknowledgedCanBeRevived`).
- A QUEUED command is documented to be sent on reconnect (`app/services/command_service.py:18`, `302-306`). It still can
  be if and only if it stands in a queue, is in the hands of a flush or has been published already
  (`QueuedDeliverableIff`). A flush drops what it has popped exactly when the record is absent at its load
  (`PoppedEntryDroppedIff`); since the entry is pushed before the record is saved, a reconnect in between strands a
  command that is then reported QUEUED for good (`QueuedCanBeStranded`, `LostForever`).
- A SENT command is documented to become UNACKNOWLEDGED when no ACK comes in time
  (`app/services/command_service.py:14-17`). Call by call it still can in some continuation if and only if its timer is
  armed, its issuer is about to arm it, or the timer has fired and has not yet saved (`SentTimesOutIff`); with whole
  handlers it does exactly when its armed timer comes before any acknowledgement (`FirstVerdictWins`). A timer is armed
  only for a command issued online with a timeout above zero, and one that fires into a raising call is gone; a command
  once QUEUED never becomes UNACKNOWLEDGED (`QueuedNeverUnacknowledged`, `FlushedNeverTimesOut`).
- Queued commands are documented to be delivered first in, first out (`app/services/command_service.py:302-306`). They
  are, against every interleaving and every raising call, as long as no two flushes of the device run at once
  (`FlushKeepsOrder`); with two, the command in second place can overtake the first whenever it reads QUEUED
  (`TwoFlushesOvertake`, `OrderCanBreak`).
- `LTRIM` is documented to remove exactly the entries processed (`app/workers/batch_writer.py:180-181`). The listener
  pushes at the same end, so entries that arrive after the read are removed in place of read ones: exactly as many as
  arrived, up to the batch length (`TrimLossExact`, with the run in `ArrivalCanBeLost`).
- `Retry-After` is documented as a ceiling (`app/core/rate_limit.py:88-94`); it falls short exactly when the hint
  exceeds a whole number of seconds, at least one, by less than a thousandth (`HeaderReachesHintIff`). For a cost
  the bucket can hold, a caller is safe from that if and only if the bucket refills the cost within a second
  (`HeaderSufficesIff`), as it does under the code's own policies; `HeaderCanFallShort` is a policy, a bucket and a
  client that waits as told and is refused.
- One rule's delay is documented never to block another (`app/workers/alert_checker.py:546-547`); rules of one event run
  one after the other, and a rule that has actions is on time only if no earlier rule sleeps (`OnTimeIff`).
- A rule update that sends only nodes, or only edges, replaces the whole graph: the first leaves a rule that does
  nothing, the second is rejected unless it is empty (`NodesOnlyUpdateDisarms`, `EdgesOnlyUpdateRejected`).
- A duplicate capture is documented as ignored (`app/services/subscription_service.py:458-462`). A capture event changes
  state if and only if it is a first capture that goes through (`CaptureChangesIff`), and over any run first captures
  minus refunds of a payment are the change in its captured state (`CaptureBalance`); so a capture replayed after a
  refund extends the subscription again (`RefundedReplayExtendsAgain`), and without refunds none does
  (`CapturedAtMostOnce`).
- A payout below one rupee can be requested but never approved (`ApprovalSucceedsIff`, `SmallPayoutIsStuck`).
- The fallback behind the day loop of `_add_period` is reached only when the target year is out of range
  (`Calendar.ComputePeriod`).

## Model

| member | source | states |
|---|---|---|
| Commands.NextStatusExact | app/services/command_service.py:86-108 | the five legal transitions and no other |
| Commands.IssueExact | app/services/command_service.py:390-495 | every request field by field: which refusal it meets and that a refusal changes nothing; an accepted one publishes a message with its id, device, type, target and value (or queues it among the newest 100), records it and arms a timer only online with a timeout above zero |
| Commands.SettleExact | app/services/command_service.py:230-264 | an acknowledgement confirms exactly a SENT command, a timeout makes exactly a SENT command UNACKNOWLEDGED, both return the new record, and nothing else changes |
| Commands.FlushExact | app/services/command_service.py:333-354 | from any queue without repeated ids, with the publisher raising at any call or never, a flush delivers exactly the live QUEUED entries in queue order up to the failing one, marks just those SENT and returns them in that order, empties the queue or leaves what stood behind the popped entry, and touches nothing else |
| Commands.OfflineIssuesQueue | app/services/command_service.py:470-489 | commands issued to an offline device publish nothing and leave its queue as the newest 100 of old queue plus new commands, each recorded QUEUED |
| Commands.OfflineRoundTrip | app/services/command_service.py:333-354 | n commands issued offline then flushed publish exactly the last min(n,100) in issue order, mark those SENT and return them in that order, leave evicted ones QUEUED and the queue empty; if the publisher raises, exactly one popped command is neither queued nor SENT |
| Commands.FlushTells | app/services/command_service.py:160-170 | each message of a flush carries id, device, type, value and non-empty target of the record it delivers |
| Commands.OfflineSaysRequested | app/services/command_service.py:333-354 | commands issued offline and flushed are published with the id, device, type, value and target that were requested, and recorded so |
| Commands.FlushOnlyRaises | app/services/command_service.py:333-354 | a flush changes no record that is not QUEUED and lowers no record's rank |
| Commands.TerminalAbsorbing | app/services/command_service.py:230-264 | over every run of whole handlers with fresh ids ranks never fall and a CONFIRMED or UNACKNOWLEDGED record never changes again |
| Commands.FirstVerdictWins | app/services/command_service.py:230-264 | over every run of whole handlers a SENT command ends CONFIRMED or UNACKNOWLEDGED as the first of its acknowledgement and its armed timer decides, and SENT if neither comes |
| Commands.CommandService.IssueCommand | app/services/command_service.py:390-495 | the stateful handler, both branches and all rejections, leaves exactly the specified store and outcome |
| Commands.CommandService.ConfirmCommand | app/services/command_service.py:230-246 | an acknowledgement confirms a SENT command and changes nothing else, in any other state nothing at all |
| Commands.CommandService.ExpireCommand | app/services/command_service.py:249-264 | a timeout makes a SENT command UNACKNOWLEDGED and changes nothing in any other state |
| Commands.CommandService.FlushQueued | app/services/command_service.py:299-354 | the popping loop refines the flush whose effect `FlushExact` gives |
| Commands.CommandService.HandleStatus | app/workers/mqtt_listener.py:341-377 | presence is recorded first, a flush follows only with a publisher, and its raising does not undo the presence |
| Commands.PresenceExact | app/workers/mqtt_listener.py:341-377 | presence is recorded in every case; without a publisher nothing else happens, with one exactly the flush does |
| CommandRuns.InvStep | app/services/command_service.py:299-351 | every call of every interleaving keeps the invariant linking program counters, records, queues, messages and timers |
| CommandRuns.InvDrop | app/services/command_service.py:481 | trimming or expiring a queue keeps the invariant |
| CommandRuns.DropLosesExactly | app/services/command_service.py:481-482 | trimming or expiring a queue keeps its newer part, and the commands waiting in the dropped part, and no others, become lost |
| CommandRuns.FaithfulStep | app/services/command_service.py:343-349 | records, queues and messages carry each command as its issuer drew it up, for its own device |
| CommandRuns.ReachableGood | app/services/command_service.py:299-495 | every reachable state satisfies invariant, faithfulness and custody |
| CommandSafety.RankNeverDecreases | app/services/command_service.py:86-108 | absent < QUEUED < SENT < {CONFIRMED, UNACKNOWLEDGED} never decreases along any run in which the record does not expire |
| CommandSafety.PublishedAtMostOnce | app/services/command_service.py:336-349 | in every reachable state no command has been published twice and every message has the device, type, value and non-empty target of the command as drafted |
| CommandSafety.RunsSayRequested | app/services/command_service.py:437-489 | after a command is issued, in every interleaving every message and every record under its id has the device, type, value and target requested |
| CommandSafety.RaisedCallStops | app/services/command_service.py:433-495 | a call that raises ends its handler and changes no shared state |
| CommandSafety.CommandsConserved | app/services/command_service.py:437-489 | every command ever drawn is in exactly one place: with its issuer, in one queue once, with a flush, published, or lost for a recorded reason |
| CommandSafety.FlushFindsQueued | app/services/command_service.py:344-347 | the flush's skip of records that are not QUEUED is never taken |
| CommandSafety.ConfirmedDowngradedIff | app/services/command_service.py:249-264 | a CONFIRMED command can be downgraded in some continuation if and only if an ACK timer is between its load and its save |
| CommandSafety.UnacknowledgedRevivedIff | app/services/command_service.py:230-246 | an UNACKNOWLEDGED command can be revived in some continuation if and only if an acknowledgement is between its load and its save |
| CommandSafety.QueuedNeverUnacknowledged | app/services/command_service.py:466-469 | a command once seen QUEUED is never UNACKNOWLEDGED in any continuation |
| CommandSafety.LostForever | app/services/command_service.py:336-347 | a command lost from the protocol is in no continuation published or queued again |
| CommandRaces.ConfirmedCanBeDowngraded | app/services/command_service.py:249-264 | a reachable state with a CONFIRMED command and a timer about to overwrite it exists |
| CommandRaces.UnacknowledgedCanBeRevived | app/services/command_service.py:230-246 | a reachable state with an UNACKNOWLEDGED command and an acknowledgement about to overwrite it exists |
| CommandRaces.QueuedCanBeStranded | app/services/command_service.py:475-489 | a reachable state exists in which a command reads QUEUED and is lost for good |
| CommandDelivery.QueuedDeliverableIff | app/services/command_service.py:302-351 | a command that reads QUEUED can still be delivered in some continuation if and only if it stands in a queue, is in the hands of a flush or has been published already |
| CommandDelivery.PoppedEntryDroppedIff | app/services/command_service.py:336-347 | a flush drops a popped entry exactly when its record is absent at the load, and otherwise goes on to publish it |
| CommandDelivery.QueuedIsDeliverable | app/services/command_service.py:302-306 | a QUEUED command in its device's queue is published by a run that consists of nothing but that device's reconnect and the calls of its flush |
| CommandOrder.FlushKeepsOrder | app/services/command_service.py:302-306 | while no two flushes of a device run at once, in every interleaving with any call raising a command of its queue is published only after every command that stood ahead of it was published or lost |
| CommandOrder.TwoFlushesOvertake | app/services/command_service.py:333-351 | from every reachable state in which the second command of a queue reads QUEUED, two flushes can publish it while the first is still unpublished in the hands of a flush |
| CommandOrder.OrderCanBreak | app/services/command_service.py:333-351 | a reachable state exists from which a later command of a queue is published before an earlier one |
| CommandTimeouts.SentTimesOutIff | app/services/command_service.py:249-296 | a SENT command can become UNACKNOWLEDGED in some continuation if and only if its timer is armed or about to be, or has fired and not yet saved |
| CommandTimeouts.FlushedNeverTimesOut | app/services/command_service.py:333-354 | a reachable SENT command exists that in no continuation has a timer or becomes UNACKNOWLEDGED |
| CommandRefinement.IssueRefines | app/services/command_service.py:437-489 | the calls of issue_command made without interruption leave the one-step store, online and offline |
| CommandRefinement.FlushRefines | app/services/command_service.py:333-351 | the calls of a flush made without interruption leave the one-step store, whatever the queue and wherever the publisher raises |
| CommandRefinement.SettleRefines | app/services/command_service.py:230-264 | load and save made without interruption leave the one-step store of an acknowledgement or timeout |
| Ingest.ValidateExact | app/workers/mqtt_listener.py:140-184 | a payload is accepted exactly as what it reports: a strict one with its own time and exactly its data, a bare one at the clock with exactly its numeric fields outside the envelope keys |
| Ingest.AcceptedIff | app/workers/mqtt_listener.py:151-184 | a strict payload is accepted exactly when all its data are numbers under non-empty keys, any other exactly when it has a numeric field outside the envelope keys |
| Ingest.ParseEnvelopeExact | app/workers/batch_writer.py:92-123 | the writer reads an envelope out of exactly the objects with its four fields, a non-empty device and a time that is not blank |
| Ingest.AcceptedIsParsed | app/workers/batch_writer.py:92-123 | the writer rejects nothing the listener accepted and reads back the same device, time and non-empty readings |
| Ingest.InsertFirstWins | app/workers/batch_writer.py:259-266 | an insert leaves existing rows alone, stores for a new key the first row of the batch that has it, and adds no other key |
| Ingest.ReinsertIsNoOp | app/workers/batch_writer.py:229-231 | inserting any part of a batch again, after any other inserts, changes nothing |
| Ingest.OutageKeepsBatch | app/workers/batch_writer.py:293-303 | any number of unavailable polls keeps the queue and sleeps the doubling backoff capped at 30 s; the table changes only if the connection was lost after a commit, and then holds the batch once |
| Ingest.OutageThenSuccess | app/workers/batch_writer.py:293-314 | any number of unavailable polls, reported before the commit or after it, followed by a success ends with the queue and table of one success |
| Ingest.FaultsThenSuccess | app/workers/batch_writer.py:209-215 | any faults of database or Redis, a trim raising after the commit included, with restarts wherever the worker stops, followed by a success, end with the queue and table of one success |
| Ingest.PoisonIgnoresDatabase | app/workers/batch_writer.py:201-215 | a queue of malformed entries is cleared without storing anything, whatever the database answers, while Redis answers |
| Ingest.NewestIsStored | app/workers/batch_writer.py:202-211 | storing a backlog keeps existing rows, and a new key gets the organisation and data of the newest queued item that carries it |
| Ingest.SuccessfulPoll | app/workers/batch_writer.py:290-314 | a successful poll empties the queue, stores its rows, resets the backoff to half a second and pauses a minute only when the queue was empty |
| Ingest.BackoffExact | app/workers/batch_writer.py:293-303 | the pause after n failures in a row is half a second times two to the n, at most 30 s |
| Ingest.FailureStops | app/workers/batch_writer.py:304-307 | a failure that is no outage stops the worker, keeps the queue, and leaves the rows in the table exactly when only the trim failed |
| Ingest.IngestPipeline.HandleTelemetry | app/workers/mqtt_listener.py:246-282 | rejected exactly when the payload reports nothing; that or a raising push leaves the queue, else an entry with the time and readings the payload reports goes in front and the oldest beyond 10000 are cut, unless the cap raises |
| Ingest.IngestPipeline.ProcessBatch | app/workers/batch_writer.py:190-220 | one cycle takes the whole backlog, and trims only after the insert succeeded; any of its calls may fail |
| Ingest.IngestPipeline.Run | app/workers/batch_writer.py:290-314 | the retry loop computes the fold of its polls, stopping at the first failure that is no outage |
| IngestRuns.InvStep | app/workers/batch_writer.py:190-220 | every interleaving of pushes, caps and writer calls, each of which may raise, keeps the queue ordered, the window relation and the accounting |
| IngestRuns.TelemetryConserved | app/workers/batch_writer.py:180-181 | every accepted envelope is at all times queued, stored by its key, dropped by the cap or removed unread by a trim; the last never happens when no push lands between read and trim |
| IngestRuns.TrimLossExact | app/workers/batch_writer.py:213-215 | a trim removes unread exactly the newest min(arrivals, batch) entries, all pushed after the read |
| IngestRuns.ArrivalCanBeLost | app/workers/batch_writer.py:213-215 | a run exists in which an accepted envelope is removed unread while the stored one stays queued |
| IngestRuns.CapDropsOldest | app/workers/mqtt_listener.py:280-282 | a cap leaves the newest 10000 entries: it drops exactly as many as stand beyond them, each older than every entry kept |
| IngestRuns.UndisturbedCycle | app/workers/batch_writer.py:190-220 | one undisturbed cycle empties the queue, stores every entry and loses none |
| IngestRuns.RowsComeFromEnvelopes | app/workers/batch_writer.py:247-255 | every row of every run is the content of an accepted envelope with that key |
| RateLimit.CheckExact | app/core/rate_limit.py:46-77 | one check: the level from tokens, time gone by and capacity, admission against it, what is left, the whole tokens reported and the time until the cost is covered |
| RateLimit.AdmittedIffEveryWindowFits | app/core/rate_limit.py:46-74 | for any clock, a request is admitted if and only if no window opened at an earlier request would exceed capacity plus rate times forward clock movement |
| RateLimit.TokensBounded | app/core/rate_limit.py:46-74 | tokens stay between 0 and capacity in every run, whatever the clock does |
| RateLimit.RateBound | app/core/rate_limit.py:46-74 | the cost admitted over any stretch is at most capacity plus rate times the sum of positive clock movements |
| RateLimit.RateBoundForward | app/core/rate_limit.py:46-74 | with a clock that never steps back that is capacity plus rate times elapsed time |
| RateLimit.EvictionUnnoticedIff | app/core/rate_limit.py:49-57 | deleting a bucket idle for some time can never be noticed if and only if that time refills it from empty |
| RateLimit.TtlCoversRefillIff | app/core/rate_limit.py:103-108 | the time to live is long enough exactly when the bucket refills at all or has no capacity |
| RateLimit.EvictionUnobservable | app/core/rate_limit.py:73-74 | with a positive rate, deleting idle buckets after their time to live changes no verdict of any run |
| RateLimit.TtlExact | app/core/rate_limit.py:103-108 | a bucket lives a minute longer than the whole seconds of its refill time |
| RateLimit.RetryAfterExact | app/core/rate_limit.py:61-72 | after a denial the same request alone is admitted exactly from the hinted time on, if its cost fits the bucket |
| RateLimit.HeaderReachesHintIff | app/core/rate_limit.py:88-94 | the exact hints for which the Retry-After header is no shorter than the hint |
| RateLimit.HeaderExact | app/core/rate_limit.py:88-94 | the header is at least one second and otherwise within a second above and a thousandth below the hint |
| RateLimit.HeaderSufficesIff | app/core/rate_limit.py:88-94 | for a cost the bucket can hold, every denial's header reaches its hint if and only if the bucket refills the cost within a second |
| RateLimit.HeaderSufficesInRuns | app/core/rate_limit.py:114-115 | at such a cost no denial of any run, from whatever policy, announces too little |
| RateLimit.HeaderCanFallShort | app/core/rate_limit.py:88-94 | with one token at half a token a second a denial hints 1.0005 s, announces 1, and the request one second later is denied |
| RateLimit.RateLimiter.Eval | app/core/rate_limit.py:38-78 | the script, statement by statement, stores and returns what the specification says |
| RateLimit.RateLimiter.CheckRateLimit | app/core/rate_limit.py:118-154 | without Redis the request is allowed with full remaining tokens and no state changes |
| RuleChain.StripExact | app/workers/alert_checker.py:86 | stripping removes the blanks at both ends and nothing else |
| RuleChain.NormalSpells | app/workers/alert_checker.py:86 | a normalised text is a given plain word exactly when the text is that word in any case between blanks |
| RuleChain.KindSpelled | app/workers/alert_checker.py:81-88 | a kind is read from exactly the spellings of its name |
| RuleChain.NodeOfExact | app/workers/alert_checker.py:108-116 | a row yields a node exactly when it has an id and spells a kind, with the row's configuration |
| RuleChain.BuildChain | app/workers/alert_checker.py:107-140 | the loops over rows and the visited-set walk terminate on every graph and compute the specified chain |
| RuleChain.SpecsExact | app/workers/alert_checker.py:107-116 | a node is used exactly when it is the last valid row of its id |
| RuleChain.AdjacencyExact | app/workers/alert_checker.py:118-125 | a node's successor is the target of the first whole edge out of it |
| RuleChain.WalkExact | app/workers/alert_checker.py:133-140 | the walk is the one duplicate-free path along first out-edges that cannot be prolonged, on every graph |
| RuleChain.ChainExact | app/workers/alert_checker.py:127-140 | there is a chain exactly when there is a trigger, and it is the maximal path from a trigger |
| RuleChain.ChainStartsAtFirstTrigger | app/workers/alert_checker.py:127-129 | among several triggers the chain starts at the one whose id came first among the rows |
| RuleChain.OrderDoesNotMatter | app/workers/alert_checker.py:710-721 | with one node per id, one successor per node and one trigger, rows in any order and multiplicity give the same chain |
| RulePlan.HoldsExact | app/workers/alert_checker.py:190-222 | a trigger or condition holds exactly when the design lets the sample pass: no key, or a numeric reading and no operator, or a reading that stands in the named relation to a numeric threshold |
| RulePlan.ThresholdExact | app/workers/alert_checker.py:160-173 | for each of the twelve spellings, in any case and between blanks, the predicate holds exactly when the arithmetic relation between reading and threshold does |
| RulePlan.PredicateFails | app/workers/alert_checker.py:209-222 | a predicate with a key fails without a numeric reading, and with an operator it fails on an unknown one or a threshold that is no number |
| RulePlan.DelayExact | app/workers/alert_checker.py:235-252 | the first number among the three keys in seconds, else `ms` in milliseconds, else nothing, never negative |
| RulePlan.ActionExact | app/workers/alert_checker.py:376-390 | the text under the first key that is set names the action in any case and between blanks; other texts are no action |
| RulePlan.NoAction | app/workers/alert_checker.py:383-385 | without any of the three keys there is no action |
| RulePlan.SuppressedIff | app/workers/alert_checker.py:318-328 | a plan is suppressed exactly in maintenance, and has no step then or without a trigger that holds |
| RulePlan.PlanChain | app/workers/alert_checker.py:315-338 | the planning loop with its early return computes the compiled steps |
| RulePlan.Executor.ExecutePlan | app/workers/alert_checker.py:424-439 | executing a plan logs its trace, advances the clock by its sleeps and counts the dispatches |
| RulePlan.Executor.EvaluateEvent | app/workers/alert_checker.py:549-568 | evaluating an event logs the rules' traces one after the other, and nothing in maintenance mode |
| RulePlan.CompilationPreservesMeaning | app/workers/alert_checker.py:11-23 | building the chain, planning and executing yields the same actions at the same times as the design's node-by-node interpreter on the graph, which judges triggers and conditions by a predicate of its own |
| RulePlan.ActionsRunExactly | app/workers/alert_checker.py:305-313 | an action runs if and only if the trigger and every earlier condition hold, once, in chain order, at the sum of the earlier delays |
| RulePlan.SleepsExactly | app/workers/alert_checker.py:420-429 | a plan sleeps exactly as long as the delays before the place where the chain closes add up to |
| RulePlan.RuleStartsAfterEarlierRules | app/workers/alert_checker.py:556-568 | each rule of an event starts when all earlier rules have slept |
| RulePlan.OnTimeIff | app/workers/alert_checker.py:544-548 | a rule acts as if alone if and only if it has no action or no earlier rule sleeps |
| RulePlan.DelayBlocksNextRule | app/workers/alert_checker.py:544-548 | two concrete rules of which the first delays the second's notification by five seconds |
| RuleStore.ClientToDbExact | app/services/rule_service.py:127-146 | a client id stands for the database id of the last node that carries it |
| RuleStore.SavableExact | app/services/rule_service.py:128-158 | a graph is accepted exactly when every node has a kind and every edge names, at both ends, the non-empty id of a node of the request |
| RuleStore.RuleService.FlushGraph | app/services/rule_service.py:124-166 | accepts exactly the graphs whose nodes have a type and whose edges join nodes of the request, and adds exactly their rows |
| RuleStore.RuleService.DeleteGraph | app/services/rule_service.py:168-182 | removes the rule's rows and no other rule's |
| RuleStore.RuleService.CreateRule | app/services/rule_service.py:213-249 | the exact outcome; a saved rule has exactly the rows of its graph, a rejected one leaves the tables as they were |
| RuleStore.RuleService.UpdateRule | app/services/rule_service.py:254-294 | the exact outcome; the graph is replaced as a whole or not at all, other rules keep theirs |
| RuleStore.RuleService.DeleteRule | app/services/rule_service.py:299-304 | removes the rule with its graph and nothing else |
| RuleStore.RowsWithoutRule | app/services/rule_service.py:168-182 | deletion by rule id leaves that rule no row and every other rule its rows in order |
| RuleStore.MayActivateExact | app/services/rule_service.py:52-112 | another rule may be activated exactly on the pro plan, in any case and between blanks, or while no two rules are active |
| RuleStore.ActiveLimitKept | app/services/rule_service.py:96-112 | no permitted create or update takes a limited organisation past two active rules |
| RuleStore.SavedGraphReloads | app/services/rule_service.py:127-208 | saving an editor graph and loading its rows in any order gives the client's chain under an injective renaming of ids |
| RuleStore.SavedRuleBehavesAsDrawn | app/services/rule_service.py:127-208 | a saved rule hands the sink the same actions at the same times as the client's own graph |
| RuleStore.NodesOnlyUpdateDisarms | app/services/rule_service.py:288-290 | an update that sends nodes without edges stores a rule whose plan is always empty |
| RuleStore.EdgesOnlyUpdateRejected | app/services/rule_service.py:288-290 | an update that sends edges without nodes is accepted exactly when it sends none |
| NodeAssignment.NodeTable.TryClaim | app/services/node_assignment.py:89-98 | the guarded update adds one connection exactly when the node is below capacity and reports it in the row count |
| NodeAssignment.NodeTable.AssignNode | app/services/node_assignment.py:73-103 | raises exactly when every active node is full, else one connection is added to an eligible node, the least loaded of the snapshot among those still free |
| NodeAssignment.GreedyStaysBalanced | app/services/node_assignment.py:75-103 | greedy assignment keeps load(a) <= load(b)+1 for every active a and every non-full b, and adds exactly one connection per assignment |
| NodeAssignment.BalancedSpillsLeast | app/services/node_assignment.py:73-82 | a balanced fleet exceeds any level by no more than any other distribution of the same devices within capacity |
| NodeAssignment.GreedyIsOptimal | app/services/node_assignment.py:73-103 | from an empty fleet greedy assignment minimises the maximum load, and the overflow above every level, among all distributions within capacity |
| NodeAssignment.ConcurrentClaimsSafe | app/services/node_assignment.py:57-59 | under every interleaving of queries and claims no node passes its capacity, each success adds one connection and a call raises only when all active nodes are full |
| Calendar.ComputePeriod | app/services/subscription_service.py:92-116 | the day-stepping loop computes the clamped date, and its fallback is reached exactly when the target year is out of range |
| Calendar.MonthLengths | app/services/subscription_service.py:107-116 | the month lengths a date is clamped to, February by the Gregorian leap rule |
| Calendar.PeriodIsLater | app/services/subscription_service.py:92-116 | a period ends on a valid, strictly later date with the same time of day and no later day of month |
| Calendar.RenewExact | app/services/subscription_service.py:92-116 | n monthly periods advance the month by n, and the day is the least of the starting day and every month length passed |
| Calendar.TwelveMonthsOrOneYear | app/services/subscription_service.py:92-116 | twelve monthly periods end where one yearly period ends exactly for days that survive the February between, or dates in February |
| Calendar.DayNumberOrders | app/services/subscription_service.py:339-344 | day counts with the time of day order dates as the calendar does |
| Calendar.RefundWindowExact | app/services/subscription_service.py:330-344 | a refund is inside the window exactly up to the instant fourteen calendar days, counted off day by day, after the payment |
| Subscriptions.FindPaymentExact | app/services/subscription_service.py:362-383 | the row found is the first with the event's non-empty order id, or only when no row has it the first with its non-empty payment id; none exactly when neither exists |
| Subscriptions.OthersUntouched | app/services/subscription_service.py:418-447 | an event changes no row but the one it is about and no subscription but that row's |
| Subscriptions.ProcessExact | app/services/subscription_service.py:409-514 | what every event answers and does to its row and subscription, field by field, the raising period included |
| Subscriptions.RefundExact | app/services/subscription_service.py:263-327 | a refund goes through exactly for a captured payment with a gateway id up to fourteen calendar days after it, and changes only that status; each refusal by its condition |
| Subscriptions.CaptureBalance | app/services/subscription_service.py:450-500 | over any run, first captures minus refunds of a payment equal the change in its captured state |
| Subscriptions.CapturedAtMostOnce | app/services/subscription_service.py:461-462 | without refunds each payment is captured, and so extends its subscription, at most once |
| Subscriptions.CaptureChangesIff | app/services/subscription_service.py:461-486 | a capture event changes any state if and only if it is a first capture that goes through |
| Subscriptions.EndIsFold | app/services/subscription_service.py:473-486 | the end of a subscription is the fold of the period over its first captures, each from the later of now and the current end; failure events and refunds move nothing |
| Subscriptions.EndNeverDecreases | app/services/subscription_service.py:473-486 | the end never moves back, over any run with any clock |
| Subscriptions.RefundedReplayExtendsAgain | app/services/subscription_service.py:461-486 | capture, refund and the replayed capture extend one payment's subscription twice |
| Subscriptions.BillingBook.HandleCapture | app/services/subscription_service.py:450-500 | the field updates of a capture in order, and nothing when the period raises |
| Subscriptions.BillingBook.HandleFailure | app/services/subscription_service.py:503-514 | marks an uncaptured payment failed and touches no subscription |
| Subscriptions.BillingBook.ProcessWebhookEvent | app/services/subscription_service.py:409-447 | lookup by order id then payment id, dispatch, and unknown events ignored |
| Subscriptions.BillingBook.RefundPayment | app/services/subscription_service.py:263-327 | the three refusals in order, or the refund of exactly that payment |
| Wallet.CreditExact | app/services/commission_service.py:68-169 | 50 when no rate is set, the rate when one is, zero included and never below zero; one row of that amount and the balance up by it |
| Wallet.RequestExact | app/services/payout_service.py:119-149 | a request is recorded, as one pending payout of that organisation and amount, exactly when the amount is positive and at most the balance of an existing wallet; otherwise nothing changes and the first failing condition is named |
| Wallet.ApproveExact | app/services/payout_service.py:186-231 | each refusal exactly by its condition, or the amount leaves its own wallet, its whole rupees are transferred and the payout is paid |
| Wallet.MoneyConserved | app/services/payout_service.py:194-231 | in every serial run a balance is commissions minus paid payouts and never negative, each payout is transferred once if paid and never otherwise, and debits exceed transfers by at most one rupee per paid payout |
| Wallet.TruncationBound | app/services/payout_service.py:225-229 | a transfer falls short of the debit by less than one rupee |
| Wallet.ApprovalSucceedsIff | app/services/payout_service.py:194-231 | a pending payout is approved exactly when its wallet covers it and it is at least one rupee |
| Wallet.SmallPayoutIsStuck | app/services/payout_service.py:119-231 | a request for half a rupee is accepted, and its approval raises and leaves it pending |
| Wallet.OtherWalletsUntouched | app/services/payout_service.py:159-243 | no operation changes the wallet of another organisation |
| Wallet.PartnerLedger.CreditCommission | app/services/commission_service.py:109-169 | the commission row and the balance grow by the same resolved rate |
| Wallet.PartnerLedger.RequestPayout | app/services/payout_service.py:89-156 | a request is recorded pending without reserving balance, or refused without a trace |
| Wallet.PartnerLedger.ApprovePayout | app/services/payout_service.py:159-243 | check, transfer and debit in order, each refusal leaving the ledger as it was |
| PdfText.EscapeIsCharwise | app/services/report_service.py:119-127 | the five replacements in sequence act character by character; none rewrites what another inserted |
| PdfText.EscapedLineReadsBack | app/services/report_service.py:119-127 | an escaped line, read as a literal string (section 7.3.4.2 of ISO 32000-1), ends at the writer's own parenthesis and is the text with line breaks as spaces |
| PdfText.BuildContent | app/services/report_service.py:156-166 | the growing operator list is the specified content stream |
| PdfText.LinesShown | app/services/report_service.py:156-166 | the strings of a content stream are exactly the report's lines, in order and each one line below the one before |
| PdfFile.GeneratePdf | app/services/report_service.py:168-200 | the loops over objects and offsets assemble the specified file |
| PdfFile.PadExact | app/services/report_service.py:195 | the ten-digit field denotes its offset, and is ten bytes long exactly below ten gigabytes |
| PdfFile.EntryWidthIff | app/services/report_service.py:194-195 | a cross-reference entry is 20 bytes (section 7.5.4 of ISO 32000-1) exactly when its offset has at most ten digits |
| PdfFile.OffsetPointsAtObject | app/services/report_service.py:182-187 | at each recorded offset stands that object, header first |
| PdfFile.ReadStartOk | app/services/report_service.py:198-200 | the number before the end-of-file marker is the position of the cross-reference table |
| PdfFile.EveryObjectResolves | app/services/report_service.py:181-200 | a reader starting from the end of the file finds every written object behind its own header, and no other number |
| PdfFile.StreamReadsBack | app/services/report_service.py:177-178 | /Length delimits the stream: any content is read back whole |
| PdfFile.ReportReadsBack | app/services/report_service.py:145-200 | a reader that starts at the end of the file and follows the trailer's /Root, then /Pages, /Kids and /Contents through the cross-reference table recovers exactly the report's lines, one below the other |
| Topics.ParseTopicExact | app/workers/mqtt_listener.py:78-117 | parsing succeeds with a result if and only if the topic is the one built from its non-empty, separator-free parts, in the organisation or the token form |
| Topics.NamesExact | app/core/mqtt_topics.py:24-28 | the four message types are exactly the four names |
| Topics.JoinSplit | app/workers/mqtt_listener.py:78-117 | joining the levels of a topic gives the topic back |
| Topics.SplitJoin | app/core/mqtt_topics.py:36-39 | splitting joined separator-free levels gives the levels back |
| Topics.TopicMatchesFilter | app/core/mqtt_topics.py:77-107 | the level loop with its early returns decides the matching relation |
| Topics.WellFormedMatches | app/core/mqtt_topics.py:77-107 | for filters with '#' only at the end this is the inductive relation of section 4.7.1 of MQTT Version 3.1.1 |
| Topics.MatchesByLevel | app/core/mqtt_topics.py:77-107 | which is agreement level by level, of all levels or of those before a final '#' |
| Topics.UpToHashWellFormed | app/core/mqtt_topics.py:77-107 | the loop ignores what follows a '#', which is no change exactly for well-formed filters |
| Topics.AccessExact | app/core/mqtt_topics.py:67-117 | an organisation reaches exactly its root and the topics below it |
| Topics.OrgsIsolatedIff | app/core/mqtt_topics.py:110-117 | two different organisations share an accessible topic if and only if one of the ids is itself a wildcard |
| Topics.OwnDevicesOnly | app/core/mqtt_topics.py:110-117 | a device topic is accessible exactly to the organisation in it |
| Scheduler.VisitExact | app/workers/device_simulator.py:150-176 | one device by cases: forgotten, published and rescheduled, left due after a failed publish, or left alone; no other entry changes |
| Scheduler.SimulatorScheduler.VisitDevice | app/workers/device_simulator.py:150-176 | one device of a tick: removed when not publishing, published when due, rescheduled only when the publish went through |
| Scheduler.SimulatorScheduler.RunTick | app/workers/device_simulator.py:135-185 | the loop over devices and the pruning compute the specified tick |
| Scheduler.TickIsPerDevice | app/workers/device_simulator.py:150-182 | with distinct ids a tick treats every device as if it were alone, and forgets absent ones |
| Scheduler.SteadyTick | app/workers/device_simulator.py:150-176 | a steady device publishes exactly when due and is next due one interval later |
| Scheduler.SteadyTimes | app/workers/device_simulator.py:150-176 | publishes are at least one interval apart, and less than interval plus tick gap apart |
| Scheduler.WindowCount | app/workers/device_simulator.py:150-176 | at most T/s + 1 publishes fall into any window of length T |

## Left out

Across the project:

- Concurrency in billing and payouts: wallet and subscription operations are serial transactions, since the code takes no lock and the model asserts nothing about interleavings there.
- Command handlers: a Redis or publish call either takes effect and returns or raises without effect (the ingest model has the lost replies too).
- Clocks and randomness: the time of each operation and every generated id are parameters.
- Redis key expiry: the loss of a command record or a queue is a step that may happen at any time; a rate-limit bucket expires as its time to live says.
- Decimal and floating-point rounding: amounts, durations and tokens are reals; `Paise` truncates as the transfer does.
- Unicode: `str.strip` and `str.lower` cover the ASCII characters.
- Tenancy, authentication, HTTP, WebSocket events and notifications, logging and quota counting.

By component:

- Commands: in the one-step form a failing queue or publish call has no effect (the fine model has each call fail on its own); the topic a message goes to (token lookup and its cache) is replaced by the device it is for; the database log row, the status events and their failures, and schedules are not modelled; online presence is one set over devices, not over tokens and ids.
- CommandRuns: any number of actors may run any handler at once, which includes the single listener of the deployment; the sleep of an ACK timer is a step that may come at any time after it was armed.
- Ingest: the latest-value key, pub/sub, datastream discovery and `latest_value_per_device` are left out; two spellings of one instant are two keys; the column types are not checked by the database.
- IngestRuns: one writer; malformed entries are left to `Ingest`.
- RuleChain: node rows carry their kind as text and their config as a flat object; the alternative key names of rows from other layers are not modelled.
- RulePlan: the sink neither fails nor takes time, and the event loop between evaluations of different events is not modelled; infinities and not-a-number have no counterpart among reals.
- RuleStore: templates, positions, listing and tenant checks; a rejected request is rolled back as a whole, as the surrounding session does.
- NodeAssignment: releasing a connection, and rollback of a claim by the caller's transaction.
- Subscriptions: checkout, coupons, invoices, plan changes on the organisation, and the gateway's own refund call.
- Wallet: the destination account and the referral rules that decide when a commission is due.
- PdfFile.GeneratePdf: takes the report's lines as given; collecting them from telemetry rows, the CSV format and page overflow are left out.
- Topics: the rule of section 4.7.2 of MQTT Version 3.1.1 about topics that start with '$' is not implemented by the code and so not by the model.
- Scheduler: building payloads and reloading the device list.
