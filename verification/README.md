# Dafny model of the assistant platform's stateful core

This project models, and proves properties of, the parts of the assistant platform whose
correctness lives in state that several processes or several calls share:

- **Session exchange** (`Session`, `Turn`, `Exchange`, `ExchangeInvariant`, `ExchangeTheorems`,
  `ExchangeTurn`, `ExchangeReturn`, `Runner`, `HostPolls`, `Host`, `History`, `HistoryEntries`). A host appends inbound rows; a container polls them,
  runs turns and commits each turn's reply rows together with an ack; the host polls the replies
  with a persisted delivered watermark. Either side may die and restart between any two steps.
  `Exchange.Step` is the step relation; classes `SessionDb`, `Container` and `SessionHost` update
  the tables and their own fields in place and say which steps they perform; the theorems hold over
  every run of steps, in any interleaving.
- **Cycle search** (`CycleSearch`, `Routing`, `Validate`, `ValidateReports`, `Fragments`): the three-colour depth-first
  search behind the agent-to-agent allow-list and the manifest validators, and what follows from it
  for handoff chains and for prompt rendering.
- **Migrations** (`Migrations`, with `StableSort`): the ordered, checksummed registry, one
  transaction per migration, runs cut off anywhere.
- **Serve loop** (`ServeLoop`, `RecentlySeen`, `Conversation`, `Relay`, `RelayMessages`): background scheduled turns
  reporting over a channel, the redelivery window, stable session ids over agent-to-agent hops, and
  the cascade a relayed message sets off.
- **Delegation and approvals** (`Delegation`, `Approvals`): state machines over a table, with an
  audit log, admission limits and two ways to expire.
- **Slack text and socket** (`Mrkdwn`, `MrkdwnScan`, `MrkdwnTheorems`, `MrkdwnLines`, `MrkdwnLinks`,
  `Socket`, `SocketFrames`): the Markdown translation and the Socket Mode pump.

What the code does not determine (a turn's result, which statement of a transaction fails, what a
dial or a read answers, when a worker finishes, heartbeats and timeouts, what other processes do in
between) is an argument: an event of a run, or a script a method consumes. Every induction is
written out; each lemma carries `{:induction false}`. A loop is proved against a function that
specifies it; what that function means is then said of the inputs and the result alone
(`Session.EnqueueMeans`, `Migrations.FailsIff`, `RelayMessages.CascadeIsItsMessages` and others).

## What the proofs found

- A turn retried with the same idempotency key returns, when it returns, only the part of its batch
  that was not delivered before the call. The reply is then the whole batch if and only if none of
  it had been delivered (`ExchangeTurn.TurnIsWholeIffNoneDelivered`), as it always is for an unkeyed
  turn; `ExchangeTurn.KeyedRetryReturnsPart` is a run that returns half. The doc comment at
  `crates/assistant-host/src/run.rs:512-516` promises only that the row is reused.
- While container starts read their processed set, a turn cannot return at all when its batch had
  been delivered in full before the call, or when its row is a `schedule-meta` row, which the
  container never answers: every such call ends in an error. Otherwise it can
  (`ExchangeReturn.TurnCanReturnIff`).
- A container start whose read of the processed set failed keeps going with an empty set
  (`shim/src/index.js:78-82`). That is harmless if and only if nothing has been acked yet
  (`ExchangeTheorems.UnseededSafeIffNoAcks`).
- The scheduler consults an item's gate before the in-flight guard, so an occurrence re-claimed
  while its background turn still runs can be finalised by the skip and again by the drain
  (`ServeLoop.SkipFinalisesRunningTurn`). When only unfinished occurrences are claimed, an
  occurrence is finalised at most once if and only if the sweep never finalises it itself while its
  turn is in flight (`ServeLoop.FinalisedOnceIffNeverSettledInFlight`).
- Stripping one relay prefix undoes one wrap, for every agent and session, if and only if no
  agent's name begins with another's and a dash
  (`Conversation.PeelUndoesEveryWrapIffNoClash`); with such a clash a hop can lose its root
  (`Conversation.ClashLosesRoot`). Stable roots need less. Every id keeps its root over relays if
  and only if what each longer name adds is itself relay prefixes
  (`Conversation.RootSurvivesRelaysIff`); the sessions routing makes, which wrap roots only, are
  stable if and only if each agent's own prefix peels away
  (`Conversation.HopSessionsAreStableIff`).
- `start_job` inserts whatever status it is given. A job inserted terminal never gets an end stamp
  or a Completed event (`Delegation.TerminalStartUnbalances`); the books balance if and only if every
  accepted start was in flight (`Delegation.BooksBalanceIffStartsInFlight`).
- The emphasis passes run over rendered links too, so `[a](x__y__z)` is sent as `<x*y*z|a>`
  (`MrkdwnLinks.EmphasisAltersUrl`). The links stand verbatim if and only if no pass replaces a
  delimiter inside one (`MrkdwnLinks.LinksVerbatimIff`).
- A `RecentlySeen` record of capacity 0 still holds one key; it stays within its capacity if and
  only if that is positive (`RecentlySeen.SizeWithinCapacityIff`).

## Model

| member | source | states |
|---|---|---|
| Session.SessionDb.EnqueueInboundKeyed | crates/assistant-session/src/session.rs:142-176 | a key some row carries writes nothing and gives back the seq of a row with that key; otherwise one row with the message and the key is appended at a seq above all others |
| Session.SessionDb.UpsertInboundMeta | crates/assistant-session/src/session.rs:185-222 | a known key's row takes the new content and metadata and keeps its seq, key, sender and thread; otherwise one row is appended, without a thread |
| Session.EnqueueMeans | crates/assistant-session/src/session.rs:142-176 | the same of any tables: the returned seq is that of a row with the key; a carried key changes nothing; else exactly one row is new |
| Session.UpsertMeans | crates/assistant-session/src/session.rs:185-222 | exactly the one row of the key is rewritten, in content and metadata only, or one is appended |
| Session.SessionDb.MarkDelivered | crates/assistant-session/src/session.rs:263-273 | the seq joins the delivered set, nothing else changes |
| Session.SessionDb.MaxDeliveredSeq | crates/assistant-session/src/session.rs:277-283 | the greatest delivered seq, 0 when there is none |
| Session.SessionDb.EmitBatch | shim/src/session.js:146-186 | on success the rows take the next consecutive odd seqs and carry the ack's in_seq; on a fault at any statement the tables are untouched; an empty batch writes nothing |
| Session.NextContinues | crates/assistant-session/src/session.rs:110-126 | a table numbered first, first + 2, ... is continued by the MAX + 2 rule |
| Turn.BatchOf | shim/src/index.js:150-176 | a turn's batch is never empty |
| Turn.BuildBatch | shim/src/index.js:150-176 | the pushes build exactly the specified rows in the specified order |
| Turn.BatchHoldsResult | shim/src/index.js:150-176 | per kind, the bodies of that kind's rows are exactly that part of the result, in order; there is a text row iff there is text or nothing else |
| Turn.TextIsLast | shim/src/index.js:150-176 | a text that is not empty is the last row; a silent turn emits one empty text |
| Turn.KindsInOrder | shim/src/index.js:150-176 | the kinds come in one fixed order |
| ExchangeInvariant.StepKeepsCore | shim/src/index.js:78-190 | every step of host, container or another writer keeps the logs, snapshots, deliveries and returned rows consistent, a start that could not read its processed set included |
| ExchangeInvariant.StepKeepsInv | shim/src/index.js:84-190 | every step but such a start also keeps one batch per inbound row and a runner that knows every ack |
| ExchangeInvariant.RunKeepsInv | shim/src/index.js:75-97 | the invariant holds along every run whose container starts were seeded |
| ExchangeInvariant.EmitAppends | shim/src/session.js:157-176 | a commit appends one row per draft, numbered on from the last odd seq and carrying the inbound seq, and its ack |
| ExchangeInvariant.TakeKeepsOnce | shim/src/index.js:96-187 | handling one row of the snapshot keeps one batch per inbound row, whatever the turn and the emit do |
| ExchangeTheorems.OutboundLogAlways | shim/src/session.js:146-186 | over every run at all: outbound seqs are 1, 3, 5, ...; an inbound seq is acked iff some outbound row carries it; only turn rows are answered |
| ExchangeTheorems.ExactlyOnceTurns | shim/src/session.js:146-186 | over every seeded run each inbound row has at most one committed batch, its rows are that whole batch, and it is acked iff it has one |
| ExchangeTheorems.OneRowPerKey | crates/assistant-session/src/session.rs:142-222 | over every run no two inbound rows carry one key, whether enqueued or upserted |
| ExchangeTheorems.AckedIffAnswered | shim/src/session.js:163-176 | an inbound seq is acked exactly when some outbound row carries it |
| ExchangeTheorems.LogsOnlyGrow | shim/src/session.js:168-177 | commits, outbound rows and returned rows are only ever appended, on any run |
| ExchangeTheorems.RestartCatchesUp | shim/src/index.js:75-97 | from any reachable stopped state one seeded restart and one clean pass leave exactly the turn rows answered |
| ExchangeTheorems.UnseededSafeIffNoAcks | shim/src/index.js:78-82 | a start that could not read the processed set is safe for every continuation iff nothing was acked |
| ExchangeTheorems.UnseededAnswersTwice | shim/src/index.js:78-82 | with an ack on record, such a start can answer that row a second time |
| ExchangeTheorems.GapFreeDelivery | crates/assistant-host/src/run.rs:559-593 | over every run the delivered set is the outbound rows up to the watermark, and returned rows strictly increase, so none is returned twice |
| ExchangeTheorems.WatermarkNeverFalls | crates/assistant-host/src/run.rs:253-273 | neither crashes nor restarts lower the stored watermark |
| ExchangeTurn.TurnReturnsUndelivered | crates/assistant-host/src/run.rs:540-593 | a turn's reply is what is left of the one batch committed for its row after the part delivered before the call |
| ExchangeTurn.TurnIsWholeIffNoneDelivered | crates/assistant-host/src/run.rs:512-593 | the reply is the complete batch iff none of it was delivered before the call |
| ExchangeTurn.UnkeyedTurnIsWhole | crates/assistant-host/src/run.rs:504-593 | an unkeyed turn returns exactly its complete batch, backlog replies or not |
| ExchangeTurn.TurnReturnsWholeBatches | crates/assistant-host/src/run.rs:559-593 | over every run of a turn, seeded or not, the reply completes whole batches of its own row |
| ExchangeTurn.DeliveredKeyNeverReturns | crates/assistant-host/src/run.rs:540-602 | a keyed retry whose batch was entirely delivered never reaches a return |
| ExchangeReturn.TurnCanReturnIff | crates/assistant-host/src/run.rs:517-602 | some seeded run of a turn returns iff its row drives a turn and has no batch yet or one that was not delivered in full before the call |
| ExchangeReturn.AnyTurnCanReturnIff | crates/assistant-host/src/run.rs:517-602 | when container starts may be unseeded, some run of a turn returns iff its row drives a turn |
| ExchangeReturn.UnkeyedCanReturnIff | crates/assistant-host/src/run.rs:504-602 | an unkeyed turn can return iff its sender is not the schedule-meta one |
| ExchangeTurn.KeyedRetryReturnsPart | crates/assistant-host/src/run.rs:559-593 | a concrete run whose keyed retry returns only the second of two rows |
| Runner.Container.Boot | shim/src/index.js:72-82 | a new life starts with the acked seqs handled, or with none if the read failed |
| Runner.Container.Take | shim/src/index.js:96-187 | one row of the snapshot: a handled one is skipped, a meta row noted, any other gets its batch committed and only then is handled; it performs exactly the step Take |
| Runner.Container.Tick | shim/src/index.js:84-190 | one tick is a poll and one Take per row; when no emit fails every row of the snapshot ends up handled |
| Host.RetryTransient | crates/assistant-host/src/run.rs:664-675 | at most five attempts, stopping at the first that is not transient, whose outcome stands |
| Host.SessionHost.EnsureStarted | crates/assistant-host/src/run.rs:253-273 | succeeds iff already started or both the set-up and the watermark read settle as done; then the watermark is the persisted one; on failure nothing in memory changed |
| Host.SessionHost.MarkOne | crates/assistant-host/src/run.rs:577-580 | a row is marked and the watermark advanced, or neither, as one Mark step |
| Host.SessionHost.MarkAll | crates/assistant-host/src/run.rs:573-580 | marks a prefix of the new rows, all of them exactly when it succeeds |
| Host.SessionHost.PollOnce | crates/assistant-host/src/run.rs:535-602 | one poll is Snapshot and Mark steps among others' steps; it dies iff the container is stale, fails iff the read or a mark does, answers with the rows of this turn iff some are among those marked, and otherwise times out iff expired |
| Host.SessionHost.RunTurnKeyed | crates/assistant-host/src/run.rs:517-602 | every outcome is fixed by the script and the tables: the session fails to open, the spawn is refused, or the first poll that is stale, fails, answers or expires ends the turn, each iff; an Err without a failed mark leaves the delivered rows of its seq as they were; an Ok reply completes whole batches of its row, and in a seeded run is the undelivered rest of the one batch committed for it |
| HostPolls.PollCases | crates/assistant-host/src/run.rs:535-602 | exactly one of the ends applies to a poll, or the turn goes on |
| HostPolls.EndsAtOnce | crates/assistant-host/src/run.rs:535-602 | the first poll reached that ends the turn decides its outcome, whatever the later ones hold |
| Host.UnansweredKeepsDelivered | crates/assistant-host/src/run.rs:559-602 | while a turn is still waiting, the delivered rows of its own seq are those delivered before the call |
| Host.ReplyIsRest | crates/assistant-host/src/run.rs:559-593 | the poll that returns hands back exactly the rest of the committed batch |
| History.BuildHistory | shim/src/session.js:227-255 | the two filtering passes and the in-place sort produce the specified merge |
| HistoryEntries.EntriesComeFromRows | shim/src/session.js:227-255 | each user entry occurs once per earlier inbound row of the thread, not the scheduler's, with that seq and content; each assistant entry once per text reply to an earlier seq, with a thread asked for only to such a row; nothing else occurs |
| HistoryEntries.EntriesInOrder | shim/src/session.js:253-253 | entries ascend in seq, and no reply stands before a user entry of its seq |
| HistoryEntries.EntriesInTableOrder | shim/src/session.js:227-255 | entries of one seq and role stand as their rows stand in the table |
| History.HistoryInterleaves | shim/src/session.js:221-255 | when replies name turn rows, history is each included inbound row in seq order followed at once by its own text replies, whatever the outbound seqs are |
| History.ReachableTablesInterleave | shim/src/session.js:227-255 | every table state a seeded exchange run reaches satisfies that condition |
| StableSort.SortIsStable | shim/src/session.js:253-253 | the sort is ascending and reorders no class of equal keys |
| StableSort.SortedUnique | shim/src/session.js:253-253 | ascending order with unreordered classes determines the result |
| CycleSearch.Visit | crates/assistant-agent-graph/src/routing.rs:133-154 | the search below one node finds a cycle reachable from the root of the walk, or leaves the node done with the done set closed and cycle-free |
| CycleSearch.FirstCycleNode | crates/assistant-core/src/validate.rs:266-301 | returns the least node from which a cycle is reachable, or None when there is none |
| CycleSearch.AcyclicIffNoneReachable | crates/assistant-agent-graph/src/routing.rs:109-118 | no node reaches a cycle iff the graph has none |
| Routing.A2aAcl.FirstCycleNode | crates/assistant-agent-graph/src/routing.rs:118-163 | None iff the edge set has no directed cycle, else the least node that reaches one, however the hash set is enumerated |
| Routing.A2aAcl.IsAcyclic | crates/assistant-agent-graph/src/routing.rs:109-114 | true iff there is no directed cycle |
| Routing.A2aAcl.AuthorizeA2a | crates/assistant-agent-graph/src/routing.rs:169-181 | accepts iff the edge is listed and the list acyclic; a cyclic list is reported before a missing edge, naming the least offending node |
| Routing.HandoffChainsTerminate | crates/assistant-agent-graph/src/routing.rs:109-114 | a chain whose every hop is accepted repeats no agent and has fewer hops than there are agents |
| Validate.ValidateModuleGraph | crates/assistant-core/src/validate.rs:70-115 | appends the duplicate, missing-dependency and cycle diagnostics, in that order |
| Validate.ModuleGraphCleanIff | crates/assistant-core/src/validate.rs:70-115 | nothing is reported iff ids are distinct, dependencies declared and there is no cycle |
| ValidateReports.DependencyEdgesAre | crates/assistant-core/src/validate.rs:96-109 | the graph searched has an edge exactly from the last declaration of an id to each declared dependency of it |
| ValidateReports.DuplicatesReported | crates/assistant-core/src/validate.rs:71-79 | a duplicate is reported exactly for each id a later declaration repeats |
| ValidateReports.DuplicatesCounted | crates/assistant-core/src/validate.rs:71-79 | once per repetition |
| ValidateReports.MissingReported | crates/assistant-core/src/validate.rs:81-94 | exactly the dependencies no declaration has are reported, with their dependents |
| Validate.ValidatePromptFragments | crates/assistant-core/src/validate.rs:141-214 | appends the local diagnostics, then the cycle report |
| Validate.PromptCleanIff | crates/assistant-core/src/validate.rs:141-214 | nothing is reported iff ids are distinct, owners known and every dependency has a strictly smaller order |
| ValidateReports.FragmentsReported | crates/assistant-core/src/validate.rs:162-192 | exactly the unknown owners, the unknown dependencies and the orders that do not descend are reported |
| ValidateReports.OrderIsLast | crates/assistant-core/src/validate.rs:156-160 | the order that counts for an id is its last declaration's |
| Validate.CycleComesWithOrderingViolation | crates/assistant-core/src/validate.rs:168-214 | a dependency cycle always comes with an ordering violation, even with duplicate ids |
| Fragments.RenderPrompt | crates/assistant-agent-protocol/src/fragment.rs:119-133 | the prompt is the bodies in render order, the first at its start, each next one behind exactly one blank line, nothing behind the last |
| Fragments.OffsetsAscend | crates/assistant-agent-protocol/src/fragment.rs:127-132 | in such a text an earlier body ends before a later one begins |
| Fragments.FirstOccurrenceWins | crates/assistant-agent-protocol/src/fragment.rs:119-133 | of several fragments with one id the first is rendered |
| Fragments.TiesKeepInputOrder | crates/assistant-agent-protocol/src/fragment.rs:119-133 | fragments of one order keep their input order |
| Fragments.RendersEachIdOnce | crates/assistant-agent-protocol/src/fragment.rs:119-133 | every id is rendered exactly once, in ascending order |
| Fragments.OrderedUniqueRefs | crates/assistant-agent-protocol/src/manifest.rs:134-149 | the manifest lists the fragments in the order the prompt used |
| Fragments.CleanPromptIsTopological | crates/assistant-core/src/validate.rs:141-214 | a clean report means any input order renders each declared id once, every dependency before its dependents |
| Fragments.CleanPromptTextIsTopological | crates/assistant-core/src/validate.rs:141-214 | the same of the text: each dependency's body ends in the prompt before its dependent's begins |
| Migrations.MigrationSet.Ordered | crates/assistant-db/src/migrate.rs:79-106 | succeeds iff every module is known and no key repeats, and then returns a permutation strictly ascending in (module rank, version); an error names the first offender in registration order, an unknown module before a repeated key |
| Migrations.SortIsStrict | crates/assistant-db/src/migrate.rs:79-106 | distinct keys over known modules sort strictly |
| Migrations.Database.Apply | crates/assistant-db/src/migrate.rs:199-250 | a run that is not killed ends as the fold over the ordered list says, and if Ok every listed migration is recorded with the digest of its name, a zero byte and its SQL; a killed one has handled a prefix of the list, each migration wholly or not at all |
| Migrations.FailsIff | crates/assistant-db/src/migrate.rs:203-247 | for a list that repeats no key: a checksum mismatch iff some migration was recorded with another checksum and all before it were recorded alike or executed, naming that migration and both checksums; an SQL error iff the SQL of an unrecorded one is the first thing to fail |
| Migrations.SuccessVerifiesChecksums | crates/assistant-db/src/migrate.rs:205-246 | after a success every listed migration is recorded with the digest of its own name and SQL |
| Migrations.SuccessData | crates/assistant-db/src/migrate.rs:228-246 | and the data is what executing the unrecorded ones in list order gives |
| Migrations.ResumeEndsAlike | crates/assistant-db/src/migrate.rs:203-249 | a run resumed after any prefix ends with the same database and outcome as an uninterrupted one |
| Migrations.InterruptedHistoryEndsAlike | crates/assistant-db/src/migrate.rs:199-250 | so does any number of cut-off runs followed by a full one |
| Migrations.SuccessAppliesPending | crates/assistant-db/src/migrate.rs:228-246 | a successful run executes exactly the pending SQL, once each and in order, and records each checksum |
| Migrations.ReportSplitsList | crates/assistant-db/src/migrate.rs:203-249 | the report splits the list into applied and skipped |
| Migrations.RecordedStays | crates/assistant-db/src/migrate.rs:206-227 | a recorded row is never altered or dropped |
| Migrations.SecondRunChangesNothing | crates/assistant-db/src/migrate.rs:206-227 | after a success another run applies nothing and changes nothing |
| ServeLoop.RunKeepsInv | crates/assistant-host/src/slack.rs:656-704 | in every interleaving the in-flight keys are those of running workers and undrained completions, none twice, and every worker is running or has reported once |
| ServeLoop.SpawnsBalanceDrains | crates/assistant-host/src/slack.rs:886-929 | per key, turns spawned equal turns drained plus one if in flight |
| ServeLoop.FinalisedOnceIffNeverSettledInFlight | crates/assistant-host/src/slack.rs:614-704 | when only unfinished occurrences are claimed and nothing is in flight, an occurrence was finalised at most once iff the sweep never finalised it itself while its turn was in flight, and never more than twice |
| ServeLoop.SpawnedIsFinalised | crates/assistant-host/src/slack.rs:886-929 | an occurrence for which a turn was spawned has been finalised once nothing is in flight |
| ServeLoop.SkipFinalisesRunningTurn | crates/assistant-host/src/slack.rs:614-662 | a concrete run, claiming only an unfinished occurrence, in which a skip and the drain both finalise one background turn |
| ServeLoop.Loop.ClaimOne | crates/assistant-host/src/slack.rs:580-736 | a worker is spawned iff the item is listed, has a session, has no gate or one that fired, names a registered agent and its key is not in flight; the sweep finalises iff the gate skipped or such an item ran inline and succeeded; nothing else changes |
| ServeLoop.ClaimMeans | crates/assistant-host/src/slack.rs:580-736 | the same of any state: which leases spawn, which are finalised, and that the rest change nothing |
| ServeLoop.Loop.SchedulerTick | crates/assistant-host/src/slack.rs:560-736 | one tick claims exactly its leases, in order |
| ServeLoop.Loop.DrainCompleted | crates/assistant-host/src/slack.rs:886-929 | drains until the channel is empty, freeing each key, while workers may still report |
| ServeLoop.Loop.Shutdown | crates/assistant-host/src/slack.rs:334-353 | after the joins and the final drain nothing is in flight and every spawned turn was drained exactly once |
| RecentlySeen.RecentlySeen.Insert | crates/assistant-host/src/slack.rs:86-101 | true iff the key is not among the last accepted ones; the queue is that window and the set its contents |
| RecentlySeen.WindowMeans | crates/assistant-host/src/slack.rs:86-101 | a key is in the window iff it is among that many last accepted ones |
| RecentlySeen.WindowHasNoRepeats | crates/assistant-host/src/slack.rs:71-101 | after any inserts the window holds no key twice |
| RecentlySeen.SizeWithinCapacityIff | crates/assistant-host/src/slack.rs:86-101 | after any inserts the record is within its capacity iff the capacity is positive |
| RecentlySeen.DroppedIffWithinWindow | crates/assistant-host/src/slack.rs:86-101 | a redelivery is dropped iff fewer than capacity keys were accepted since |
| Conversation.ConversationRoot | crates/assistant-host/src/slack.rs:179-192 | the loop ends and strips exactly the relay prefixes Root strips |
| Conversation.PeelMeans | crates/assistant-host/src/slack.rs:179-192 | a prefix is `a2a-`, a listed name and a dash, and of several names that fit the first listed is taken |
| Conversation.RootIsIdempotent | crates/assistant-host/src/slack.rs:179-192 | a root has no relay prefix left |
| Conversation.PeelUndoesEveryWrapIffNoClash | crates/assistant-host/src/slack.rs:182-190 | one peel undoes every wrap iff no agent name begins with another's and a dash |
| Conversation.RootSurvivesRelaysIff | crates/assistant-host/src/slack.rs:173-192 | any number of wraps leaves the root of every id unchanged iff, whenever one agent's name begins with another's and a dash, what it adds, with a dash, is itself relay prefixes of listed agents |
| Conversation.ClashMayKeepRoots | crates/assistant-host/src/slack.rs:182-190 | concrete clashing names that meet that condition |
| Conversation.WrappedRootsStayIff | crates/assistant-host/src/slack.rs:179-192 | wrapping keeps every root iff each agent's own prefix peels away and no name listed earlier runs on past it into a root |
| Conversation.HopSessionsAreStable | crates/assistant-host/src/slack.rs:1145-1163 | under that last condition a hop's session is its target and the original root, however long the chain |
| Conversation.HopSessionsAreStableIff | crates/assistant-host/src/slack.rs:1145-1163 | that holds for every session and chain iff the condition does |
| Conversation.HopsNeedLess | crates/assistant-host/src/slack.rs:1145-1163 | concrete names whose hop sessions are stable although some other id loses its root |
| Conversation.NoClashKeepsRoots | crates/assistant-host/src/slack.rs:173-178 | names of which none begins with another's and a dash meet both conditions |
| Conversation.ClashLosesRoot | crates/assistant-host/src/slack.rs:182-190 | a concrete clash that loses the root |
| Relay.RouteSendMessage | crates/assistant-host/src/slack.rs:1116-1297 | the recursive calls produce exactly the cascade Route defines, within the hop limit |
| RelayMessages.OneMessage | crates/assistant-host/src/slack.rs:1116-1160 | a wired message to no agent posts its text to its channel, an unwired one nothing; past hop 4 or malformed, nothing |
| RelayMessages.EveryReplyIsRouted | crates/assistant-host/src/slack.rs:1157-1297 | a turn that runs is followed by what each of its replies leads to, in order, sent from the turn's session one hop on |
| RelayMessages.CascadeIsItsMessages | crates/assistant-host/src/slack.rs:1116-1297 | over the whole reply tree: an effect occurs iff some message reached within the hop limit does it by itself |
| Relay.CascadeIsProper | crates/assistant-host/src/slack.rs:1136-1297 | when hop sessions are stable, every turn of a cascade is within the hop limit and in its target's session on the original root; every post is to no agent and comes from a Slack-wired first sender or the orchestrator |
| Relay.CascadesAreProperIff | crates/assistant-host/src/slack.rs:1136-1297 | every cascade is so iff hop sessions are stable |
| Relay.PostsComeFromTheOrchestrator | crates/assistant-host/src/slack.rs:1278-1297 | started by a specialist, every post follows an orchestrator turn of the same cascade |
| Delegation.Delegations.Start | crates/assistant-agent-graph/src/delegation.rs:87-108 | the admission checks in order, then the row and its Started event; an error writes nothing |
| Delegation.Delegations.Advance | crates/assistant-agent-graph/src/delegation.rs:110-131 | a missing job or an invalid transition writes nothing; otherwise the job has the status its event aims at, with its stamps, and, when terminal, one Completed event |
| Delegation.TransitionTable | crates/assistant-agent-graph/src/delegation.rs:110-131 | which events each status accepts and the status each event reaches; every other pair is refused, naming both |
| Delegation.Delegations.Create | crates/assistant-agent-graph/src/delegation.rs:66-83 | the checks in order, then the group and its Created event |
| Delegation.Delegations.RunningOrQueued | crates/assistant-agent-graph/src/store.rs:206-215 | the number of the profile's in-flight jobs, truncated to 32 bits |
| Delegation.RunConservesAndAdmits | crates/assistant-agent-graph/src/delegation.rs:87-131 | over every run: in-flight plus born-terminal jobs equal Started minus Completed events, groups equal Created events, both within the profile's limits, and the 32-bit count is exact |
| Delegation.BooksBalanceIffStartsInFlight | crates/assistant-agent-graph/src/store.rs:162-181 | in-flight equals Started minus Completed for every profile, and ended_at is set exactly on terminal jobs, iff every accepted start was in flight |
| Delegation.AtMostOneCompleted | crates/assistant-agent-graph/src/delegation.rs:110-131 | over every run a job has at most one Completed event, and has it exactly when its end was stamped |
| Delegation.CompletedIffTerminal | crates/assistant-agent-graph/src/delegation.rs:110-131 | when every accepted start was in flight, exactly when it is terminal |
| Delegation.TerminalStartUnbalances | crates/assistant-agent-graph/src/delegation.rs:87-108 | a concrete run whose one start is of a succeeded job, and whose books do not balance |
| Delegation.StartStampFollowsStatus | crates/assistant-agent-graph/src/store.rs:160-181 | when every accepted start was queued, started_at is unset while a job is queued and set once it runs or completes |
| Approvals.ApprovalStore.RequestApproval | crates/assistant-approvals/src/store.rs:40-60 | a pending row is appended and its id returned |
| Approvals.ApprovalStore.DecideApproval | crates/assistant-approvals/src/store.rs:94-123 | the checks in order; a late decision expires the row and errs; an accepted one leaves it granted iff it was a grant and denied otherwise, all other rows as they were |
| Approvals.ApprovalStore.SweepExpired | crates/assistant-approvals/src/store.rs:125-137 | expires exactly the due rows, returns what pending_past_expiry was, and leaves it zero |
| Approvals.ApprovalStore.CountPendingPastExpiry | crates/assistant-approvals/src/store.rs:139-148 | the number of pending rows at or past their expiry |
| Approvals.SweepsCompose | crates/assistant-approvals/src/store.rs:125-137 | two sweeps are one at the later time and count each row once between them |
| Approvals.DecideAndSweepCommuteIff | crates/assistant-approvals/src/store.rs:94-137 | a decision and a sweep, at any two times, commute on the table iff the sweep's time is not past the expiry of the approval being settled; unreadable rows included |
| Approvals.LazyAndEagerExpiryAgree | crates/assistant-approvals/src/store.rs:94-137 | with one clock reading the table and the acceptance of the decision are the same in either order |
| Approvals.SettledIsFinal | crates/assistant-approvals/src/store.rs:94-137 | a status that is not pending never changes, and nothing but the status ever does |
| Approvals.LeavesPendingOnce | crates/assistant-approvals/src/store.rs:94-137 | no two steps of a run change one approval, whenever it was requested |
| Approvals.GrantedOnlyByAdminInTime | crates/assistant-approvals/src/store.rs:94-123 | an approval becomes granted only by an admin's own grant of it, strictly before its expiry |
| MrkdwnScan.EscapeText | crates/assistant-channel-slack/src/mrkdwn.rs:17-28 | the loop computes Escape |
| MrkdwnScan.ConvertLinks | crates/assistant-channel-slack/src/mrkdwn.rs:171-200 | the scan with its early exits takes a clean link at every place one begins, reading from the left, and copies the rest |
| MrkdwnScan.ConvertPairs | crates/assistant-channel-slack/src/mrkdwn.rs:205-223 | splitting and gluing replaces exactly the first even number of delimiters |
| MrkdwnScan.ConvertInline | crates/assistant-channel-slack/src/mrkdwn.rs:139-156 | code spans are escaped only, an unmatched backtick is prose |
| MrkdwnScan.RenderBody | crates/assistant-channel-slack/src/mrkdwn.rs:44-63 | the line loop computes ToMrkdwn |
| MrkdwnLines.OutputLine | crates/assistant-channel-slack/src/mrkdwn.rs:44-63 | line by line: a fence line becomes a bare fence; after an odd number of fence lines a line is escaped only; any other is converted |
| MrkdwnLines.HeadingIsBold | crates/assistant-channel-slack/src/mrkdwn.rs:84-112 | one to six hashes, a space and a text become the text in stars behind the same indent, without trailing space |
| MrkdwnLines.BulletIsKept | crates/assistant-channel-slack/src/mrkdwn.rs:84-135 | a bullet mark, a space and a text become a bullet and the text, unless the line is a thematic break |
| MrkdwnLines.BreakIffRule | crates/assistant-channel-slack/src/mrkdwn.rs:115-122 | a thematic break is a line with three or more of one of the three marks and nothing else but space |
| MrkdwnLines.RuleIsDropped | crates/assistant-channel-slack/src/mrkdwn.rs:84-94 | such a line becomes an empty one |
| MrkdwnLines.OtherLinesAreProse | crates/assistant-channel-slack/src/mrkdwn.rs:84-135 | a line of none of these forms is converted as it stands |
| MrkdwnLines.CodeSpanIsVerbatim | crates/assistant-channel-slack/src/mrkdwn.rs:139-156 | a code span is escaped and otherwise kept, what stands before it is prose |
| MrkdwnLines.LoneBacktickIsProse | crates/assistant-channel-slack/src/mrkdwn.rs:139-156 | with at most one backtick the text is all prose |
| MrkdwnLines.EscapeSpells | crates/assistant-channel-slack/src/mrkdwn.rs:17-28 | the three reserved characters are spelled out and every other kept |
| MrkdwnLines.FirstEvenNumberIsReplaced | crates/assistant-channel-slack/src/mrkdwn.rs:205-223 | of the doubled delimiters a text is cut at, the first even number become single marks and a last odd one stays; parts are untouched |
| MrkdwnLines.EveryTextIsCut | crates/assistant-channel-slack/src/mrkdwn.rs:205-223 | every text can be cut so |
| MrkdwnLines.EmphasisIsTranslated | crates/assistant-channel-slack/src/mrkdwn.rs:161-167 | around and inside plain text, bold and underscore pairs become stars, strike pairs single tildes; plain text alone is kept |
| MrkdwnLines.LinkIffWritten | crates/assistant-channel-slack/src/mrkdwn.rs:171-200 | a link is taken at a place iff one is written there, with the text and url written |
| MrkdwnTheorems.UnescapeUndoesEscape | crates/assistant-channel-slack/src/mrkdwn.rs:17-28 | reading the entities gives back the text |
| MrkdwnTheorems.PiecesSpellTheText | crates/assistant-channel-slack/src/mrkdwn.rs:171-200 | the pieces rendered spell the input: a link appears only where one was written |
| MrkdwnTheorems.BracketsAreLinks | crates/assistant-channel-slack/src/mrkdwn.rs:161-200 | in escaped text the output's angle brackets are one pair per converted link, and no entity is cut |
| MrkdwnTheorems.PairsKeepText | crates/assistant-channel-slack/src/mrkdwn.rs:205-223 | replacing pairs touches only the markers |
| MrkdwnTheorems.PairsShorten | crates/assistant-channel-slack/src/mrkdwn.rs:205-223 | each replaced delimiter shortens the text by one |
| MrkdwnTheorems.ProseIsWellFormed | crates/assistant-channel-slack/src/mrkdwn.rs:161-167 | the three passes of emphasis keep brackets and entities |
| MrkdwnTheorems.OutputIsWellFormed | crates/assistant-channel-slack/src/mrkdwn.rs:44-63 | for every body the brackets strictly alternate, one pair per converted link, and every & begins an entity |
| MrkdwnLinks.WrittenLinkIsConverted | crates/assistant-channel-slack/src/mrkdwn.rs:171-200 | a link with a plain text and url is rendered, whatever follows it |
| MrkdwnLinks.LinksVerbatimIff | crates/assistant-channel-slack/src/mrkdwn.rs:161-167 | the rendered links stand verbatim in the output iff no emphasis pass replaces a delimiter inside one |
| MrkdwnLinks.EmphasisAltersUrl | crates/assistant-channel-slack/src/mrkdwn.rs:161-223 | a url with two doubled underscores comes out with two stars in their place |
| MrkdwnLinks.EmphasisAltersThisUrl | crates/assistant-channel-slack/src/mrkdwn.rs:161-223 | the instance `[a](x__y__z)` |
| MrkdwnTheorems.LinesArePreserved | crates/assistant-channel-slack/src/mrkdwn.rs:44-63 | the output has the body's lines, converted one by one |
| MrkdwnTheorems.FencedLinesSurvive | crates/assistant-channel-slack/src/mrkdwn.rs:47-60 | unescaping an output line inside a fence gives back the input line |
| Socket.Pump | crates/assistant-channel-slack/src/socket.rs:190-246 | the loop performs exactly the acts of the reads up to the one that ends the connection |
| Socket.RunListener | crates/assistant-channel-slack/src/socket.rs:168-186 | the listener performs exactly the script's acts, and errs iff the script gives up |
| Socket.TraceIsGood | crates/assistant-channel-slack/src/socket.rs:157-246 | for every script the sink receives, in read order, exactly the normalised events of acknowledged Event frames, each right after its own ack; a tick follows each Idle read and nothing else |
| Socket.PumpReads | crates/assistant-channel-slack/src/socket.rs:190-246 | a connection is read up to and including the first read that ends it |
| SocketFrames.ActsOfRead | crates/assistant-channel-slack/src/socket.rs:190-246 | from the raw envelope: which frames are acknowledged, which are routed, and that only an idle read ticks |
| SocketFrames.ReadUpToTheEnd | crates/assistant-channel-slack/src/socket.rs:190-246 | a disconnect frame, a lost or refused read or a failed acknowledgement is the last read of its connection, and the only thing that is |
| SocketFrames.AcksAreInPlace | crates/assistant-channel-slack/src/socket.rs:190-246 | over every script each acknowledgement stands right behind the frame it answers, and every frame that is to be acknowledged has one |
| SocketFrames.DialsAreMade | crates/assistant-channel-slack/src/socket.rs:157-186 | dials are made in order up to the first during which something fatal happens, or all of them |
| Socket.ErrorIffFatal | crates/assistant-channel-slack/src/socket.rs:157-186 | an error is returned iff a dial, a read or an ack was Fatal |

## Left out

- Docker, curl, the gateway, the websocket dial, the node sidecar and the model calls: foreign processes; their outcomes are inputs.
- SQLite itself: tables are sequences, sets and maps with atomic transactions; a transaction whose commit succeeded but was reported as failed (and then retried) is not modelled, nor are storage faults between two statements outside a transaction.
- Clocks, heartbeats, sleeps and timeouts: a script says when a poll gives up.
- Schema-version checks, timestamps, `claimed_by`, `container_state` and run ids; an unsupported schema version is one of the faults of `EmitBatch`.
- ExchangeTheorems.ExactlyOnceTurns: assumes seeded starts, one container and one host per session, and that nothing deletes acks (`cleanup_stale_acks` does; the run-loop does not call it); what an unseeded start can do is `UnseededSafeIffNoAcks`.
- History.HistoryInterleaves: assumes every text reply names a turn row; rows from before schema version 3 are in `BuildHistory` but not in this statement.
- Host.SessionHost.RunTurnKeyed: that an Ok reply is one batch only is promised for runs whose container starts were seeded; memory and schedule context added to the inbound metadata is part of the message argument.
- The unused single-row `emit` of the container.
- Migrations.Database.Apply: the checksum is an arbitrary function of name, zero byte and SQL; `ensure_meta_tables`, the timestamps and the version record are not modelled; SQL that edits the registry itself is excluded.
- Validate.ValidateModuleGraph: diagnostics carry their code and the ids involved, not their wording; contract presence, version compatibility and enabled-module checks are single-branch and left out.
- ServeLoop.RunKeepsInv: workers that panic never report and are excluded; which occurrences are claimed, and when, is an arbitrary input.
- ServeLoop.FinalisedOnceIffNeverSettledInFlight: counts finalise attempts; the transaction of an attempt may fail in the code, which leaves the occurrence claimable again, and such runs are excluded by its condition on claims.
- Relay.RouteSendMessage: a Turn in the trace is an attempt (deriving the session or the turn itself may fail); the usage and schedule replies of a turn have no effect on routing and are left out.
- Delegation.RunConservesAndAdmits: one registry for the whole run; budgets, run links, cancellation requests and handoff delivery are left out.
- Approval kinds, the free-form questions of the same crate and the audit events of approvals.
- Mrkdwn: text is a sequence of characters, so byte offsets are character offsets; `render` for cards and questions only concatenates.
- Socket.RunListener: JSON parsing yields an optional envelope; event normalisation is an arbitrary function; the script ends where `stop` was seen true.
- Setup, readiness, usage reports, web UI, prompt wording and serialisation shapes.
