# Verification of the stateful cores of Oh My Subagents

This project models, in Dafny, the parts of the repository whose correctness
depends on many steps in any order, and the algorithmic cores beside them, and
proves what they promise.

* **Operator conversations** (`OperatorProtocol`, `OperatorInvariant`,
  `OperatorRecords`, `OperatorSystem`, `OperatorTurns`, `OperatorReplies`,
  `OperatorService`, `DuplicateWait`, `EntryPages`). Workers claim, complete,
  interrupt and repair turns on a conversation row with an append-only log. Each
  committed block is a transaction function; a system is a store with any number
  of workers, a run any interleaving of their steps. `OperatorRecords` says what
  each transaction writes, `OperatorReplies` what stands behind a user's entry
  over every run.
* **Task events** (`TaskEvents`, `TaskEventPages`). A sequence allocator, a
  hash-chained log and its stored head, read through cursors.
* **Task-wide dispatch control** (`DispatchControl`). The loop of paired
  compare-and-set updates, and the pause that commits or rolls back around it.
* **Boolean SQL normal form** (`SqlScan`, `SqlTrees`, `SqlSegments`,
  `SqlTokens`, `SqlCanonical`, `SqlMisreadings`, `SqlCells`, `SqlPasses`,
  `SqlLayers`, `SqlLayerMeanings`, `SqlOutputs`, `SqlMeanings`, `SqlMinimal`,
  `SqlTexts`, `SqlOverlaps`, `SqlPairs`, `SqlMarks`, `SqlMarkedTexts`,
  `SqlExamples`). The scanners and the recursive printer that decide whether two
  CHECK constraints are the same.
* **Workflow trees and edits** (`MemberTree`, `MemberEdits`, `MemberIds`,
  `WorkflowRules`, `WorkflowEdits`, `WorkflowFields`). The tree edits are related
  to edits of the preorder listing, which determines the tree; `WorkflowFields`
  says field by field what an accepted edit stores.
* **Drafts, undo and publication** (`DraftProtocol`, `DraftInvariant`,
  `DraftRuns`, `DraftHistory`, `DraftUndo`, `DraftContents`, `StoredContents`,
  `DraftService`, `Publication`, `RegistryRuns`). Optimistic concurrency with
  ETags, single-use undo, immutable numbered revisions, and seeding under a
  provenance guard. `DraftContents` says what each transaction stores and what
  it leaves alone.
* **Schema references** (`JsonPointer`, `SchemaPaths`). Local references against
  RFC 6901, and the closure of the root over a cyclic reference graph.
* **Startup audit** (`StartupAudit`) and **provider secrets**
  (`EnvironmentText`, `ProviderEnvironment`). A guarded paging loop, and quoting
  against the posix shell reader.

`Basics`, `Sequences`, `Texts` and `Decimal` are shared by these components.

Code that updates rows, files or counters is a class whose methods are proved
equal to transaction functions; what is promised over runs is proved about
those functions. Pure code is functions and lemmas, loops are loops.

What the model takes as given: a committed block is one atomic transaction and
a failed one is rolled back; random tokens (turn ids, draft ids, ETags, receipt
ids) come from a counter and are therefore fresh; SHA-256 is a parameter, free
of collisions only where a statement says so, and a request digest is the
request itself; the data-model validation of a workflow is a parameter;
percent decoding, `isalnum` and the event cursor codec are parameters, the last
with decoding as the inverse of encoding; clocks, delays, provider results and
publication outcomes are parameters.

Five places where the code does not do what one would expect, each with the exact
condition under which it does:

* `_strip_balanced_outer_parentheses` does not skip quotes. It strips exactly
  the true outer pairs if and only if, at each layer it takes off, counting with
  and without quotes agree on the inside (`SqlPairs.StripsPairsIff`). Otherwise
  it keeps a redundant pair, as in `(')')`
  (`SqlTexts.QuotedParenthesisIsNotStripped`), or takes off parentheses that are
  no pair, as in `(a='(')@and@(b=')')` (`SqlPairs.NoPairIsStripped`).
* The splitter takes the last character of an and-marker, a bare operand `or`
  and the first character of the next marker for an or-marker. An expression is
  read as what it means if and only if no operand `or` stands directly behind an
  `and` and directly before a connective of its own layer
  (`SqlMisreadings.ReadRenderIff`). A misreading never changes the meaning of the
  canonical text, nor are two different meanings ever taken for one, and a second
  pass changes nothing (`SqlMeanings.CanonicalKeepsMeaning`,
  `SqlMeanings.CanonicalIffSameMeaning`, `SqlMeanings.CanonicalIsIdempotent`).
  It only makes redundant parentheses show: the canonical text is the one that
  all expressions of the meaning should share if and only if none are left over
  (`SqlMinimal.CanonicalPrintsIff`), which is so for some misread expressions,
  too (`SqlMinimal.PlainConjunctionStays`). `x and o r and y` is a conjunction
  that is read as a disjunction, and redundant parentheses around it show
  (`SqlExamples.ConjunctionIsMisread`, `SqlExamples.RedundantParenthesesShow`).
  Marking itself leaves no bare `or`. Whitespace is deleted after marking, so an
  operand written as the two words `o r` becomes one; through the passes that are
  modelled these are the only ones (`SqlMarkedTexts.PreparedIsReadIff`). The pass
  that drops parentheses around a single name, which is not modelled, makes one
  of `o(r)` as well.
* `_validate_secret_value` admits characters at which `splitlines` breaks. The
  secret is read back exactly if it has none of them; otherwise the file becomes
  unreadable (`ProviderEnvironment.PersistThenRead`).
* An edit leaves other members alone exactly if they are already normalized or
  a retired provider remains (`WorkflowEdits.OtherMemberUnchangedIff`).
* A turn can stay running after its worker has finished. It does if and only if
  neither its completion nor its cleanup reached the database and no startup
  repair has happened since (`OperatorTurns.EveryOutcomeSettles`); a provider
  failure with a failed cleanup is such a run
  (`OperatorTurns.CleanupFailureStrandsTheTurn`).

To check everything: `dafny verify dfyconfig.toml`.

## Model

| member | source | states |
|---|---|---|
| `OperatorSystem.StepKeeps` | src/oh_my_subagents/operator/persistence.py:60-311 | Any single claim, completion, interruption, repair, creation or worker event keeps the whole invariant: entries numbered 1..n, user and response entries strictly alternating, each key used at most once, the state fixed by the kind of the last entry (running exactly after a user entry, awaiting an answer after a question set, ready after nothing or an assistant message, interrupted or closed after an interruption), an active turn id exactly while running, and every worker's claim tied to its entry; entries are only appended, a set thread id stays, a closed row stays as it is |
| `OperatorSystem.RunKeeps` | src/oh_my_subagents/operator/persistence.py:60-311 | The same over every interleaving of any number of workers |
| `OperatorSystem.ReachableInv` | src/oh_my_subagents/operator/persistence.py:60-311 | Every store reachable from the empty one satisfies the invariant |
| `OperatorSystem.TurnHasOneResponse` | src/oh_my_subagents/operator/persistence.py:203-249 | A turn that is not active has exactly one response, directly after its user entry; an active one has none |
| `OperatorSystem.SettledTurnIsFinal` | src/oh_my_subagents/operator/service.py:168-257 | A worker whose last transaction committed has settled its turn: one response, which no later step of anybody changes or follows up |
| `OperatorSystem.EndedStaysEnded` | src/oh_my_subagents/operator/persistence.py:503-516 | Turn ids are never used again: an ended turn is never active later |
| `OperatorSystem.LateWorkerIsRefused` | src/oh_my_subagents/operator/persistence.py:216-234 | A worker with the id of an ended turn can neither complete nor interrupt; the store stays as it is |
| `OperatorSystem.RepairEndsEveryTurn` | src/oh_my_subagents/operator/persistence.py:272-311 | Startup repair ends every turn there is, whatever happened to it before, with its one response |
| `OperatorSystem.DuplicateTestIsExact` | src/oh_my_subagents/operator/persistence.py:441-445 | "Running, and the latest sequence is the duplicate's" holds exactly while the duplicate's own turn is active |
| `OperatorSystem.DuplicateClaim` | src/oh_my_subagents/operator/persistence.py:87-95 | A message whose key already opened a turn changes nothing; with the same text it names the sequence to wait for exactly if that turn is active, with another request it is an idempotency conflict |
| `OperatorSystem.DuplicateAnswerClaim` | src/oh_my_subagents/operator/persistence.py:153-163 | The same for answers, compared as question set and answers |
| `OperatorSystem.KeyOwnsOneEntry` | src/oh_my_subagents/operator/persistence.py:377-390 | An idempotency key of a conversation owns one entry, in this and every later state |
| `OperatorInvariant.CompleteKeeps` | src/oh_my_subagents/operator/persistence.py:212-245 | Completing a running row keeps the row's invariant: one more entry behind the old ones, and the state that this entry calls for |
| `OperatorInvariant.InterruptKeeps` | src/oh_my_subagents/operator/persistence.py:492-527 | Interrupting a running row keeps the row's invariant: one more entry behind the old ones, and the state that this entry calls for |
| `OperatorInvariant.ClaimMessageOpens` | src/oh_my_subagents/operator/persistence.py:60-107 | A successful message claim appends exactly the claimed user entry and makes its fresh turn the active one |
| `OperatorInvariant.ClaimAnswerOpens` | src/oh_my_subagents/operator/persistence.py:125-183 | The same for an answer claim |
| `OperatorInvariant.ClaimAnswerMatches` | src/oh_my_subagents/operator/persistence.py:460-480 | In a row that waits for an answer the last entry is a question set, and an answer claim succeeds exactly if it names that set and fits its questions |
| `OperatorInvariant.RepairKeeps` | src/oh_my_subagents/operator/persistence.py:272-311 | After repair no row is running, and all rows keep their invariant |
| `OperatorInvariant.FindKeyUnique` | src/oh_my_subagents/operator/persistence.py:414-419 | Looking an idempotency key up finds the one entry that owns it |
| `OperatorRecords.CompletionRecords` | src/oh_my_subagents/operator/persistence.py:203-249 | A completion takes effect exactly if its claim still owns the running turn. Then the row names the thread of the outcome, is ready or waits for an answer by the kind of result, and has exactly one entry more: numbered next, without a request, holding the outcome's text, or its questions under an id that no token had before. No other row changes; refused, nothing does |
| `OperatorRecords.InterruptionRecords` | src/oh_my_subagents/operator/persistence.py:483-531 | An interruption of an owned claim adds one entry with its category, closes the row exactly if the thread is gone, stores a reported thread and keeps a known one; refused, it changes nothing |
| `OperatorRecords.RepairRecords` | src/oh_my_subagents/operator/persistence.py:272-311 | Repair adds one startup-repair interruption to every running row, keeps its thread, and leaves every other row as it is |
| `OperatorRecords.MessageClaimRecords` | src/oh_my_subagents/operator/persistence.py:60-122 | A message is claimed exactly if the row is there, idle, ready or interrupted, and has no entry of that key. Then the entry holds the text with key and digest, the row runs the fresh turn, and the worker gets the same text with the stored thread; refused, nothing is written |
| `OperatorRecords.AnswerClaimRecords` | src/oh_my_subagents/operator/persistence.py:125-200 | Answers are claimed exactly if the row waits for them under a new key and they answer the question set at the end of its log. Then the submitted answers are stored, and the worker gets their accepted forms with the stored thread; refused, nothing is written |
| `OperatorRecords.ResolvesIff` | src/oh_my_subagents/operator/persistence.py:326-354 | An answer resolves to one accepted form: the label of the first option with the id, the custom text, or an allowed skip, each with the question's text |
| `OperatorRecords.ClaimsAreRefusedFor` | src/oh_my_subagents/operator/persistence.py:407-480 | What a refused request is told: no such conversation, a busy one, a key used for another request, the running or the finished duplicate; and of answers, another question set or answers that do not fit |
| `OperatorRecords.CreationRecords` | src/oh_my_subagents/operator/conversation_reads.py:47-85 | A new key creates a ready, empty conversation without a thread under a fresh id; a known key returns the old one and writes nothing |
| `OperatorTurns.PhaseOfInterleaving` | src/oh_my_subagents/operator/service.py:168-239 | Where a worker stands depends on its own steps only, whatever other workers do in between |
| `OperatorTurns.StepEndsIff` | src/oh_my_subagents/operator/persistence.py:203-311 | One step of anybody ends an active turn exactly if it is startup repair or the committed completion or cleanup of the turn's own worker |
| `OperatorTurns.RunEndsIff` | src/oh_my_subagents/operator/persistence.py:203-311 | The same for a run of any length |
| `OperatorTurns.EveryOutcomeSettles` | src/oh_my_subagents/operator/service.py:151-257 | For every provider outcome (result, changed thread, thread gone, exception, cancellation), a cancelled admission, and every way the completion can end (committed, failed before or after its commit, cancelled), in every interleaving and ever after: the turn is still running exactly if neither its completion nor its cleanup reached the database and no startup repair happened; otherwise it has its one response, directly after its user entry |
| `OperatorTurns.CleanupFailureStrandsTheTurn` | src/oh_my_subagents/operator/service.py:197-204 | The run in which a provider failure and a failed cleanup leave the turn running without a response |
| `OperatorReplies.StepRecords` | src/oh_my_subagents/operator/persistence.py:203-311 | One step of anybody leaves the row of an active turn as it is, or ends the turn with the entry that the step stands for |
| `OperatorReplies.FirstResponseIsRecorded` | src/oh_my_subagents/operator/persistence.py:203-311 | Over every run: the entry directly behind the turn's user entry is the response of the first step that ends the turn, for ever; until then the row is untouched |
| `OperatorReplies.EveryScriptIsRecorded` | src/oh_my_subagents/operator/service.py:151-257 | For every outcome, failure and interleaving without repair during the turn's own steps, what stands behind the user entry in every later state is the provider's reply, or the interruption with the category that the failure calls for; a turn whose cleanup failed has nothing there until startup repair marks it |
| `OperatorReplies.ReplyIsKept` | src/oh_my_subagents/operator/persistence.py:203-249 | A provider that returns and a completion that commits, in any interleaving: the provider's words stand directly behind the user's entry in every later state, and every later claim of the conversation continues the provider's thread |
| `OperatorReplies.QuestionSetsAreDistinct` | src/oh_my_subagents/operator/turn_entries.py:54-83 | In every reachable state a question set id names one question set of one conversation |
| `OperatorService.TurnStoreIsRun` | src/oh_my_subagents/operator/service.py:168-239 | The store after the turn driver's branches is the store after the worker's steps |
| `OperatorService.ValidateAndResolveAnswers` | src/oh_my_subagents/operator/persistence.py:314-355 | The answer loop resolves exactly the answers that name each question once in order, an existing option, or an allowed skip |
| `OperatorService.OperatorStore.constructor` | src/oh_my_subagents/operator/persistence.py:48-57 | An empty store |
| `OperatorService.OperatorStore.CreateConversation` | src/oh_my_subagents/operator/conversation_reads.py:47-85 | Inserting a conversation, or returning the one with the same creation key |
| `OperatorService.OperatorStore.NextEntrySequence` | src/oh_my_subagents/operator/persistence.py:534-543 | The next entry number is one above the highest stored one |
| `OperatorService.OperatorStore.ClaimConversation` | src/oh_my_subagents/operator/persistence.py:368-404 | The guarded update matches exactly an idle row in an allowed state without an entry of this key, and changes only state and active turn |
| `OperatorService.OperatorStore.ClaimMessageTurn` | src/oh_my_subagents/operator/persistence.py:60-122 | The message claim, statement by statement, is the specified transaction |
| `OperatorService.OperatorStore.ClaimAnswerTurn` | src/oh_my_subagents/operator/persistence.py:125-200 | The answer claim, with its rollbacks, is the specified transaction |
| `OperatorService.OperatorStore.CompleteTurn` | src/oh_my_subagents/operator/persistence.py:203-249 | The completion is the specified compare-and-set transaction, which stores what `OperatorRecords.CompletionRecords` says |
| `OperatorService.OperatorStore.InterruptTurn` | src/oh_my_subagents/operator/persistence.py:483-531 | The interruption is the specified compare-and-set transaction |
| `OperatorService.OperatorStore.RepairStrandedTurns` | src/oh_my_subagents/operator/persistence.py:272-311 | The bulk update and the loop over stranded ids have the specified effect and count |
| `OperatorService.OperatorStore.AdmitAndRun` | src/oh_my_subagents/operator/service.py:151-166 | An admitted claim whose request was cancelled is interrupted, any other is run; the store is the one the worker's steps lead to |
| `OperatorService.OperatorStore.RunClaimedTurn` | src/oh_my_subagents/operator/service.py:168-239 | The try/except driver leaves the store that the worker's steps lead to |
| `OperatorService.OperatorStore.CleanUp` | src/oh_my_subagents/operator/service.py:241-257 | A cleanup is one interruption transaction, or nothing when it fails |
| `DuplicateWait.WaitForActiveDuplicate` | src/oh_my_subagents/operator/duplicate_wait.py:26-68 | Under a clock that advances at least by each requested sleep the loop ends after at most 11 reads; it returns normally exactly when its last read no longer shows the duplicate's turn, and gives up only after the deadline |
| `DuplicateWait.TenthRepeatIsLate` | src/oh_my_subagents/operator/duplicate_wait.py:35-68 | The back-off delays add up to the timeout by the tenth sleep |
| `DuplicateWait.WaitMeansAnswered` | src/oh_my_subagents/operator/duplicate_wait.py:46-68 | When the reads are taken in the course of a run, the row is always found and the wait returns normally exactly if its last read comes after the end of the duplicate's own turn, which then has its one response in every later state; otherwise every read saw the turn active and the last one came after the deadline |
| `EntryPages.PageIsWindow` | src/oh_my_subagents/operator/conversation_reads.py:360-382 | A page is the window of at most `limit` entries before the cursor, oldest first, with a cursor exactly if older entries remain |
| `EntryPages.FollowRebuilds` | src/oh_my_subagents/operator/conversation_reads.py:360-382 | Following cursors from any point rebuilds the entries before it, each once, although entries are appended between the reads |
| `EntryPages.BackwardReadingRebuildsTheLog` | src/oh_my_subagents/operator/conversation_reads.py:360-382 | Reading backwards from the newest page rebuilds exactly the log as it was at the first read |
| `TaskEvents.AppendExtends` | src/oh_my_subagents/runtime/task_events.py:367-432 | From a state that appends produced the integrity checks never fire: an append fails only for an unknown task or an event id in use, and otherwise writes event n + 1 with the given content, under the given id if it is not empty and the generated one otherwise, chained to event n, and moves the head to it |
| `TaskEvents.AppendKeeps` | src/oh_my_subagents/runtime/task_events.py:50-130 | An append keeps every task's chain, head row and the uniqueness of ids |
| `TaskEvents.RunKeeps` | src/oh_my_subagents/runtime/task_events.py:89-130 | After any run of appends each stream is numbered 1..n, hash-chained, and its head row holds (n, n, hash of event n); events are only appended |
| `TaskEvents.ReachableInv` | src/oh_my_subagents/runtime/task_events.py:89-130 | The same from empty tables |
| `TaskEvents.RunLogs` | src/oh_my_subagents/runtime/task_events.py:50-130 | After any run the contents of a task's stream are those it had before, then those of the accepted appends to it, in order |
| `TaskEvents.StreamIsLog` | src/oh_my_subagents/runtime/task_events.py:50-130 | From empty tables a task's stream reads exactly what was appended to it |
| `TaskEvents.DefaultIdReads` | src/oh_my_subagents/runtime/ids.py:8-9 | A generated id reads `task-event.`, the task, a dot and the number in at least eight digits |
| `TaskEvents.HeadHashCommits` | src/oh_my_subagents/runtime/task_events.py:206-212 | With a collision-free digest two verified chains with the same head hash are equal in length and hashed record by hashed record; `occurred_at` is hashed in UTC, so notations of one instant in two time zones are one hashed record |
| `TaskEvents.EqualHeadsEqualHistories` | src/oh_my_subagents/runtime/task_events.py:206-212 | Two runs, however different, that leave a task with one head hash left it with one history |
| `TaskEvents.DefaultIdInjective` | src/oh_my_subagents/runtime/ids.py:8-9 | Generated event ids of different tasks or numbers differ |
| `TaskEvents.GeneratedIdsNeverCollide` | src/oh_my_subagents/runtime/task_events.py:89-105 | Whatever ids of another form callers have given, an append to a known task under a generated id succeeds |
| `TaskEvents.RunKeepsIds` | src/oh_my_subagents/runtime/task_events.py:89-105 | Runs whose callers give no id of the generated form leave every id of that form with the event it was generated for |
| `TaskEvents.GeneratedIdsNeverCollideInRuns` | src/oh_my_subagents/runtime/task_events.py:89-105 | So from the empty tables on, appends under generated ids to a known task always succeed, given ids such as those of product actions in between |
| `TaskEvents.EventStore.constructor` | src/oh_my_subagents/runtime/task_events.py:50-66 | Empty tables |
| `TaskEvents.EventStore.AllocateSequence` | src/oh_my_subagents/runtime/task_events.py:367-405 | Raises the allocator revision and accepts exactly if head row and chronology agree |
| `TaskEvents.EventStore.AdvanceStreamHead` | src/oh_my_subagents/runtime/task_events.py:408-432 | Moves the head exactly if the row is still the allocated one |
| `TaskEvents.EventStore.AppendTaskEvent` | src/oh_my_subagents/runtime/task_events.py:50-130 | The append with both guarded updates is the specified transaction; the second update cannot miss. What it stores and returns is what `TaskEvents.AppendExtends` says |
| `TaskEventPages.PageIsWindow` | src/oh_my_subagents/runtime/task_events.py:133-168 | A page from event n up to event m is the window of at most `limit` events, with a cursor exactly if events remain |
| `TaskEventPages.PageToTheEnd` | src/oh_my_subagents/runtime/task_events.py:133-168 | Without a bound a page runs to the end of the stream |
| `TaskEventPages.FollowingCursorsReadsTheStream` | src/oh_my_subagents/runtime/task_events.py:133-168 | Following cursors up to a fixed event returns the stream up to it, once and in order, in ceil(m / limit) requests, despite appends between requests |
| `TaskEventPages.UnknownCursorIsRefused` | src/oh_my_subagents/runtime/task_events.py:278-294 | A cursor is refused exactly if the task's stream has no such event |
| `TaskEventPages.LimitIsRefusedIff` | src/oh_my_subagents/runtime/task_events.py:141-145 | Exactly the limits below 1 and above 500 are refused |
| `DispatchControl.SettlesIff` | src/oh_my_subagents/runtime/control_transitions.py:223-240 | The check after the loop passes exactly if every running attempt of the task that holds a dispatch has no wait and owns an active dispatch |
| `DispatchControl.ClosesExactlyTheCurrentOnes` | src/oh_my_subagents/runtime/control_transitions.py:94-126 | On success exactly the current dispatches of the task are closed, each with its reason and no pending start, their attempts are released, and no other row changes |
| `DispatchControl.RowsAre` | src/oh_my_subagents/runtime/control_transitions.py:129-164 | The join lists every selected attempt exactly once |
| `DispatchControl.ReportsWhatItCloses` | src/oh_my_subagents/runtime/control_transitions.py:104-126 | The reported ids are distinct and are exactly the dispatches that became closed |
| `DispatchControl.PauseIsAtomic` | src/oh_my_subagents/runtime/control_transitions.py:23-91 | A pause changes everything or nothing: on a change the task is paused with its revision raised by one, holds no dispatch and has one more event; a second pause finds nothing to do |
| `DispatchControl.PauseSucceedsIff` | src/oh_my_subagents/runtime/control_transitions.py:60-69 | With an intact event stream in which ids of the generated form are generated, a running task can be paused exactly if its dispatches can be settled, and the stream stays that way; otherwise the tables stay as they were |
| `DispatchControl.PauseRecords` | src/oh_my_subagents/runtime/control_transitions.py:23-91 | A pause stores status, reason, failure code, time and the raised control revision, closes as paused exactly the dispatches that running attempts of the task held, and logs one event that tells the failure; a task that is not running or a source that is not current is left alone |
| `DispatchControl.ReportsInOrder` | src/oh_my_subagents/runtime/control_transitions.py:94-126 | A close that settles everything returns the held dispatches, in the order of the query |
| `DispatchControl.PauseContentTells` | src/oh_my_subagents/runtime/control_transitions.py:70-85 | The event of a pause determines the failure and the control revision |
| `DispatchControl.TaskControl.constructor` | src/oh_my_subagents/runtime/control_transitions.py:23-30 | The given tables |
| `DispatchControl.TaskControl.ReadCurrentTaskDispatches` | src/oh_my_subagents/runtime/control_transitions.py:129-164 | The rows of the join, in query order |
| `DispatchControl.TaskControl.CloseCurrentTaskDispatch` | src/oh_my_subagents/runtime/control_transitions.py:167-196 | Closes the dispatch row exactly if the row still is the attempt's active one |
| `DispatchControl.TaskControl.ClearAttemptCurrentDispatch` | src/oh_my_subagents/runtime/control_transitions.py:199-220 | Releases the attempt exactly if it still runs, waits for nothing and holds this dispatch |
| `DispatchControl.TaskControl.CloseCurrentTaskDispatches` | src/oh_my_subagents/runtime/control_transitions.py:94-126 | No compare-and-set of the loop ever misses; the result is Ok exactly in the settleable states, with the specified tables |
| `DispatchControl.TaskControl.PauseTaskForTransitionFailure` | src/oh_my_subagents/runtime/control_transitions.py:23-91 | The pause with its rollbacks is the specified transaction |
| `SqlScan.SkipQuotedValue` | src/oh_my_subagents/persistence/schema_sql.py:219-229 | Skips to the end of a quoted value, doubled quotes included |
| `SqlScan.SplitTopLevel` | src/oh_my_subagents/persistence/schema_sql.py:195-216 | The index loop computes the specified split |
| `SqlScan.SplitJoins` | src/oh_my_subagents/persistence/schema_sql.py:195-216 | Joining the parts of any split gives the text back, and every part of a real split is shorter |
| `SqlScan.StripBalancedOuterParentheses` | src/oh_my_subagents/persistence/schema_sql.py:232-247 | The loop strips exactly the specified outer pairs |
| `SqlSegments.SplitJoined` | src/oh_my_subagents/persistence/schema_sql.py:195-216 | Splitting a join of operands gives exactly the operands |
| `SqlSegments.EncloseStripsIff` | src/oh_my_subagents/persistence/schema_sql.py:232-247 | An added outer pair is stripped exactly if the parentheses inside balance with quotes ignored |
| `SqlTrees.FlattenEval` | src/oh_my_subagents/persistence/schema_sql.py:177-192 | Flattening nested same operators keeps the truth value under every assignment |
| `SqlTrees.PrintFlatten` | src/oh_my_subagents/persistence/schema_sql.py:177-192 | Flattening does not show in the printed form |
| `SqlCanonical.CanonicalizeBooleanExpression` | src/oh_my_subagents/persistence/schema_sql.py:177-192 | The recursive strip, split and join computes the specified canonical text |
| `SqlCanonical.CanonicalPrints` | src/oh_my_subagents/persistence/schema_sql.py:177-192 | On every text the canonical form is the printed form of the and/or tree that was read |
| `SqlTokens.ParseRender` | src/oh_my_subagents/persistence/schema_sql.py:177-216 | The text of a written expression determines the expression: read token by token it gives the expression back |
| `SqlMisreadings.ReadRenderIff` | src/oh_my_subagents/persistence/schema_sql.py:177-216 | The code reads a written expression as the tree it means if and only if nowhere in it an operand `or` stands directly behind an `and` and directly before a connective of its own layer |
| `SqlMisreadings.ReadPrintIff` | src/oh_my_subagents/persistence/schema_sql.py:177-216 | A flat tree is recovered from its canonical text under the same condition on that text |
| `SqlCanonical.PrintSpells` | src/oh_my_subagents/persistence/schema_sql.py:177-192 | The printed form of a flat tree spells out that tree in any case |
| `SqlPasses.PassIsRecursion` | src/oh_my_subagents/persistence/schema_sql.py:177-192 | On a layer of operands and words the recursion is one pass from left to right that replaces some cells by their own canonical texts and leaves all others alone |
| `SqlOutputs.CanonicalSpells` | src/oh_my_subagents/persistence/schema_sql.py:177-192 | For every written expression, misread or not, the canonical text spells out a written expression of the same meaning: the same and/or tree after dropping redundant parentheses and flattening nested same operators |
| `SqlOutputs.OutMeaning` | src/oh_my_subagents/persistence/schema_sql.py:177-192 | Whatever the pass takes for a marker, what it leaves collects the same alternatives and conjuncts as the layer it was given |
| `SqlOutputs.OutQuiet` | src/oh_my_subagents/persistence/schema_sql.py:177-192 | Wherever an output of the pass stands, whatever follows it and in whatever mode a further pass reaches it, that pass leaves it alone |
| `SqlMeanings.CanonicalKeepsMeaning` | src/oh_my_subagents/persistence/schema_sql.py:177-192 | The canonical text of every expression is an expression of equal meaning |
| `SqlMeanings.CanonicalIffSameMeaning` | src/oh_my_subagents/persistence/schema_sql.py:177-192 | Expressions with equal canonical texts have equal and/or trees, misread or not; for two that are read right the converse holds too |
| `SqlMinimal.CanonicalPrintsIff` | src/oh_my_subagents/persistence/schema_sql.py:177-192 | The canonical text is the printed form of the meaning, which all expressions of the meaning should share, if and only if the pass leaves no redundant parentheses |
| `SqlMinimal.SameTextIff` | src/oh_my_subagents/persistence/schema_sql.py:177-192 | Beside an expression for which that is so, another of the same meaning gets the same canonical text if and only if it is so for that one too |
| `SqlMinimal.ReadRightIsTidy` | src/oh_my_subagents/persistence/schema_sql.py:177-192 | It is so for every expression that is read right |
| `SqlMinimal.PlainConjunctionStays` | src/oh_my_subagents/persistence/schema_sql.py:177-192 | A conjunction of operands without outer parentheses is its own canonical text, misread or not |
| `SqlMeanings.CanonicalKeepsTruth` | src/oh_my_subagents/persistence/schema_sql.py:177-192 | The canonical text of every expression is an expression that is true under the same assignments |
| `SqlMeanings.CanonicalIsIdempotent` | src/oh_my_subagents/persistence/schema_sql.py:177-192 | Canonicalizing the canonical text of any expression changes nothing, misread or not |
| `SqlCells.CellCut` | src/oh_my_subagents/persistence/schema_sql.py:195-216 | Seen as operands and words in turn, a layer is cut before the first inner item that is the word, whichever turn it has |
| `SqlTexts.TextIsExpression` | src/oh_my_subagents/persistence/schema_sql.py:177-216 | Every text that passes a left-to-right check of quotes, parentheses and markers is the text of the written expression it spells out |
| `SqlOverlaps.TextReadIff` | src/oh_my_subagents/persistence/schema_sql.py:177-216 | The code reads such a text as that expression if and only if one pass from left to right finds no operand `or` between an and-marker and a marker, in a layer that it reads |
| `SqlOverlaps.CanonicalKeepsTexts` | src/oh_my_subagents/persistence/schema_sql.py:177-192 | The canonical form of any text that passes the check has the same and/or tree and is true under the same assignments, and canonicalizing is idempotent |
| `SqlOverlaps.CanonicalDecidesTexts` | src/oh_my_subagents/persistence/schema_sql.py:177-192 | Texts with equal canonical forms have equal trees; for texts that are read right the converse holds too |
| `SqlTexts.ParenthesesAreRedundantIff` | src/oh_my_subagents/persistence/schema_sql.py:232-247 | Parentheses around one operand are recognized as redundant exactly if the operand's parentheses balance with quotes ignored, for the strip does not skip quotes (whole expressions: `SqlPairs.StripsPairsIff`) |
| `SqlTexts.QuotedParenthesisIsNotStripped` | src/oh_my_subagents/persistence/schema_sql.py:232-247 | A quoted closing parenthesis is an operand for which they are not recognized |
| `SqlPairs.EnclosedTests` | src/oh_my_subagents/persistence/schema_sql.py:232-247 | A parenthesized text passes the test of the code exactly if its inside balances with quotes ignored, and the test that skips quotes exactly if it balances outside quotes |
| `SqlPairs.StripsPairsIff` | src/oh_my_subagents/persistence/schema_sql.py:232-247 | On every text the code strips exactly the true outer pairs if and only if, at each layer it takes off, both ways of counting agree on the inside |
| `SqlPairs.PlainQuotesDoNotCount` | src/oh_my_subagents/persistence/schema_sql.py:232-247 | Without quoted parentheses, in text whose quotes and parentheses close, they always agree |
| `SqlPairs.NoPairIsStripped` | src/oh_my_subagents/persistence/schema_sql.py:232-247 | A conjunction that loses outer parentheses that are no pair and is no longer split |
| `SqlMarkedTexts.PreparedText` | src/oh_my_subagents/persistence/schema_sql.py:59-60 | SQL whose quotes and parentheses close, without quoted parentheses and unquoted `@`, becomes a text that passes the check when it is marked and its whitespace deleted |
| `SqlMarkedTexts.PassesAgree` | src/oh_my_subagents/persistence/schema_sql.py:59-60 | The pass over the marked and squeezed text finds something exactly if the corresponding pass over the SQL text does |
| `SqlMarkedTexts.PreparedIsReadIff` | src/oh_my_subagents/persistence/schema_sql.py:59-60 | Such SQL becomes the text of a written expression, and the code reads it as that expression if and only if no operand is written as the two words `o` and `r` directly behind an `and` and directly before an operator, in a layer that is read |
| `SqlMarkedTexts.NoLoneLetter` | src/oh_my_subagents/persistence/schema_sql.py:161-174 | That is so whenever `o` is not a word of its own outside quotes |
| `SqlMarkedTexts.CanonicalKeepsSql` | src/oh_my_subagents/persistence/schema_sql.py:59-60 | The canonical form of any such SQL text, marked and squeezed, has the same and/or tree and truth; canonicalizing is idempotent |
| `SqlMarkedTexts.CanonicalDecidesSql` | src/oh_my_subagents/persistence/schema_sql.py:59-60 | Equal canonical forms of such SQL mean equal and/or trees; for SQL that is read right the converse holds too |
| `SqlExamples.TwoWordsAreJoined` | src/oh_my_subagents/persistence/schema_sql.py:59-60 | `x and o r or y` becomes `x@and@or@or@y` and `x and o r and y` becomes `x@and@or@and@y` |
| `SqlExamples.BareOrIsMisread` | src/oh_my_subagents/persistence/schema_sql.py:195-216 | Text that starts `x@and@or@` is split by `or` behind `x@and`, whatever follows |
| `SqlExamples.ConjunctionIsMisread` | src/oh_my_subagents/persistence/schema_sql.py:177-192 | A conjunction with a bare `or` in the middle is read as a disjunction |
| `SqlExamples.LeadingOrIsRead` | src/oh_my_subagents/persistence/schema_sql.py:177-192 | A bare `or` in front of a conjunction is read right |
| `SqlExamples.RedundantParenthesesShow` | src/oh_my_subagents/persistence/schema_sql.py:177-192 | Two expressions of one meaning, one with redundant parentheses around a misread conjunction, get different canonical texts |
| `SqlMarks.MarkBooleanOperators` | src/oh_my_subagents/persistence/schema_sql.py:135-174 | The flag-keeping loop computes the specified marking, for any `isalnum` |
| `SqlMarks.SkipMatchesCount` | src/oh_my_subagents/persistence/schema_sql.py:219-229 | All scanners agree on which positions are quoted: skipping a value ends where counting quotes says it ends |
| `SqlMarks.UnmarkMark` | src/oh_my_subagents/persistence/schema_sql.py:135-158 | In text without unquoted `@`, taking the markers out again gives the text back |
| `MemberTree.RowsDetermineTree` | src/oh_my_subagents/workflows/operations.py:174-186 | The preorder listing with depths determines the member tree |
| `MemberEdits.FindIff` | src/oh_my_subagents/workflows/operations.py:174-186 | A member is found exactly if its id is listed |
| `MemberEdits.UpdateRefines` | src/oh_my_subagents/workflows/operations.py:124-128 | Changing a found member changes exactly its one row |
| `MemberEdits.AddRefines` | src/oh_my_subagents/workflows/operations.py:114-123 | Adding a child puts its block right behind everything below the named parent and changes nothing else but that the parent now lists children |
| `MemberEdits.RemoveRefines` | src/oh_my_subagents/workflows/operations.py:189-201 | Removing a member deletes exactly the block of its subtree |
| `MemberEdits.RemoveMember` | src/oh_my_subagents/workflows/operations.py:189-201 | The index loop with recursion removes the first member below the root with the id, or reports that there is none |
| `MemberIds.SequenceVisitor.Visit` | src/oh_my_subagents/workflows/authoring_identifiers.py:24-34 | The walk keeps the running maximum of the numbered ids |
| `MemberIds.NextWorkflowMemberSequence` | src/oh_my_subagents/workflows/authoring_identifiers.py:21-37 | One above the highest `member-N` of the tree |
| `MemberIds.NextSequenceIsLeast` | src/oh_my_subagents/workflows/authoring_identifiers.py:21-37 | Exactly the numbers from there on are above every numbered id of the tree |
| `MemberIds.BuildIsConsecutive` | src/oh_my_subagents/workflows/operations.py:160-171 | A new subtree is numbered consecutively in preorder and uses exactly that many numbers |
| `MemberIds.BuiltIdsAreFresh` | src/oh_my_subagents/workflows/operations.py:160-171 | Its ids are pairwise distinct and absent from every tree whose numbers lie below the start |
| `MemberIds.MemberIdAllocator.AllocateMemberId` | src/oh_my_subagents/workflows/authoring.py:138-142 | Hands out the next number and raises it by one |
| `MemberIds.MemberIdAllocator.NewMemberPayload` | src/oh_my_subagents/workflows/operations.py:160-171 | The recursive construction with the shared counter builds the specified subtree |
| `MemberIds.UnusedIdAllocator.constructor` | src/oh_my_subagents/workflows/operations.py:218-220 | Starts from the ids in use |
| `MemberIds.UnusedIdAllocator.AllocateId` | src/oh_my_subagents/workflows/operations.py:222-229 | Without a draft the least unused number is handed out each time; the search ends |
| `WorkflowRules.NormalMemberRows` | src/oh_my_subagents/workflows/ingest.py:357-380 | Normalization changes members one by one, never their number, order or depth |
| `WorkflowRules.NormalRowFixed` | src/oh_my_subagents/workflows/ingest.py:367-386 | Exactly the members without carriage returns and without blank optional prose stay as they are, and normalized members are of this kind |
| `Texts.NormalizeLinesReads` | src/oh_my_subagents/workflows/ingest.py:379 | The two replacements in a row make exactly one newline of each CR LF, CR or LF |
| `WorkflowRules.ScanIff` | src/oh_my_subagents/workflows/ingest.py:454-491 | The walk finds no issue exactly if there are at most 256 members, at depth at most 12, with distinct ids and distinct request kinds |
| `WorkflowRules.ScanReports` | src/oh_my_subagents/workflows/ingest.py:458-489 | The issue that is reported is that of the first member in preorder that has one, asked in the order number, depth, id, requests |
| `WorkflowRules.SemanticVisitor.constructor` | src/oh_my_subagents/workflows/ingest.py:454-456 | Nothing seen, nothing counted |
| `WorkflowRules.SemanticVisitor.Visit` | src/oh_my_subagents/workflows/ingest.py:458-489 | The walk returns the first issue of the listing, and otherwise has counted and collected every member of the subtree |
| `WorkflowRules.ValidateWorkflowSemantics` | src/oh_my_subagents/workflows/ingest.py:454-491 | Accepts exactly the sound trees |
| `WorkflowRules.SoundBeforeNormalizing` | src/oh_my_subagents/workflows/operations.py:141-149 | A tree whose normalized form is sound is sound itself, so the fallback stores only sound trees |
| `WorkflowEdits.Accepts` | src/oh_my_subagents/workflows/operations.py:141-149 | When an edited payload is accepted, and that it is stored normalized unless only retired providers speak against it, then as it is; sound in both cases |
| `WorkflowEdits.Normalizes` | src/oh_my_subagents/workflows/ingest.py:77-91 | When normalization without the fallback succeeds: legal text, valid data, sound tree, active providers |
| `WorkflowEdits.LegalWorkflowIff` | src/oh_my_subagents/workflows/ingest.py:367-403 | A payload is legal exactly if every text anywhere in it is |
| `WorkflowEdits.ApplyRefines` | src/oh_my_subagents/workflows/operations.py:105-138 | Each of the four operations refines its edit of the listing, and is refused exactly if that edit does not apply (missing member, or removing the lead); `WorkflowFields.ApplyIs` says what that edit is |
| `WorkflowEdits.EditRefines` | src/oh_my_subagents/workflows/operations.py:105-149 | What an accepted edit returns, in terms of the listing edit that `WorkflowFields.ApplyIs` spells out, always with distinct ids, at most 256 members and depth at most 12 |
| `WorkflowEdits.OthersStay` | src/oh_my_subagents/workflows/operations.py:105-138 | The listing edit keeps every row it is not about |
| `WorkflowEdits.OthersStayInOrder` | src/oh_my_subagents/workflows/operations.py:105-138 | And keeps them in order |
| `WorkflowEdits.OtherMemberUnchangedIff` | src/oh_my_subagents/workflows/operations.py:138-149 | An accepted edit leaves another member exactly as it was if and only if that member was already normalized or a retired provider remains |
| `WorkflowEdits.RepairChangesAnotherMember` | src/oh_my_subagents/workflows/operations.py:141-149 | It does happen: after a title with a carriage return was stored next to a retired provider, clearing that provider rewrites the title |
| `WorkflowEdits.EditKeepsNumbers` | src/oh_my_subagents/workflows/authoring.py:136-154 | A next number above all numbers of the tree stays above them through every edit and never falls |
| `WorkflowEdits.EditNormalizedWorkflow` | src/oh_my_subagents/workflows/operations.py:105-138 | The step-by-step edit with the shared id counter is the specified edit, whose result `WorkflowFields.EditIs` spells out |
| `WorkflowEdits.NewWorkflowIds` | src/oh_my_subagents/workflows/operations.py:85-102 | A new workflow's members are member-1, member-2, ... in preorder |
| `WorkflowFields.BuildLists` | src/oh_my_subagents/workflows/operations.py:160-171 | A built subtree lists exactly the proposed members with their details, in preorder, and takes one number for each |
| `WorkflowFields.ApplyIs` | src/oh_my_subagents/workflows/operations.py:105-157 | The payload of each operation, field by field: a patched field is what was set, absent if cleared, else as before; added members stand behind everything below their parent; a removed block is gone; everything else is as it was |
| `WorkflowFields.AcceptStores` | src/oh_my_subagents/workflows/ingest.py:348-386 | What is stored of a payload: ids and texts with uniform line ends, no blank optional prose, everything else as it was; the payload itself if a retired provider remains |
| `WorkflowFields.EditIs` | src/oh_my_subagents/workflows/operations.py:105-149 | An accepted edit returns the stored form of the payload that the operation asks for |
| `WorkflowFields.EditTakesNumbers` | src/oh_my_subagents/workflows/operations.py:160-171 | And takes one member number for each added member |
| `WorkflowFields.EditAcceptedIff` | src/oh_my_subagents/workflows/operations.py:105-149 | An edit is accepted exactly if the operation asks for a payload whose texts are legal, whose normal form fits the data model and the semantic rules, and which itself fits the data model where a retired provider remains |
| `WorkflowFields.UpdatedFields` | src/oh_my_subagents/workflows/operations.py:152-157 | After an accepted update each of the five fields of the named member is what the patch sets, absent if it clears it, and else what it was, normalized unless a retired provider remains; every other member is stored as it was |
| `WorkflowFields.UpdatedWorkflowFields` | src/oh_my_subagents/workflows/operations.py:152-157 | After an accepted update of the workflow its description and note follow the patch, and its id and members stay |
| `WorkflowFields.AddedFields` | src/oh_my_subagents/workflows/operations.py:114-123 | After an accepted addition the proposed members stand behind everything below their parent, in preorder, one level deeper, with their details and the next numbers; every other member is stored as it was |
| `WorkflowFields.NewWorkflowFields` | src/oh_my_subagents/workflows/operations.py:79-102 | A new workflow stores the given id, description and note, and the proposed members, or one bare lead |
| `WorkflowFields.NewWorkflowAcceptedIff` | src/oh_my_subagents/workflows/operations.py:79-102 | And is accepted exactly if that payload is legal, normalizes to a sound one and fits the data model |
| `DraftRuns.StepKeeps` | src/oh_my_subagents/workflows/authoring.py:70-511 | Every transaction, accepted or refused, keeps: each stored hash is the hash of its content, each content belongs to its key and is sound, the next member number is above every number of the current tree and of every tree a receipt saved, ETags are distinct, receipts expect distinct ETags, and the published revisions are consistent |
| `DraftRuns.RunKeeps` | src/oh_my_subagents/workflows/authoring.py:70-511 | The same over every run |
| `DraftRuns.ReachableInv` | src/oh_my_subagents/workflows/authoring.py:70-511 | The same from empty tables |
| `DraftHistory.StepPerforms` | src/oh_my_subagents/workflows/authoring.py:314-368 | Every transaction makes at most one write to the draft and receipt tables, with the ETag or receipt that justifies it; a refused one changes nothing |
| `DraftHistory.RunLater` | src/oh_my_subagents/workflows/authoring.py:342-350 | Over every run a draft keeps its key and base, its next member number never falls, a changed draft has an ETag never used before, and receipts only become consumed |
| `DraftHistory.AtMostOneHolderWins` | src/oh_my_subagents/workflows/authoring.py:511-522 | Of all requests that present one ETag at most one takes effect on the draft that has it, publish and discard included; later ones are refused as stale or missing and leave every draft as it is |
| `DraftHistory.AcceptedHolderSpends` | src/oh_my_subagents/workflows/authoring.py:342-357 | An accepted edit, undo, discard or publication, and an import that replaces content, takes the presented ETag from the draft |
| `DraftHistory.ChangeNeedsTheEtag` | src/oh_my_subagents/workflows/authoring.py:490-508 | Nobody changes or deletes a draft without presenting its current ETag, except by removing the workflow |
| `DraftUndo.UndoAcceptedIff` | src/oh_my_subagents/workflows/authoring.py:182-192 | Undo is accepted exactly with the current ETag and an unused receipt of this draft that expects it |
| `DraftUndo.OneUsableReceipt` | src/oh_my_subagents/workflows/authoring.py:191-192 | At most one receipt of a draft is usable at a time |
| `DraftUndo.UndoRestores` | src/oh_my_subagents/workflows/authoring.py:198-220 | An accepted undo gives the draft the content and hash of the version before its latest replacement, keeps the next member number, uses the receipt up and leaves no usable one |
| `DraftUndo.UndoRestoresInEveryRun` | src/oh_my_subagents/workflows/authoring.py:175-227 | The same for every run, against the chain of versions an observer of the tables records |
| `DraftUndo.ReceiptWorksOnce` | src/oh_my_subagents/workflows/authoring.py:199-208 | A receipt that was accepted is refused ever after |
| `DraftUndo.NumbersAreIssuedOnce` | src/oh_my_subagents/workflows/authoring.py:346-349 | A draft's allocator never hands out a member number twice, whatever runs in between |
| `DraftUndo.AddedIdsAreNew` | src/oh_my_subagents/workflows/authoring.py:136-154 | The ids of an added subtree are distinct, new to the tree, and new to every tree a receipt can bring back |
| `DraftContents.EditStores` | src/oh_my_subagents/workflows/authoring.py:123-158 | An edit under the current ETag that the editing rules accept stores the edited workflow with its hash, keeps key and base, returns a new receipt that holds the old content and hash, and moves no other draft or receipt: the patched fields and the added members stand in the stored tree. Every refusal says why and writes nothing |
| `DraftContents.UndoStores` | src/oh_my_subagents/workflows/authoring.py:175-227 | An accepted undo stores exactly what its receipt remembers under a new ETag and uses the receipt up; nothing else moves |
| `DraftContents.DiscardDeletes` | src/oh_my_subagents/workflows/authoring.py:230-260 | A draft is discarded exactly under its current ETag; it is gone with its receipts, everything else stays |
| `DraftContents.CreateStores` | src/oh_my_subagents/workflows/authoring.py:371-408 | A created draft has the given content, the current revision as its base and the least free member number |
| `DraftContents.OpenNewStores` | src/oh_my_subagents/workflows/authoring.py:75-85 | A new workflow gets a draft without a base; a key with a draft or a current revision is refused |
| `DraftContents.OpenExistingStores` | src/oh_my_subagents/workflows/authoring.py:411-443 | Opening returns the draft there is, or a new one with the content of the current revision and based on it |
| `DraftContents.ImportStores` | src/oh_my_subagents/workflows/authoring.py:92-120 | An import stores the normal form of its payload, over an existing draft only under its ETag and only if the content differs; the receipt holds what was there |
| `DraftContents.PublishStores` | src/oh_my_subagents/workflows/authoring.py:287-311 | A draft is published exactly under its ETag and if its content normalizes; the normal form becomes the user's current revision, the draft and its receipts are gone |
| `DraftContents.RemovalRemoves` | src/oh_my_subagents/workflows/authoring.py:263-284 | A workflow is removed exactly if it has a draft or a current revision. Then its draft and the receipts of it are gone and no revision is current; the revisions stay, and the owner row goes exactly if there was no current revision and there are no revisions; every other workflow, draft and receipt is as before |
| `DraftContents.NothingIsLeft` | src/oh_my_subagents/workflows/authoring.py:263-284 | After a removal no draft has the key and no receipt is without its draft |
| `DraftContents.SeedStores` | src/oh_my_subagents/workflows/bootstrap.py:24-48 | Seeding stores the starter unless an equal one is there, and makes it current exactly if the workflow has no revisions or a starter is current; so a new starter becomes current revision 1. Drafts and receipts stay |
| `StoredContents.RunSettles` | src/oh_my_subagents/workflows/operations.py:138-149 | In every run every stored content is in normal form or has a retired provider in it |
| `StoredContents.PublishedIsTheDraft` | src/oh_my_subagents/workflows/authoring.py:287-311 | In every reachable state an accepted publication publishes the very content of the draft that the user read |
| `DraftService.WorkflowStore.constructor` | src/oh_my_subagents/workflows/authoring.py:70-80 | Empty tables |
| `DraftService.WorkflowStore.CurrentDraftRow` | src/oh_my_subagents/workflows/authoring.py:511-522 | Missing, unreadable or stale rows are refused, in this order |
| `DraftService.WorkflowStore.ReplaceDraftContent` | src/oh_my_subagents/workflows/authoring.py:314-368 | Replacement and receipt are the specified write; the guarded update cannot miss |
| `DraftService.WorkflowStore.EditWorkflowDraft` | src/oh_my_subagents/workflows/authoring.py:123-158 | The edit with its persisted id counter is the specified transaction, which stores what `DraftContents.EditStores` says |
| `DraftService.WorkflowStore.UndoWorkflowDraft` | src/oh_my_subagents/workflows/authoring.py:175-227 | The undo with its two guarded updates is the specified transaction |
| `DraftService.WorkflowStore.DiscardWorkflowDraft` | src/oh_my_subagents/workflows/authoring.py:230-260 | The discard is the specified transaction |
| `DraftService.WorkflowStore.PublishWorkflowDraft` | src/oh_my_subagents/workflows/authoring.py:287-311 | Deleting the draft and publishing its normalized content is the specified transaction |
| `DraftService.WorkflowStore.ImportWorkflowDraft` | src/oh_my_subagents/workflows/authoring.py:92-120 | The import, with its order of checks and its no-op on equal content, is the specified transaction |
| `DraftService.WorkflowStore.CreateWorkflowDraft` | src/oh_my_subagents/workflows/authoring.py:371-408 | Creating a draft is refused for an active draft, and for a published workflow when a new one is asked for |
| `DraftService.WorkflowStore.OpenExistingWorkflowDraft` | src/oh_my_subagents/workflows/authoring.py:411-443 | Returns the active draft, or a new one with the current revision |
| `DraftService.WorkflowStore.OpenNewWorkflowDraft` | src/oh_my_subagents/workflows/authoring.py:75-85 | Builds and normalizes the new workflow and creates its draft, or refuses it, as specified |
| `DraftService.WorkflowStore.RemoveWorkflowByKey` | src/oh_my_subagents/workflows/authoring.py:263-284 | The removal, with the owner row deleted only without revisions, is the specified transaction, which removes what `DraftContents.RemovalRemoves` says |
| `DraftService.WorkflowStore.PublishWorkflowRevision` | src/oh_my_subagents/workflows/publication.py:21-51 | Owner, selection, revision and current number are written as specified |
| `DraftService.WorkflowStore.SeedStarterWorkflow` | src/oh_my_subagents/workflows/bootstrap.py:24-48 | Seeding one starter workflow is the specified publication under the guard |
| `Publication.InsertPublishes` | src/oh_my_subagents/workflows/publication.py:38-86 | Publishing keeps every old revision and names the one revision with the published hash and provenance, the old one if there is one |
| `Publication.RevisionTable.AllocateRevision` | src/oh_my_subagents/workflows/publication.py:53-86 | Among rival publishers the eight-attempt loop keeps the table consistent and append-only, returns the number of the one matching revision, gives up only if a rival won every attempt, and without rivals needs one |
| `Publication.RevisionIdReads` | src/oh_my_subagents/workflows/publication.py:175-176 | A revision id reads `workflow-revision.`, the workflow, a dot and the number in at least three digits |
| `Publication.RevisionIdInjective` | src/oh_my_subagents/workflows/publication.py:175-176 | Revision ids of different workflows or numbers differ |
| `Publication.PublishKeeps` | src/oh_my_subagents/workflows/publication.py:21-86 | From a consistent registry publishing never fails, adds at most one revision with the next number, changes the current one exactly if the guard allows, and touches no other workflow |
| `Publication.SeedRespectsTheUser` | src/oh_my_subagents/workflows/publication.py:127-153 | Seeding leaves a user-published current revision current and a removed workflow with revisions removed |
| `RegistryRuns.RevisionsAreImmutable` | src/oh_my_subagents/workflows/publication.py:156-198 | Over every run published revisions never change or disappear and stay numbered 1..n with one per hash and provenance |
| `RegistryRuns.CurrentExists` | src/oh_my_subagents/workflows/publication.py:188-198 | In every reachable state a set current revision names an existing one |
| `RegistryRuns.SeedingRespectsTheUser` | src/oh_my_subagents/workflows/publication.py:127-153 | However often seeding runs while the user neither publishes nor removes the workflow, a user-published revision stays current and a removed workflow stays removed |
| `RegistryRuns.RemovedUntilPublished` | src/oh_my_subagents/workflows/publication.py:127-153 | A workflow with revisions that was removed has no current revision in any later state until a user publishes it, however often it is seeded, opened, imported or removed again; all its revisions are still there, and the publication makes the user's revision current |
| `RegistryRuns.RepublishReturnsTheOldNumber` | src/oh_my_subagents/workflows/publication.py:38-51 | Publishing known content again returns its old number, adds nothing and makes it current |
| `JsonPointer.UnescapeEscape` | scripts/docs/docs_contract/workflow_schema.py:131-134 | Decoding a token undoes the `~0`/`~1` escaping |
| `JsonPointer.EscapeUnescape` | scripts/docs/docs_contract/workflow_schema.py:131-134 | Every well-formed encoded token is the escape of what it decodes to |
| `JsonPointer.SplitSlashJoins` | scripts/docs/docs_contract/workflow_schema.py:131 | Splitting at slashes loses nothing |
| `JsonPointer.ResolveReference` | scripts/docs/docs_contract/workflow_schema.py:104-151 | The token loop, with every error branch in order, computes the specified resolution |
| `JsonPointer.ResolvesIff` | scripts/docs/docs_contract/workflow_schema.py:104-151 | A reference resolves to a path that reads a value back exactly if its fragment is a JSON Pointer whose evaluation (section 4 of RFC 6901) ends at that path and that value |
| `JsonPointer.PointerIff` | scripts/docs/docs_contract/workflow_schema.py:109-127 | A reference holds a pointer exactly if it is text that starts with `#`, every percent sign of its fragment starts a triplet, and the fragment decodes to nothing or to a text that starts with a slash |
| `JsonPointer.PointerRefusals` | scripts/docs/docs_contract/workflow_schema.py:109-127 | Why a reference without a pointer is refused, in the order in which it is asked |
| `JsonPointer.FirstBadTokenTells` | scripts/docs/docs_contract/workflow_schema.py:129-151 | A pointer that does not resolve is refused for the first token that selects nothing, by what is wrong at the value reached there |
| `JsonPointer.ResolvedIsPath` | scripts/docs/docs_contract/workflow_schema.py:237-241 | Every path that resolution returns exists in the schema, so what is read back there is the value the pointer evaluates to |
| `SchemaPaths.PushChildren` | scripts/docs/docs_contract/workflow_schema.py:217-233 | What is pushed for a path: its resolved `$ref` and its child containers except definitions and references |
| `SchemaPaths.CollectReachable` | scripts/docs/docs_contract/workflow_schema.py:205-234 | The worklist ends on cyclic references and returns exactly the paths that a walk from the root reaches, the least closed set |
| `SchemaPaths.UnusedDefinitions` | scripts/docs/docs_contract/workflow_schema.py:174-202 | Reports exactly the top-level definitions that no walk from the root enters |
| `StartupAudit.AuditStartupSourceFamily` | src/oh_my_subagents/runtime/startup_audit.py:66-112 | The paging loop over any page source computes the specified outcome, guard and checks in order |
| `StartupAudit.RouteSources` | src/oh_my_subagents/runtime/startup_audit.py:106-108 | The sources of a page are routed in order up to the first refusal |
| `StartupAudit.RowsAreTheTasks` | src/oh_my_subagents/runtime/startup_audit.py:115-138 | The rows are exactly the tasks that have a team revision, with that revision |
| `StartupAudit.PageAt` | src/oh_my_subagents/runtime/startup_audit.py:115-138 | A fetched page is the window of 200 rows behind the cursor, with a cursor exactly if the page is full |
| `StartupAudit.AuditRoutesEveryRow` | src/oh_my_subagents/runtime/startup_audit.py:66-138 | The database sorts in its order and the cursor test compares in Python's. Every row's signal is routed once and in order on N / 200 + 1 pages, unless a full page before the guard ends with a cursor that does not advance in Python's order (the audit then stops exactly before that page) or that count reaches 10,000 (it stops after the rows of 9,999 pages); a refused publication stops at its row |
| `StartupAudit.SameOrderNeverSticks` | src/oh_my_subagents/runtime/startup_audit.py:66-138 | If Python's order agrees with the database's, no cursor is stuck |
| `EnvironmentText.ReadLines` | src/oh_my_subagents/platform/provider_environment.py:186 | Lines that are written with newlines are read back |
| `EnvironmentText.BreakEndsLine` | src/oh_my_subagents/platform/provider_environment.py:186 | Every break character ends a line, and CR LF ends one |
| `EnvironmentText.LastLine` | src/oh_my_subagents/platform/provider_environment.py:186 | A last line needs no break, and a final break starts no further line |
| `EnvironmentText.QuotedAssignment` | src/oh_my_subagents/platform/provider_environment.py:247-250 | A posix shell reader gets exactly one word from a quoted assignment: name and the very value, backslashes and quotes included |
| `EnvironmentText.SingleQuotedAssignment` | src/oh_my_subagents/platform/provider_environment.py:203 | Between single quotes every character stands for itself, a backslash too |
| `EnvironmentText.EscapedCharacter` | src/oh_my_subagents/platform/provider_environment.py:203 | Outside quotes a backslash makes the next character part of the word |
| `EnvironmentText.CutAssignment` | src/oh_my_subagents/platform/provider_environment.py:202-207 | A quoted assignment cut off inside its value is refused |
| `ProviderEnvironment.WithoutReads` | src/oh_my_subagents/platform/provider_environment.py:221-236 | Leaving out the assignments of some names removes exactly these names from what is read |
| `ProviderEnvironment.RetainedReads` | src/oh_my_subagents/platform/provider_environment.py:221-236 | The retained lines of a readable file read as its other secrets |
| `ProviderEnvironment.WithoutSplits` | src/oh_my_subagents/platform/provider_environment.py:226-231 | Every line is kept or left out by itself, in order |
| `ProviderEnvironment.TrimBlankLast` | src/oh_my_subagents/platform/provider_environment.py:232-233 | Only blank lines at the end go, and all of them |
| `ProviderEnvironment.LineReads` | src/oh_my_subagents/platform/provider_environment.py:126 | A stored assignment is read as the key and the very value |
| `ProviderEnvironment.LineSkippedIff` | src/oh_my_subagents/platform/provider_environment.py:186-197 | A line gives no secret exactly if it is blank, a comment or the assignment of a retired name |
| `ProviderEnvironment.PlainLineReads` | src/oh_my_subagents/platform/provider_environment.py:191-217 | An unquoted value without blanks, quotes and backslashes is read as it stands |
| `ProviderEnvironment.SingleQuotedLineReads` | src/oh_my_subagents/platform/provider_environment.py:191-217 | Between single quotes any other value is read as it stands |
| `ProviderEnvironment.LineRefusals` | src/oh_my_subagents/platform/provider_environment.py:190-201 | Which other lines are refused, as no assignment or for their name |
| `ProviderEnvironment.ValueRefusals` | src/oh_my_subagents/platform/provider_environment.py:202-216 | An empty value is refused, and so is a value of two words |
| `ProviderEnvironment.PersistThenRead` | src/oh_my_subagents/platform/provider_environment.py:112-127 | Storing an accepted secret in a readable file: it is read back as the same value and the others as before if and only if the value has no character at which `splitlines` breaks; otherwise the written file cannot be read |
| `ProviderEnvironment.SecretAcceptedIff` | src/oh_my_subagents/platform/provider_environment.py:239-244 | Accepted are exactly the texts that start and end with no space and hold no NUL, CR or LF |
| `ProviderEnvironment.PersistAcceptedIff` | src/oh_my_subagents/platform/provider_environment.py:112-127 | A secret is stored exactly if its name is supported, its value accepted and the file readable, asked in this order |
| `ProviderEnvironment.PersistKeepsLines` | src/oh_my_subagents/platform/provider_environment.py:221-255 | The file that is written holds the lines that assign none of the names, without blank ones at the end, then an empty line if there are any, then the new assignment |
| `ProviderEnvironment.VerticalTabBreaksTheFile` | src/oh_my_subagents/platform/provider_environment.py:239-244 | It happens: a vertical tab inside an accepted value makes the file unreadable |
| `ProviderEnvironment.RemoveThenRead` | src/oh_my_subagents/platform/provider_environment.py:130-139 | Removing secrets from a readable file leaves exactly the others |
| `ProviderEnvironment.RemoveAcceptedIff` | src/oh_my_subagents/platform/provider_environment.py:130-139 | Secrets are removed exactly if their names are supported and the file is readable; a missing file stays missing |
| `ProviderEnvironment.RemoveKeepsLines` | src/oh_my_subagents/platform/provider_environment.py:221-255 | The file that is written holds the lines that assign none of the names |
| `ProviderEnvironment.SecretFile.ParseEnvironment` | src/oh_my_subagents/platform/provider_environment.py:184-218 | The parser loop computes the specified reading |
| `ProviderEnvironment.SecretFile.RetainedEnvironmentLines` | src/oh_my_subagents/platform/provider_environment.py:221-236 | The two loops compute the specified retained lines |
| `ProviderEnvironment.SecretFile.PersistProviderSecret` | src/oh_my_subagents/platform/provider_environment.py:112-127 | The file is replaced as specified, or left alone on an error |
| `ProviderEnvironment.SecretFile.RemoveProviderSecrets` | src/oh_my_subagents/platform/provider_environment.py:130-139 | The file is rewritten as specified, or left alone |

## Left out

- `list_operator_conversations` and conversation previews: conversations move in the list when they change, so paging over them promises no exact collection.
- asyncio scheduling, `_drain_task` and task shielding: cancellation is an outcome of a worker's step.
- Stored entry ids other than those of question sets, provider model and effort columns, timestamps: nothing modelled depends on them.
- The explanation of a question set, question headers and option descriptions: stored and shown, never tested.
- Question and option ids are issued by the controller while mapping a provider result; here they come with the result.
- SQLAlchemy, dialect differences, locking SQL and nested savepoints: a guarded update either matches or not; concurrent publishers appear only as rivals in `Publication.RevisionTable.AllocateRevision`.
- The regular-expression passes of `normalize_schema_sql` other than the deletion of whitespace, `_strip_case_when_parentheses` and the final un-marking: they lose information; `SqlMarkedTexts` goes from marking and squeezing straight to `_canonicalize_boolean_expression`. In particular `_strip_scalar_parentheses` runs in between and turns `x and o(r) and y` into text with a bare `or`.
- `SqlTexts.TextIsExpression`: the text check is sufficient, not necessary; the exact class of texts is that of the well-formed expressions in `SqlSegments`.
- JSON and YAML parsing, Pydantic validation, and the bounds of 32 collection levels and 4,096 collections in `_validate_json_shape`: a sound member tree stays within these bounds, so only the reported error of a refused payload can differ.
- The bound of 1 MiB on a serialized workflow (`MAX_RAW_BYTES`), which imports and starter seeds pass as well: a sound workflow with longer texts is refused there and accepted by `DraftProtocol.ImportDraft` and the seeding of the model.
- `MemberEdits.RemoveMember`: payload dictionaries are changed in place in the source; they are a private copy, so the model works on values and aliasing does not arise.
- The number written by `ids.py` and the revision id are zero-padded decimals; other id formats are not part of this model.
- `TaskEvents.EventStore.AppendTaskEvent`: validation of the event payload by its data model is left out; the content of an event is one text.
- `DispatchControl.PauseTask`: the failed source names one task and whether it is current; the row order of the join is an arbitrary enumeration, so the result holds for every order.
- `DraftService.WorkflowStore.DiscardWorkflowDraft`: the owner's `updated_at` column is not modelled.
- The percent decoder, base64 and JSON inside event cursors: parameters, see above.
- `iter_schema_references` and the formatting of findings: plain enumeration and text.
- File locks and permissions of the private environment file, and the context managers that change `os.environ`.
- `forward_upgrade.py`, `schema_contract.py`, `config.py`, `paths.py`, `capabilities.py`, the console and integrations: fixed tables, single branches or foreign calls.
