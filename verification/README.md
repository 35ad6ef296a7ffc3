# Verification of evo-king

A Dafny model of the parts of evo-king that keep state, with proofs of what they keep. The king runs
*pipelines*: a run passes through the stages learning, building, pre_load, evaluation and skill_manage.
Its rows live in `pipeline_runs`, its tasks in `tasks`, and the answers it waits for in a map of pending
requests that a restart empties. Around that the king stores traces, memories and event logs, compares
time stamps as text, builds SQL from optional filters, streams the output of bash tasks and replaces its
own binaries.

`dafny verify dfyconfig.toml` checks everything.

| file | what it models |
|---|---|
| `Basics.dfy`, `Stages.dfy` | optional values; the stages, their spelling and order |
| `RunMachine.dfy` | one run as a state machine: what each of eight events does to its rows, tasks, requests and history |
| `RunInvariants.dfy` | the inductive invariant of a run and its preservation by every event |
| `RunTheorems.dfy` | what holds in every reachable state and on every step: row discipline, final rows, dispatch accounts, termination, quiescence, agreement of task and rows, timeouts |
| `RunEffects.dfy` | what each event does to rows, tasks, requests and history, column by column; what one stage hands to the next |
| `RunLimits.dfy` | exact conditions for one response, one step and any history to keep the discipline, whatever runs and tasks a response names |
| `RunHistories.dfy` | five concrete histories in which the discipline breaks |
| `Tables.dfy`, `TaskDb.dfy` | the shared tables, their statements, and how selecting one run commutes with them; the cascade delete |
| `Coordinator.dfy` | the handlers of the coordinator as methods over the tables, each proved to move every run exactly as the run machine does |
| `SocketServer.dfy` | the messages that reach the coordinator; every handler keeps all runs on allowed histories |
| `Cascade.dfy` | how deep the cascade delete reaches |
| `Gate.dfy` | the mutex around the pending requests under arbitrary interleaving |
| `TraceDb.dfy` | spans folded into one row per trace |
| `Timestamps.dfy` | RFC 3339 text order against time order |
| `Like.dfy`, `Queries.dfy`, `SetClauses.dfy` | the dynamic query builders and what their queries select |
| `MemoryDb.dfy` | memories, tiers and bindings, and the memory extracted from a stage result |
| `UpdateScript.dfy` | update.sh: backup, install, verify, roll back |
| `BashOutput.dfy` | the output loop of a bash task |
| `VersionString.dfy` | picking a version out of `--version` output |

How the pipeline part fits together: `RunMachine.Step` says what an event does to one run. `RunEffects`
says the same column by column, without that machine's own words. `Coordinator` shows that a handler,
working on the tables of all runs at once, does that to the run concerned and nothing to any other. A
recovery response may name one run, a task of a second and a request of a third; its event carries what
it finds in the tables (`Context`), and every run moves by it. `SocketServer` concludes that the state of
every run is always the outcome of some allowed history, so that the theorems about histories hold of the
tables (`EveryRunIsDisciplined`, `OneRecoveryPerRun`).

Assumptions on the environment, all in `RunMachine.Allowed`: ids are fresh, the clock does not run
backwards, a recovery response that consumes a request answers a recovery request and repeats its run
and task, and a deleted task is named by a non-empty id. Nothing is assumed of decomposition results,
of stage results, of the order of messages or of when restarts and deletions happen. An id also stands
for its creation stamp, so stamps are taken to be strictly increasing; id 0 is the empty string.

What the proofs turned up:

- The coordinator consumes a pending request without looking at its kind, run or task. A recovery
  response can so reopen a completed row beside a running one, by answering a decomposition request
  (`RunHistories.WrongAnswerReopens`) or a request of another run (`RunHistories.StrayAnswerReopens`);
  start a second row by naming a task of another run (`RunHistories.ForeignTaskAdvances`); or reopen a
  newest row that has timed out (`RunHistories.LateAnswerReopens`).
  A retry is harmless to the rows exactly when it picks the newest row and that row has failed, a skip
  exactly when the newest row is closed and earlier (`RunLimits.DisciplineKeptIff`); the coordinator
  could check that before it acts. For the whole invariant, `RunInvariants.RecoverKeepsIff`,
  `RunLimits.StepKeptIff` and `HistoryKeptIff` give the exact condition in every run a response touches:
  the one it names, the one that owns the task, the one that asked. `SocketServer.King.OnRecoveryResponse`
  states it of the tables.
- The socket handler for task deletion accepts an empty task id. That deletes every task without a
  parent and leaves the rows of their runs, after which a completed row can be reopened
  (`RunHistories.EmptyIdReopens`). The deletion itself touches no row: what it breaks, exactly in
  the runs whose rows were all still there, is the invariant that rules such a reopening out
  (`RunInvariants.DeleteKeepsIff`).
- A bound of a socket event listing that ends in Z, another spelling of the same instant, drops or adds
  stamps of its own second (`Queries.ZuluWindow`).
- A decomposition request that could not be emitted is reported as failed and still awaits its answer
  (`SocketServer.King.DecomposeTask`).
- A stage result with a status other than completed, failed or running closes the row and tells no task
  (`RunTheorems.SilentResultDisagrees`).
- The cascade delete goes one level deep: it orphans somebody exactly when the tree is deeper
  (`Cascade.OrphanFreeIffShallow`).
- A search word is looked for literally exactly when it holds neither `%` nor `_`
  (`Like.SearchMeansContainmentIff`), and a search never finds a memory without tiers, even by its key.
- A failed update of a component that is not installed brings back a stale backup or leaves what it put
  in place (`UpdateScript.EvoHome.RunScript`).
- The repository's README promises a 30 s recovery timeout and automatic decomposition that are not in the
  code (`src/pipeline_coordinator.rs:20-22`, `57-151`); the model follows the code.
- The abstract of an extracted memory says "completed" for failed stages too (`MemoryDb.Abstract`).

## Model

| member | source | states |
|---|---|---|
| Stages.SpellingIsFaithful | src/pipeline_coordinator.rs:1195-1216 | Parsing a stage inverts printing it and accepts nothing else; the empty stage of a fresh subtask is no stage. |
| Stages.NextStageIsSuccessor | src/pipeline_coordinator.rs:1179-1188 | `next_stage` climbs the ranks one by one and ends exactly at skill_manage. |
| RunInvariants.ResultKeeps | src/pipeline_coordinator.rs:156-525 | A stage result of any kind, with its recovery request delivered or not, keeps the invariant of its run. |
| RunInvariants.EnactKeepsIff | src/pipeline_coordinator.rs:635-823 | Acting on a consumed response keeps the invariant of any run exactly when it is admissible there, whatever request was consumed, of whatever run, and whatever run and task it names: in the run named, a condition on the newest row, the pending recoveries, the newest task and a lone main task; in the run of the task, that what it is told fits its newest row. |
| RunInvariants.RecoverKeepsIff | src/pipeline_coordinator.rs:590-827 | The whole handler, for a pending request of either kind and of any run: the invariant of any run is kept exactly when the response is admissible there. |
| RunInvariants.HonestAdmissible | src/pipeline_coordinator.rs:599-619 | A response that answers a recovery request of its run and repeats its task is always admissible. |
| RunInvariants.RetryPicksNewest | src/pipeline_coordinator.rs:637-651 | The row whose retry count is read, newest by stamp, is the row that is reopened, found from the back; it is the failed newest row with fewer than three retries. |
| RunInvariants.SplitKeeps | src/pipeline_coordinator.rs:872-938 | A decomposition result, whatever request and task it names, keeps the invariant. |
| RunInvariants.TickKeeps | src/pipeline_coordinator.rs:980-1054 | A round of the timeout monitor keeps the invariant. |
| RunInvariants.DeleteKeepsIff | src/task_db.rs:878-945 | The deletion of any id, the empty one included, keeps the invariant of a run exactly when the id is non-empty or the run has lost its rows before. |
| RunInvariants.StepKeeps | src/pipeline_coordinator.rs:57-1054 | Every allowed event keeps the invariant: rows, requests, the coupling of rows, newest task and requests, accounts, agreement. |
| RunInvariants.Reachable | src/pipeline_coordinator.rs:57-1054 | The invariant holds after every allowed history, restarts and deletions included. |
| RunTheorems.StepMoves | src/pipeline_coordinator.rs:57-1054 | Every event moves the rows of a run in one of seven ways, each spelled out, and dispatches exactly when that way says so. |
| RunTheorems.RowDiscipline | src/pipeline_coordinator.rs:57-1054 | In every reachable state a run has at most five rows with strictly increasing stages; only the newest may be running; at most one recovery is pending and then nothing runs; no row was retried more than three times. |
| RunTheorems.FinalForever | src/pipeline_coordinator.rs:608-698 | A completed, timed-out or superseded row never changes again, whatever follows, until the rows of the run are deleted. |
| RunTheorems.DispatchAccounts | src/pipeline_coordinator.rs:359-431 | Until rows are deleted, dispatches = rows + retries = accepted results + timeouts + open rows; with what was deleted added in, the equations always hold; no run is ever dispatched more than 20 times. |
| RunTheorems.ProgressSpends | src/pipeline_coordinator.rs:173-187 | Stages left, retries left and phase, read as one number, never grow after the start and shrink on every accepted closing result, consumed response and timeout. |
| RunTheorems.ProgressBounded | src/pipeline_coordinator.rs:57-1054 | Any history of a run holds at most 59 such events. |
| RunTheorems.QuietForever | src/pipeline_coordinator.rs:173-187 | Once nothing runs and no recovery is pending, no message dispatches the run or changes a row again; its rows can only be deleted. |
| RunTheorems.MainTaskAgrees | src/pipeline_coordinator.rs:259-276 | For a run that holds only its main task: a running row means a running task, a pending recovery a recovering task on a failed row, a completed task a completed or skipped skill_manage row, a failed task a failed or timed-out row with nothing pending. |
| RunTheorems.SilentResultDisagrees | src/pipeline_coordinator.rs:189-199 | "Row running exactly when task running" survives an accepted result exactly when its status is completed, failed or running. |
| RunTheorems.TickSoundAndComplete | src/pipeline_coordinator.rs:980-1048 | After a tick no running row was touched more than 300 s before; only rows last dispatched more than 300 s before are timed out; the newest task of a run so closed has failed. |
| RunEffects.BeginAnswers | src/pipeline_coordinator.rs:57-151 | The first row and the first dispatch carry the input and no artifact; the main task works on learning. |
| RunEffects.ResultAnswers | src/pipeline_coordinator.rs:156-525 | A result nobody waits for changes nothing. Any other closes the newest row with its agent, output and error; a completed stage gives its artifact and output to the row and the dispatch of the next; the newest task is recovering, failed, completed or moved on, and gets subtasks after an evaluation alone; a recovery is asked for it exactly when a failure could be reported. |
| RunEffects.ResponseAnswers | src/pipeline_coordinator.rs:590-827 | For any response and any run: a response not awaited changes nothing; any other consumes its request, tells the task it names and only that, and moves the rows of the run it names and only those. Retry: the newest row of the stage runs again with one more retry and is dispatched with its own artifact and input, below three retries; then the task fails. Skip: skill management starts after an evaluation, the task is done at the last stage and fails elsewhere. Decompose: subtasks below it. Abort: failed. |
| RunEffects.HonestAnswer | src/pipeline_coordinator.rs:635-823 | The status of the task after an honest response, read from the newest row of the run. |
| RunEffects.NoneLeftRecovering | src/pipeline_coordinator.rs:635-823 | A consumed honest response leaves its task recovering exactly when it is a retry that finds no row of the task's stage. |
| RunEffects.SplitAnswers | src/pipeline_coordinator.rs:872-938 | A decomposition that is agreed and names subtasks marks the task and adds them below it; any other only consumes the request. |
| RunEffects.SplitElsewhere | src/pipeline_coordinator.rs:872-938 | A run that does not hold the task loses at most a request. |
| RunEffects.TickAnswers | src/pipeline_coordinator.rs:980-1048 | A row that has run for more than 300 s is closed with its error text and the newest task fails; otherwise nothing changes. |
| RunEffects.HandedOver | src/pipeline_coordinator.rs:355-431 | In every reachable state that has lost no row: the result of a completed row is the input of the next, which carries the artifact of the accepted result; a skipped evaluation hands over no artifact; every dispatch carries artifact and input of the row it starts or reopens ("{}" after a skip); every accepted completion is followed by that dispatch. |
| RunLimits.ClosedRowsKeptIff | src/pipeline_coordinator.rs:635-823 | Acting on any response leaves every row that is closed for good as it is exactly when a retry picks the newest row while it is failed or running. |
| RunLimits.DisciplineKeptIff | src/pipeline_coordinator.rs:635-823 | Acting on any response keeps the rows in order and touches none but a failed newest one exactly when it reopens the failed newest row, or skips past a newest row that is closed and earlier. |
| RunLimits.StepKeptIff | src/pipeline_coordinator.rs:57-1054 | Any event, honest or not, keeps the invariant and the closed rows of a run exactly when it is tolerable: a consumed response, whatever run, task and request it names, is admissible in this run and reopens only a failed row; a deletion names an id or meets a run without its rows. |
| RunLimits.HistoryKeptIff | src/pipeline_coordinator.rs:57-1054 | A history of such events keeps both at every step exactly when each event is tolerable where it happens. |
| RunHistories.WrongAnswerReopens | src/pipeline_coordinator.rs:599-606 | A concrete history, allowed but for one recovery response that names a decomposition request, reopens a completed row beside a running one. |
| RunHistories.StrayAnswerReopens | src/pipeline_coordinator.rs:599-651 | A second one does so by a response that consumes a request of another run. |
| RunHistories.ForeignTaskAdvances | src/pipeline_coordinator.rs:615-752 | A third starts a second row by a response that names a task of another run. |
| RunHistories.LateAnswerReopens | src/pipeline_coordinator.rs:599-651 | A fourth, whose rows stay in order, reopens a newest row that has timed out. |
| RunHistories.EmptyIdReopens | src/socket_server.rs:997-1022 | A concrete history, allowed but for one deletion with an empty task id, reopens a completed row that is not the newest. |
| TaskDb.Database.CreatePipelineStage | src/task_db.rs:1264-1298 | One running row with retry count 0 is added to its run; no other run changes. |
| TaskDb.Database.UpdatePipelineStage | src/task_db.rs:1300-1323 | Exactly the row named gets the status, the agent, and the result and error or empty texts; no other run changes. |
| TaskDb.Database.RetryPipelineStage | src/task_db.rs:948-961 | Exactly the row named runs again with one more retry; no other run changes. |
| TaskDb.Database.GetPipelineRunStages | src/task_db.rs:1325-1343 | The rows of the run in creation order. |
| TaskDb.Database.GetStageRetryCount | src/task_db.rs:964-980 | The retry count of the newest row of the stage, or 0 without one. |
| TaskDb.Database.GetTimedOutStages | src/task_db.rs:1368-1387 | Exactly the running rows untouched for more than 300 s. |
| TaskDb.Database.GetTaskByRunId | src/task_db.rs:1015-1031 | The newest task of the run, subtasks included. |
| TaskDb.Database.UpdateTask | src/task_db.rs:806-859 | The given columns of the task named change; no other task and no other run does. |
| TaskDb.Database.DeleteTaskCascade | src/task_db.rs:878-945 | The root and its direct children go with exactly their logs and bindings, and the rows of the root's run; everything else stays; the count is the number of tasks removed. |
| Tables.MinusFamily | src/task_db.rs:895-930 | Ids being unique, deleting the collected ids one by one is deleting by parent link. |
| Tables.FindInRun | src/task_db.rs:747-760 | A lookup by id over all tasks and over those of one run agree about tasks of that run. |
| Cascade.WholeTreeIff | src/task_db.rs:895-930 | The whole tree below the root goes, at every depth, exactly when no grandchild is spared. |
| Cascade.OrphanIff | src/task_db.rs:895-930 | The tasks the cascade orphans are exactly the grandchildren it spares. |
| Cascade.OrphanFreeIffShallow | src/task_db.rs:895-930 | Where parents are older than their children, nobody is orphaned exactly when the tree is at most one level deep. |
| Coordinator.PipelineCoordinator.StartRun | src/pipeline_coordinator.rs:57-151 | A fresh run gets its learning row, its main task and its first dispatch; no other run moves. |
| Coordinator.PipelineCoordinator.CreateSubtasks | src/pipeline_coordinator.rs:532-587 | One pending unstaged task per entry joins the run under the parent. |
| Coordinator.PipelineCoordinator.OnStageResult | src/pipeline_coordinator.rs:156-525 | The run moves as the run machine says, every other run stays; a completed or failed result that was accepted leaves exactly one memory, any other none. |
| Coordinator.PipelineCoordinator.OnRecoveryResponse | src/pipeline_coordinator.rs:590-827 | Any response is one event of every run: nothing unless its request is pending; otherwise the decision on the rows of the run and the stage of the task that the message names, wherever they are. |
| Coordinator.PipelineCoordinator.SeesContext | src/pipeline_coordinator.rs:599-651 | What every run assumes of such an event is what the tables hold. |
| Coordinator.PipelineCoordinator.OwnAdvice | src/pipeline_coordinator.rs:599-651 | A response to a request of the run it names, whose task, if there is one, is of that run, moves that run as if it were the only one, and no other. |
| Coordinator.PipelineCoordinator.RequestDecomposition | src/pipeline_coordinator.rs:830-869 | A decomposition request is pending for the run of the task, under a new id, and stays pending when the emission fails and an error is returned. |
| Coordinator.PipelineCoordinator.OnDecomposeResult | src/pipeline_coordinator.rs:872-938 | Nothing unless the request is pending; otherwise it is consumed and the task named, in whatever run, is decomposed if agreed and entries are given. |
| Coordinator.PipelineCoordinator.CheckTimeouts | src/pipeline_coordinator.rs:980-1054 | Handling the stale rows of all runs one by one moves each run as one tick does. |
| Coordinator.PipelineCoordinator.DeleteTask | src/main.rs:1354-1398 | Abort, then cascade: every run moves as the run machine says, logs and bindings of the family go, count and ids are returned. |
| SocketServer.King.StartRun | src/pipeline_coordinator.rs:57-151 | A new run has one running learning row with the input, its main task and one dispatch; no other run moves; every run stays sound. |
| SocketServer.ResultOf | src/socket_server.rs:696-773 | A message without status stands for completed, without agent for "unknown", without artifact for none; every other field is taken as it is. |
| SocketServer.King.OnPipelineStageResult | src/socket_server.rs:696-773 | Messages without run id or valid stage are dropped; otherwise the run moves with the defaults filled in, every run stays sound, and one memory is added exactly when a running row was closed as completed or failed. |
| SocketServer.King.OnRecoveryResponse | src/socket_server.rs:334-373 | If the message repeats the request it consumes, every run stays sound and only its run moves. Any message keeps the invariant and the closed rows of a run exactly when it is tolerable there, and keeps the rows of the run it names in order, all but a failed newest one untouched, exactly when the verdict is safe. |
| SocketServer.King.OnDecomposeResult | src/socket_server.rs:375-414 | Every run stays sound whatever the message says. |
| SocketServer.King.DecomposeTask | src/main.rs:1401-1419 | A request is registered exactly when the task exists, and stays even when the emission fails and failure is answered; every run stays sound. |
| SocketServer.King.CheckTimeouts | src/pipeline_coordinator.rs:980-1054 | Every run makes one tick and stays sound. |
| SocketServer.King.OnTaskDelete | src/socket_server.rs:997-1061 | For a non-empty id every run stays sound; success is reported exactly when a task went. |
| SocketServer.King.OnTaskCreate | src/socket_server.rs:805-867 | A missing, empty or over-long type is refused; otherwise one task outside every run is added; no run moves. |
| SocketServer.King.Restart | src/pipeline_coordinator.rs:46-53 | The pending requests are gone, the tables stay, every run stays sound. |
| SocketServer.King.EveryRunIsDisciplined | src/pipeline_coordinator.rs:57-1054 | In the tables of a sound king: at most five rows a run in stage order, only the newest running, at most three retries a row and 20 dispatches a run. |
| SocketServer.King.StagesHandOver | src/pipeline_coordinator.rs:355-431 | The hand-over from stage to stage holds of the shared tables. |
| SocketServer.King.OneRecoveryPerRun | src/pipeline_coordinator.rs:282-292 | Over the shared map, at most one recovery request is pending for a run. |
| Gate.AtMostOnce | src/pipeline_coordinator.rs:599-606 | Under any interleaving of handlers a request with a fresh id passes the gate at most once. |
| Gate.RestartForgets | src/pipeline_coordinator.rs:46-53 | A response admitted after a restart answers a request made since. |
| Gate.DropForgets | src/pipeline_coordinator.rs:282-323 | A response to a request that was withdrawn answers a later insertion. |
| Gate.ActsOnceAdmitted | src/pipeline_coordinator.rs:599-606 | A handler acts only after it was admitted, and not across a restart. |
| Gate.StaleIsInvisible | src/pipeline_coordinator.rs:880-889 | Deleting every step the coordinator takes for a stale or duplicate response, from any interleaving, leaves the final state unchanged, whatever admitted handlers do; the log entry made before the coordinator is asked stays. |
| Gate.OneHandlerKept | src/pipeline_coordinator.rs:599-606 | Of all handlers that bring answers to one request at most one is admitted. |
| TraceDb.TraceStore.StoreTraceData | src/trace_db.rs:10-98 | The tables stay the fold of everything delivered. Of each trace and span id in a request the last span is stored, column by column as sent, under the service of its resource, with signed times and their difference kept in 64 bits; no other stored span changes. |
| TraceDb.DeliveriesInOrder | src/trace_db.rs:13-18 | A request delivers exactly its spans, in the order of resources, scopes and spans, each with service and resource of its own. |
| TraceDb.TimesAreSigned | src/trace_db.rs:28-29 | Times are read as signed numbers of 64 bits: equal to what was sent, or less by 2^64. |
| TraceDb.EnvelopeBounds | src/trace_db.rs:44-71 | A trace row holds the least start, the greatest end, the greatest status and the number of deliveries, and service, root and resource of the first. |
| TraceDb.DurationIff | src/trace_db.rs:28-54 | The duration is end minus start except for a lone delivery whose difference saturates; below 2^63 always. |
| TraceDb.PermutationInvariant | src/trace_db.rs:44-71 | Order does not matter to start, end, duration, status and count; the rows are equal exactly when the first deliveries agree on service, name and resource. |
| TraceDb.SameDeliveriesSameTraces | src/trace_db.rs:13-98 | Two stores that saw the same deliveries, in any order and batching, hold the same traces with the same aggregates, whatever their times. |
| TraceDb.StoredSpansExactly | src/trace_db.rs:73-97 | The stored spans of a trace are those delivered, each as last delivered. |
| TraceDb.EnvelopeCovers | src/trace_db.rs:44-97 | A trace row covers every stored span of its trace. |
| TraceDb.LoneSpan | src/trace_db.rs:30-97 | The only span of a trace has the duration of the trace. |
| TraceDb.SpanCountIff | src/trace_db.rs:49-79 | The span count equals the number of stored spans exactly when no span id was delivered twice. |
| Timestamps.DayByDay | src/task_db.rs:1368-1370 | The reference time counts a calendar day, over month ends, leap days and new years, as 24 hours. |
| Timestamps.DayFormula | src/task_db.rs:1368-1370 | The number of a day is that of the closed Gregorian formula. |
| Timestamps.ReadBack | src/task_db.rs:1368-1370 | Date and time of every printed stamp can be read back from fixed positions, followed by fraction and offset. |
| Timestamps.FractionIsGroups | src/task_db.rs:1370-1370 | The 0, 3, 6 or 9 fractional digits are the groups of milli-, micro- and nanoseconds without the zero groups at the end. |
| Timestamps.TextOrderIsTimeOrder | src/task_db.rs:1368-1377 | For UTC instants of the years 0 to 9999, text order is time order and equal text is equal time, although digit counts differ. |
| Timestamps.CutoffSelectsStale | src/task_db.rs:1368-1377 | The text condition of the timeout query selects exactly the rows untouched for more than 300 s. |
| Timestamps.PurgeSelectsByTime | src/task_db.rs:1666-1676 | A purge keeps exactly the entries not older than the instant it names. |
| Timestamps.SortedTextIsSortedTime | src/task_db.rs:1325-1343 | ORDER BY a stamp: a table is sorted by text exactly when it is sorted by time. |
| Timestamps.GreatestTextIsLast | src/task_db.rs:964-1031 | ORDER BY a stamp DESC LIMIT 1: in a table in creation order the greatest text is that of the last entry and of no other. |
| Timestamps.ZuluWindowIff | src/task_db.rs:1771-1778 | A bound of the same instant that ends in Z selects by time exactly unless a stamp lies in its second with a fraction that begins like it (from a bound on), or begins like it and goes on (up to a bound). |
| Like.PlainWord | src/memory_db.rs:536-541 | For a word without wildcards the condition is containment up to ASCII case. |
| Like.FoldIff | src/memory_db.rs:536-541 | Two characters are alike exactly when equal or the two cases of one ASCII letter. |
| Like.SearchMeansContainmentIff | src/memory_db.rs:536-541 | The condition means containment on every text exactly when the word holds neither `%` nor `_`. |
| Queries.ListsIff | src/task_db.rs:763-802 | Filtering a table and cutting out a page yields the wanted rows at increasing places of the table, all of them, from the offset on up to the limit; the count is their number. |
| Queries.ListTasks | src/task_db.rs:763-802 | For every combination of filters: exactly the tasks whose status, agent and parent are those given, in table order, up to the limit. |
| Queries.ListSocketEvents | src/task_db.rs:1742-1810 | Exactly the events that match five filters, in table order, from the offset on up to the limit; bounds are compared as text, whatever the caller writes. |
| Queries.WindowIsTime | src/task_db.rs:1771-1778 | With bounds printed as the king prints its stamps, the events selected are those of the time interval. |
| Queries.ZuluWindow | src/task_db.rs:1771-1778 | With bounds that end in Z, exactly when an event is still selected by time. |
| Queries.CountSocketEvents | src/task_db.rs:1812-1856 | The number of events that match the filters. |
| Queries.PagesCoverTheCount | src/task_db.rs:1742-1856 | Pages that cover the count join to all wanted rows, each once, in order. |
| Queries.ListMemories | src/memory_db.rs:136-201 | Exactly the memories that match six filters, the tag by LIKE, in table order, up to the limit. |
| Queries.SearchMemories | src/memory_db.rs:503-565 | Without words: the listing, ignoring the tier. With words: exactly the memories that match the filters and have one tier that, together with the key, holds every word, each once, in order. |
| Queries.DistinctJoin | src/memory_db.rs:521-527 | Joining with the tiers and dropping duplicates keeps each memory with a passing tier once, in order. |
| SetClauses.UpdateTask | src/task_db.rs:806-847 | The built statement replaces exactly the given values and the stamp of the task named. |
| MemoryDb.UpsertTier | src/memory_db.rs:310-357 | Check-then-write updates the map from (memory, tier) to content, for ids of no memory too; there stays one row per key. |
| MemoryDb.GetTier | src/memory_db.rs:379-395 | Reads that map. |
| MemoryDb.DeleteTier | src/memory_db.rs:397-409 | Removes the key from the map and reports whether it was there. |
| MemoryDb.BindTaskMemory | src/memory_db.rs:413-437 | Adds the pair to the set of bindings, once, for ids of no memory too. |
| MemoryDb.DeleteMemory | src/memory_db.rs:244-271 | No tier and no binding of the memory is left, every other one is, and the answer tells whether it existed. |
| MemoryDb.Perform | src/memory_db.rs:244-411 | Any sequence of upserts and deletions leaves what the map would hold. |
| MemoryDb.SetIsMapUpdate | src/memory_db.rs:328-336 | Updating the row found by id is updating the map at its key. |
| MemoryDb.DeleteIsMapRemoval | src/memory_db.rs:247-253 | Deleting rows by memory, or by memory and tier, is removing those keys. |
| MemoryDb.ExtractStageMemory | src/pipeline_coordinator.rs:1062-1116 | One memory of the stage's category is added with exactly the tiers l0, l1 (the first 2000 characters) and l2, bound to the task if there is one. |
| UpdateScript.ParseOptions | update.sh:494-514 | The script goes on exactly when every flag is --keep-backup, and keeps the backup exactly when there is one; otherwise the first other flag decides: 0 for help, 2 for anything else. |
| UpdateScript.OneMeaning | update.sh:494-514 | That fixes the outcome for every list of flags. |
| UpdateScript.EvoHome.Backup | update.sh:186-220 | An installed component's backup is its present content, an older one is replaced; nothing happens otherwise. |
| UpdateScript.EvoHome.Rollback | update.sh:226-253 | The backup becomes the content and is gone; without one nothing happens. |
| UpdateScript.EvoHome.Perform | update.sh:547-622 | Exit 0: verified new content, its version in the manifest. Exit 1 of an installed component: exactly the previous content, manifest untouched; otherwise a stale backup comes back or what was placed stays. |
| UpdateScript.EvoHome.RunScript | update.sh:484-637 | From the arguments on: when it stops early, with which code; what content, manifest and backup are on success; and exit 1 leaves the content as it was exactly if the component was installed, or had no backup and nothing was placed. |
| UpdateScript.EvoHome.RunEach | update.sh:484-637 | Any sequence of updates of installed components keeps them installed and the manifest in agreement. |
| BashOutput.Collect | src/main.rs:942-1036 | For any chunks and flush timing: logs concatenate to the output, chunks are streamed in order with indices 0, 1, ... modulo 2^32, and the preview is the first 8192 bytes. |
| BashOutput.ConcatJoins | src/main.rs:942-1036 | The output is its chunks, one after the other, with nothing between. |
| VersionString.FirstLineExact | src/system_discovery.rs:322-322 | The line read is what stands before the first line feed. |
| VersionString.TrimExact | src/system_discovery.rs:322-322 | Trimming takes all white space from both ends and nothing else. |
| VersionString.WordsSplit | src/system_discovery.rs:323-324 | White space separates words and nothing else does. |
| VersionString.CleanedIff | src/system_discovery.rs:326-334 | A word cleans to a version exactly when it is that version with at most one v before it and any commas after it. |
| VersionString.ParseShape | src/system_discovery.rs:321-336 | The result is the version borne by the first word of the first line that bears one (digit first, a dot, no comma at the end), or the trimmed first line when none does. |
| VersionString.FindsVersion | src/system_discovery.rs:317-336 | A version after words that bear none is found, whatever follows the line. |
| VersionString.FindsAlone | src/system_discovery.rs:317-336 | A version alone is found with and without a v and commas. |
| VersionString.ParseTwice | src/system_discovery.rs:321-336 | Parsing is idempotent on every string. |

## Left out

- TaskDb.Database.UpdateTask: does not model the agent, payload, summary and stamp columns, because the coordinator decides nothing on them; `SetClauses.UpdateTask` covers the statement in full.
- Coordinator.PipelineCoordinator.CreateSubtasks: does not model task type, payload and summary of a subtask, which are copied from the message and not read again by the modelled code.
- Socket.IO emission, rooms and dashboard broadcasts: only dispatches and recovery requests are recorded, and whether a recovery request could be emitted is an input.
- libSQL, WAL, busy timeouts and database errors: the tables are sequences and every statement succeeds.
- Interleaving inside a handler: each handler of the coordinator is one atomic method; only the gate around the pending requests is modelled step by step (`Gate`). Two concurrent upserts of one tier could insert two rows.
- Ties between creation stamps, and the order of rows that tie in a query.
- JSON, payloads, summaries, log texts, task types and agents of tasks; `update_task` is modelled on status and stage in `TaskDb` and in full in `SetClauses`.
- Writes to pipeline tasks from outside the coordinator (task:update, task:summary, debug:response), cron jobs and their `update` rows, agent spawning, heartbeats and respawning, the gateway, the config watcher, the doctor, HTTP plumbing and the PTY.
- Launching update.sh from an approved self-upgrade.
- An answer to a recovery request: nothing in the code forces one, so nothing is proved about its arrival.
- Stamps outside the years 0 to 9999 and leap seconds.
- Integer overflow in SQLite: span counts and retry counts are exact integers here, and so is the difference of two times, which SQLite turns into a floating-point number where it leaves 64 bits.
- Cutting text inside a multi-byte character, which stops the bash loop in the source: output is bytes here and characters in stage memories.
- Failing moves, copies and edits of repos.json in update.sh, archives that touch other paths, and the body of verify_binary, whose verdict is an input.
- cleanup_old_traces and the trace queries, the read-only listings not named above, and the relevance score, metadata and access count of memories.
