# Verified model of the Arda agents

Arda is a set of small agents that keep their state in Redis keys, in-memory tables and message
histories.  This project models the parts whose correctness depends on several operations agreeing with
each other, and proves what those operations keep over every run or every interleaving.

| part | modules | what is proved |
|---|---|---|
| Tom Bombadil's film notes | `SortedSets`, `NoteIndex`, `NoteStore`, `NoteRuns` | the secondary indexes always say exactly what the notes say; one live note per film, watcher and week, exactly when no name pair can be freed under another that shares its key; saving and deleting is a round trip |
| Sauron's tool loop | `ToolLoop`, `Conversation`, `Orchestrator` | the loop ends within its limits, exactly which rounds are the last is settled by the last failure and the limit, and over any number of turns every tool result answers the request just before it |
| Galadriel's cron jobs | `CronQueue`, `CronRuns`, `CronClaims` | one worker keeps blobs and queue in agreement exactly when it can reschedule what it claims; with many workers each insertion is claimed and run at most once, and exactly when every claim is of a due entry |
| Earendil's commands and tasks | `ShellPolicy`, `TaskQueue`, `Waiting` | only allowed commands run; task statuses never go back, and exactly when a terminal one is final; tasks are neither lost nor doubled in the queue; waiting is truthful and bounded |
| limiters | `SlidingWindow`, `TokenBucket`, `DailyBudget` | each limiter's numeric bound, and that eviction, expiry and pruning never change an answer |
| rating drafts | `Drafts` | every draft is in one place; it is committed once exactly when it can be deleted, and by its author alone exactly when every push is stamped |
| Letterboxd import and sync | `FilmMerge`, `FilmDatabase`, `MergeProgram`, `DiarySync` | merging is conservative and idempotent and leaves its input alone; the sync hands on an entry exactly when it is newer than everything completed runs saw before |

## How it is modelled

- An object, or a group of Redis keys, that the program updates in place is a class whose fields are maps
  and sequences; each method's `ensures` equates the new contents with a function of the old contents, and
  the theorems are about those functions and about runs of them.  The merge works on mutable film and
  watcher records and lists of themes on the heap.
- Protocols with several participants (`CronClaims`, `TaskQueue`, `Drafts`, `DailyBudget`) are state
  machines whose steps are single store commands, or the stretch between two waits of an event loop; a
  sequence of actions is an interleaving.  Fields that only record what happened are never read by a step.
- There is one clock: microseconds in the note store, milliseconds in the cron queue, reals elsewhere.
  Floats are reals.  A note, job or task id is a fresh number; a number also stands for the rank of a
  sorted-set member in Redis byte order.
- Text operations (`strip`, `lower`, white space, digits of a number, keyword patterns) and path resolution
  are arbitrary functions passed in.  Assumed of them: a blank is white space (`ShellPolicy.BlankIsSpace`);
  lower-casing twice is lower-casing once and "cinema" is unchanged by cleaning (`FilmMerge.Sane`); digits
  are never empty, hold no vertical bar and differ for different numbers (`FilmMerge.Decimal`); a resolved
  path consists of non-empty names without a slash (`ShellPolicy.ResolvesToNames`).  Of a cron library: the
  next firing lies strictly after the given time (`CronQueue.MovesForward`).  Each is used only where a lemma
  names it.  Nothing is assumed of models, specialists, subprocesses or feeds.
- The note store's deduplication key is a hash of film, watcher and week joined with a vertical bar.  The
  hash is taken as injective; the join is not, and that matters (see below).

## Where the code does less than its documentation says

Each point has the exact condition under which the property holds, and a run that breaks it otherwise.

- Weekly uniqueness.  "a|b" by "c" and "a" by "b|c" share a key, and a delete of the one frees the other's.
  Notes stay unique exactly when no storable name pair shares its key with another that a delete can free
  while it is live (`NoteRuns.WeeklyUniqueness`); for names that are not blank that is: when no two share a
  key (`NoteRuns.UsableNamesExactly`).
- A dispatch that fails with an empty error text does not end the tool loop.  A round is the last, whatever
  the model answers next, exactly when its last failure has a text or the limit is met
  (`Conversation.RoundIsLastExactly`).
- A claimed cron job whose expression cannot be evaluated is never requeued, and takes the rest of its
  batch with it (`CronRuns.PollKeepsAgreement`).  A job deleted while it runs is saved again
  (`CronRuns.DeletedWhileRunningReturns`).  With two workers a stale candidate list claims a requeued job
  before it is due; all claims are due exactly when nothing due at a scan can be queued for a time after
  that scan (`CronClaims.ClaimsAreDueExactly`).
- A worker that gets no reply to the write of a completed result overwrites it with "failed"
  (`agents/earendil/worker.py:72-85`).  A terminal reading is final exactly when no worker is about to do so
  (`TaskQueue.TerminalIsFinalExactly`).
- `api/demo.py:42` calls the worst case "reserved"; nothing is reserved, and the daily cap can be exceeded
  by the worst case of every request in flight but one (`DailyBudget.OvershootIsReached`).
- `Retry-After` is cut to whole seconds, so a client that waits exactly that long can be refused again
  (`SlidingWindow.RetryAfterSuffices`).
- `wait_for_tasks` drops the error text of a command that ran and failed; success still shows
  (`Waiting.OutputShowsSuccess`).
- A draft pushed without its author's id can be committed by whoever's turn pops it.  Authors alone commit
  exactly when every push is stamped (`Drafts.AuthorsOnlyExactly`).  A confirmed draft that cannot be deleted
  can be confirmed again; it is committed once exactly when it was deleted (`Drafts.CommittedOnceExactly`).
- A diary entry added later under a date the sync has already seen is never saved
  (`DiarySync.LateEntryIsLost`).  A run cut off before it writes the watermark is repeated; the exact
  condition under which an entry is due again is `DiarySync.HandedOnAgainExactly`.

## Model

| member | source | states |
|---|---|---|
| SortedSets.RangeByScoreIsDue | agents/galadriel/store.py:70-70 | the range read for due jobs holds min(limit, due) members, each with a score from 0 up to the given time, in order of score and then of member |
| SortedSets.RangeByScoreIsEarliest | agents/galadriel/store.py:70-70 | no member that is due is passed over for one with a later score |
| NoteIndex.AddAgrees | agents/tombombadil/persistent_memory.py:74-85 | the sorted-set, stats and name-set writes of a save keep an index equal to what the notes say |
| NoteIndex.RemoveAgrees | agents/tombombadil/persistent_memory.py:151-175 | the writes of a delete and its clean-up keep an index equal to what the notes say |
| NoteIndex.AgreementIsExact | agents/tombombadil/persistent_memory.py:61-87 | given the notes, an agreeing index is unique: agreement fixes every set, count, sum and name |
| NoteStore.NoteStore.SaveNote | agents/tombombadil/persistent_memory.py:28-105 | every branch of a save, with its reply and the whole new store: refusals and duplicates write nothing, a failed transaction gives the key back |
| NoteStore.NoteStore.InsertTransaction | agents/tombombadil/persistent_memory.py:61-87 | the ten queued commands together add the note to the table, both indexes and the list of all notes |
| NoteStore.NoteStore.FindTarget | agents/tombombadil/persistent_memory.py:122-146 | the search loop returns the first match among the exact title's notes, or among all notes when the title has none |
| NoteStore.FirstMatchIsFirst | agents/tombombadil/persistent_memory.py:131-146 | the match found is the first in the list; none is found only if none matches |
| NoteStore.NoteStore.DeleteNote | agents/tombombadil/persistent_memory.py:108-189 | every branch of a delete, with its reply and the whole new store |
| NoteStore.NoteStore.EraseTarget | agents/tombombadil/persistent_memory.py:151-181 | transaction, clean-up of both indexes and clearing of the current week's key, under the stored title |
| NoteStore.NoteStore.DeleteTransaction | agents/tombombadil/persistent_memory.py:151-160 | the commands of the transaction together take the note out of the table, both indexes and the list |
| NoteStore.NoteStore.DropIfUncounted | agents/tombombadil/persistent_memory.py:163-175 | an index drops a name's stats when nothing is counted, and its set and name when the set is empty too |
| NoteStore.WeeksExactly | agents/tombombadil/persistent_memory.py:48-48 | two moments share a deduplication week if and only if they lie in one week from Monday to Sunday |
| NoteStore.KeyLivesSevenDays | agents/tombombadil/persistent_memory.py:52-55 | the key of a saved note is held for exactly seven days |
| NoteRuns.StepKeepsIndexed | agents/tombombadil/persistent_memory.py:28-189 | any save or delete keeps both indexes and the list of all notes in agreement |
| NoteRuns.IndexAgreement | agents/tombombadil/persistent_memory.py:61-175 | after any run of saves and deletes every index holds exactly the matching ids, counts, sums and names |
| NoteRuns.CurrentWeekKeyIsHeld | agents/tombombadil/persistent_memory.py:48-55 | a deduplication key of the current week has not expired: seven days outlast the week |
| NoteRuns.TargetIsNewest | agents/tombombadil/persistent_memory.py:122-146 | a delete picks the newest note of its film and watcher, also on the case-insensitive fallback |
| NoteRuns.FoundIsNewest | agents/tombombadil/persistent_memory.py:122-146 | the note a delete takes out is newer than every other note it could have gone for |
| NoteRuns.StepKeepsSafe | agents/tombombadil/persistent_memory.py:48-57 | any operation keeps one note per film, watcher and week, a key for each current note and a note for each current key, when no name can be freed under another with its key |
| NoteRuns.RunIsSafe | agents/tombombadil/persistent_memory.py:28-189 | so does any run from the empty store, with time passing between the operations |
| NoteRuns.NamesCollideExactly | agents/tombombadil/persistent_memory.py:12-14 | two name pairs share a key if and only if one film continues the other past a vertical bar and the watchers make up for it |
| NoteRuns.SeparatorFreeFilmsNeverCollide | agents/tombombadil/persistent_memory.py:12-14 | titles without the separator never share a key, whatever the watchers are called |
| NoteRuns.CollisionBreaksUniqueness | agents/tombombadil/persistent_memory.py:12-14 | any two names, blank or not, that share a key and of which a delete can free the one while the other is live have a legal run that ends with two notes of one week |
| NoteRuns.WeeklyUniqueness | agents/tombombadil/persistent_memory.py:48-57 | for all names, blank ones included: every run keeps one live note per film, watcher and week if and only if no storable name pair shares its key with another that a delete can free under it |
| NoteRuns.UsableNamesExactly | agents/tombombadil/persistent_memory.py:12-14 | for names that are neither blank nor changed by stripping, that condition is: no two of them share a key |
| NoteRuns.DuplicateMeansLiveNote | agents/tombombadil/persistent_memory.py:52-57 | a save is refused as a duplicate if and only if its rating is in 0..10 and a live note of the same names was made in the same calendar week |
| NoteRuns.SaveSucceedsExactly | agents/tombombadil/persistent_memory.py:34-96 | the reply of every save is decided by its rating, by whether a note of its names was made in this calendar week, and by the transaction; the notes gain exactly that note if it was saved and stay as they are otherwise |
| NoteRuns.DeleteFindsExactly | agents/tombombadil/persistent_memory.py:115-151 | the reply of every delete, blank names included, is decided by the names and by whether the watcher has a note under that very title or, when no note has it, under one differing in case; exactly the newest such note goes, and otherwise nothing changes |
| NoteRuns.SaveThenDelete | agents/tombombadil/persistent_memory.py:28-189 | a successful save and a delete of the same names in the same week restore the whole store, if and only if neither name is blank |
| ToolLoop.RunAgentStep | agents/sauron/graph.py:70-119 | the block loop yields the kept blocks, the tool uses in order and the last text; a failed call only sets the error and counts |
| ToolLoop.KeptExactly | agents/sauron/graph.py:90-104 | the assistant message keeps every tool use and text in order and nothing else |
| ToolLoop.UsesExactly | agents/sauron/graph.py:92-100 | the pending tools are all tool uses of the response, in order |
| ToolLoop.LastTextExactly | agents/sauron/graph.py:88-104 | the text spoken is the last of the response, or the one before if it has none |
| ToolLoop.RunDispatchStep | agents/sauron/graph.py:121-174 | the dispatch loop answers every pending tool use in order; intent from the first answer, result from the last, error from the last failure |
| ToolLoop.DispatchReportsExactly | agents/sauron/graph.py:128-170 | the k-th block of the results message answers the k-th pending tool under its id: by that tool's own result, by its own exception's text, or as unknown; nothing else of the history changes |
| ToolLoop.ResultLeftExactly | agents/sauron/graph.py:125-139 | the result left is that of the last tool answered, or the one before |
| ToolLoop.IntentLeftExactly | agents/sauron/graph.py:124-138 | an intent once found stays; otherwise it is the specialist of the first tool answered |
| ToolLoop.ErrorLeftExactly | agents/sauron/graph.py:126-173 | the error left is that of the last tool that failed; none is left if none failed |
| ToolLoop.RunLoop | agents/sauron/graph.py:176-192 | the graph run is the loop specification, and terminates |
| Conversation.LoopIsBounded | agents/sauron/graph.py:176-192 | calls and rounds alternate, starting and ending with a call; at most `max_iterations` calls and one round fewer |
| Conversation.TurnIsBounded | agents/sauron/graph.py:176-192 | a turn makes at least one model call and at most `max_iterations`, with one round fewer |
| Conversation.ErrorEndsTheLoop | agents/sauron/graph.py:151-181 | for any round of a turn: whatever the model answers from then on, the turn ends after one more call if and only if the round's last failure has a text or the limit is met |
| Conversation.RoundIsLastExactly | agents/sauron/graph.py:121-181 | the same read off the state before a dispatch, and so known before the next call of the model |
| Conversation.TurnRoundIsLast | agents/sauron/graph.py:176-181 | within a turn: the round after the c-th call is the last, whatever follows, if and only if its last failure has a text or c + 1 reaches the limit |
| Conversation.SilentFailureIsRetried | agents/sauron/graph.py:159-178 | a witness: a tool that fails with an empty text is dispatched again |
| Conversation.IntentIsFirstAnswer | agents/sauron/graph.py:124-139 | the turn's intent is the specialist of the first answered dispatch, its result the last answer, across all rounds |
| Conversation.TurnIsReported | agents/sauron/graph.py:86-169 | the final text is the last the assistant spoke in the turn, and the model is told the outcome of every dispatch in order |
| Conversation.LoopKeepsTurn | agents/sauron/graph.py:86-181 | a turn appends one alternating stretch in which only the last assistant message may be unanswered |
| Conversation.HistoryGrows | agents/sauron/agent.py:84-101 | a thread's history is append-only |
| Conversation.ResultsAnswerUses | agents/sauron/graph.py:86-181 | over any number of turns each tool-result message answers exactly the uses just before it, and a use is left unanswered if and only if it closes a turn that ended with tools pending |
| Conversation.CleanTurnsSettle | agents/sauron/agent.py:84-101 | when every turn ended cleanly the whole history alternates, ends with the assistant, and nothing is unanswered |
| Conversation.SettledExactly | agents/sauron/agent.py:84-101 | over any number of turns the history alternates, ends with the assistant and leaves nothing unanswered if and only if the last model call of every turn was answered and asked for no tool |
| Orchestrator.EnvelopeWithoutAnswer | agents/sauron/agent.py:111-150 | without a specialist's answer, completed means a final text and no error; failed if and only if an error is given, which is the one that stands or the fixed text for no result |
| Orchestrator.EnvelopeWithAnswer | agents/sauron/agent.py:111-150 | with one, intent is the first answering specialist, result and status are those of the last answer, and the error is the one that stands or else the answer's own |
| Orchestrator.FirstCallFails | agents/sauron/graph.py:79-84 | a first model call that raises ends the run as failed, with its text, and leaves the message unanswered |
| Orchestrator.ToolsExactly | agents/sauron/tools.py:97-108 | each of the four tools is offered if and only if its specialist is registered, and leads to it |
| Orchestrator.SixCallsAtMost | agents/sauron/graph.py:176-192 | a run makes at most six model calls; a round without an error text is the last, whatever follows, if and only if it is the fifth |
| Orchestrator.Sauron.constructor | agents/sauron/agent.py:42-59 | a new orchestrator has the given specialists and no thread |
| Orchestrator.Sauron.Register | agents/sauron/agent.py:61-70 | a registered specialist is added, threads are kept |
| Orchestrator.Sauron.Run | agents/sauron/agent.py:72-150 | a run adds one turn to its thread (named by the task when no thread is given) and returns that turn's envelope; an empty message fails and changes nothing |
| CronQueue.JobStore.SaveJob | agents/galadriel/store.py:36-41 | the blob is stored, and queued at its next run time if enabled and scheduled, else taken off |
| CronQueue.JobStore.DeleteJob | agents/galadriel/store.py:61-65 | blob and queue entry go; the answer says whether the blob existed |
| CronQueue.JobStore.PopDueJobs | agents/galadriel/store.py:68-79 | the claim loop takes the earliest due ids off the queue and returns the enabled jobs among them in order |
| CronQueue.JobStore.Reschedule | agents/galadriel/worker.py:129-148 | one-shots are deleted or disabled, cron jobs requeued; an unusable expression raises and changes nothing |
| CronQueue.JobStore.RunOne | agents/galadriel/worker.py:151-222 | time, duration, status, error and counter are recorded on the job, which is then rescheduled by a later reading of the clock |
| CronQueue.JobStore.PollOnce | agents/galadriel/worker.py:234-241 | a poll claims, then runs the claimed jobs in order until one raises |
| CronRuns.SaveKeepsAgreement | agents/galadriel/store.py:36-41 | a save keeps: queued at its own next run time exactly when stored, enabled and scheduled; the job reads back as saved and every other job is as it was |
| CronRuns.DeleteKeepsAgreement | agents/galadriel/store.py:61-65 | so does a delete, after which the job is gone and every other is as it was |
| CronRuns.PollKeepsAgreement | agents/galadriel/worker.py:234-241 | a poll keeps it if and only if every job it claims can be rescheduled |
| CronRuns.PollSettlesClaims | agents/galadriel/worker.py:129-219 | after such a poll each claimed cron job is queued for the first firing of its expression after it was rescheduled, each one-shot deleted or disabled, each run told on its job (time, duration, status, error text cut at 500), every other job untouched |
| CronRuns.ClaimedExactly | agents/galadriel/store.py:72-78 | the jobs a poll runs are exactly the stored and enabled ones among the ids it took |
| CronRuns.PollRunsExactly | agents/galadriel/worker.py:234-237 | such a poll runs a job once if it took its id and the job is stored and enabled, and otherwise not at all |
| CronRuns.NextRunExactly | agents/galadriel/scheduler.py:32-57 | a one-shot is next due at its own time unless that has passed, a cron job at the first firing of its expression; rescheduling fails exactly for a cron job without a usable expression |
| CronRuns.JoinErrorsAppend | agents/galadriel/worker.py:193-193 | error texts are joined by "; " in order |
| CronRuns.PollShrinksDue | agents/galadriel/worker.py:234-238 | the number of due entries falls by exactly min(limit, due) |
| CronRuns.RunKeepsAgreement | agents/galadriel/store.py:36-79 | any run of saves, deletes and polls that go through keeps the agreement |
| CronRuns.OneShotRunsOncePerSave | agents/galadriel/worker.py:138-148 | a job only ever saved as a one-shot is run at most as often as it is saved, whether or not polls go through |
| CronRuns.CounterCountsFailures | agents/galadriel/worker.py:187-222 | over any run in which clients do not save the job, its stored counter is the number of failures at the end of its own stored runs, and no error is stored exactly after a clean one |
| CronRuns.DeletedWhileRunningReturns | agents/galadriel/worker.py:129-148 | a job deleted between claim and reschedule is stored again unless it is a one-shot to be deleted after its run, and queued again if and only if it is an enabled cron job |
| CronClaims.StepKeepsExclusive | agents/galadriel/store.py:36-79 | every command of any worker or client keeps: no two claims of one insertion, and claims plus presence never exceed insertions |
| CronClaims.StepKeepsRunsExclusive | agents/galadriel/store.py:68-79 | every command keeps: each claim is held by its claimant only and run at most once |
| CronClaims.OneRunPerInsertion | agents/galadriel/store.py:68-79 | in any interleaving, claims of a job never outnumber its insertions and no insertion is run twice |
| CronClaims.UnrewrittenClaimsAreDue | agents/galadriel/store.py:70-75 | in any interleaving, a claimed entry not written again since its worker's scan was due |
| CronClaims.StaleCandidateIsClaimedEarly | agents/galadriel/store.py:70-75 | for every job, due time, scan time and later rewrite, the second worker claims the rewritten entry at its scan's time: early if and only if it was queued for later |
| CronClaims.ClaimsAreDueExactly | agents/galadriel/store.py:36-75 | every claim of every run is of a due entry if and only if nothing due at a scan can be queued for a time after that scan |
| ShellPolicy.WordsOfJoin | core/shell_policy.py:48-49 | splitting at white space undoes the single-space join |
| ShellPolicy.NormalizeIsIdempotent | core/shell_policy.py:48-49 | normalising twice is normalising once, and keeps the words |
| ShellPolicy.WordsSplitAtSpace | core/shell_policy.py:49-49 | the words on the two sides of any white-space character are all the words there are |
| ShellPolicy.SplitOfJoin | core/shell_policy.py:54-54 | splitting at single spaces undoes the join of at least one word |
| ShellPolicy.LsFormIsExact | core/shell_policy.py:52-63 | the path form is accepted if and only if the words are an `ls` form and an absolute path without ".." that resolves under a root; what runs is that form with the resolved path |
| ShellPolicy.RenderedPathReadsBack | core/shell_policy.py:60-63 | the path that is run is absolute, and its components are those of the resolved path |
| ShellPolicy.ListedExactly | core/shell_policy.py:29-39 | a command is allowlisted if and only if its words are those of one of the nine commands |
| ShellPolicy.CheckAgreesWithLaunch | core/shell_policy.py:66-84 | the check accepts exactly what the launch accepts, returns the words joined by single spaces, and checking first changes neither |
| ShellPolicy.AllowedRunsAsItsWords | core/shell_policy.py:80-80 | an allowlisted command is launched as its own words |
| ShellPolicy.OnlyAllowedRuns | core/shell_policy.py:77-84 | with the escape hatch off no shell is used, and an argument list is either the words of one of the nine commands or `ls` or `ls -la` with the resolved path written out, whose components extend a configured root; refusals are exactly the rest |
| ShellPolicy.HatchRunsTheRest | core/shell_policy.py:69-84 | with the escape hatch on nothing is refused, and a shell runs exactly what neither the list nor an `ls` form covers |
| ShellPolicy.PathIsNoOption | core/shell_policy.py:52-63 | the path argument of the `ls` form is absolute, so it cannot be read as an option |
| TaskQueue.FailsExactlyWhenRefused | agents/earendil/worker.py:31-97 | a task fails if and only if its type is unsupported, shells are off or a non-empty command is refused; what the enqueue check let through is not refused later |
| TaskQueue.StepKeepsOk | agents/earendil/worker.py:60-97 | every command of any client or worker, any death between two and any reply lost to the write of a result keeps the accounting of tasks, statuses and the queue |
| TaskQueue.QueueConservation | agents/earendil/worker.py:26-28 | tasks pushed are tasks popped followed by the queue, in order |
| TaskQueue.StatusNeverGoesBack | agents/earendil/worker.py:60-97 | statuses are written queued, running, one terminal value, which only a lost reply lets "failed" follow; of two readings the later is never behind |
| TaskQueue.TerminalIsFinalExactly | agents/earendil/worker.py:72-85 | a terminal reading is final, whatever happens next, if and only if no worker is about to overwrite it for a lost reply |
| TaskQueue.StatusLives | agents/earendil/worker.py:60-61 | a status is readable for exactly 300 seconds after it was written |
| TaskQueue.TaskGoesThrough | agents/earendil/worker.py:60-97 | what a reader finds after each command that takes a new task through the system: queued until it runs, then running, then its result; client and worker are free again |
| TaskQueue.LostReplyFails | agents/earendil/worker.py:72-85 | a worker that loses the reply to its result overwrites it with that error, stored or not; one that dies leaves "running" |
| TaskQueue.ExecuteTells | agents/earendil/worker.py:31-97 | the stored result tells which case it was: every kind of failure and every way a command ends has its own text |
| Waiting.OutputShowsSuccess | agents/earendil/agent.py:94-105 | a row shows an output if and only if its command ran and succeeded, and an error if and only if its task failed |
| Waiting.AllPresentRows | agents/earendil/agent.py:89-105 | when every task has a status there is one row for each, in request order |
| Waiting.RowsExactly | agents/earendil/agent.py:89-105 | an answer, partial or not, has a row for exactly the tasks with a status, in request order, each telling phase, output and error of its own status |
| Waiting.ReadAll | agents/earendil/agent.py:86-107 | one poll yields the rows of the tasks that have a status, and whether all are terminal |
| Waiting.WaitForTasks | agents/earendil/agent.py:81-115 | completed is reported if and only if all tasks are terminal at the last poll, the first such; otherwise time was up; there are at most two polls for each second allowed, and one more |
| Waiting.DefaultIsThirtyOnePolls | agents/earendil/agent.py:22-24 | with the default timings sleeps last at least half a second each and there are at most 31 polls; on a clock that only sleeps pass the time is up at the 31st and not before |
| Waiting.ReportedRowsStayTrue | agents/earendil/agent.py:89-110 | a row reported terminal, in a complete answer or a partial one, agrees with every later reading while the key lives, unless its worker was about to overwrite it |
| SlidingWindow.SlidingWindowLimiter.EvictStale | api/demo.py:60-61 | above 10,000 tracked keys exactly those without a live hit are dropped, below none, and every queue still tracks its record |
| SlidingWindow.SlidingWindowLimiter.Pruned | api/demo.py:63-64 | the pruning loop leaves exactly the live hits |
| SlidingWindow.SlidingWindowLimiter.Allow | api/demo.py:58-68 | a hit is accepted if and only if fewer than `limit` hits accepted before are live, whatever was evicted |
| SlidingWindow.SlidingWindowLimiter.RetryAfter | api/demo.py:70-73 | at least a second; short of the time until the oldest kept hit leaves by less than a second, and longer than it only if it is the one second |
| SlidingWindow.SlidingWindowLimiter.Ask | api/demo.py:382-388 | a refused request is told a delay, read off a second look at the clock, after which and a second more it is accepted; the delay alone suffices if and only if the time left was whole or at most one |
| SlidingWindow.PrunedQueueIsLive | api/demo.py:62-64 | a queue whose head is live is the live part of the full record |
| SlidingWindow.InSpanExactly | api/demo.py:58-68 | what the bound below counts: the accepted hits from the start of a span to before its end |
| SlidingWindow.SpansAreBounded | api/demo.py:58-68 | no span as long as the window holds more than `limit` accepted hits |
| SlidingWindow.LiveIsBounded | api/demo.py:58-68 | at no time are more than `limit` accepted hits live |
| SlidingWindow.RefusalEndsWithOldestHit | api/demo.py:63-66 | after a refusal, with no hit since, a later one is accepted if and only if the oldest live hit has left the window |
| SlidingWindow.RetryAfterSuffices | api/demo.py:70-73 | the announced delay plus one second always ends a refusal; the delay alone does if and only if the time left is a whole number of seconds or at most one |
| TokenBucket.Guards.CheckAndConsume | agents/tombombadil/guards.py:64-129 | every branch of a check, with owner bypass and store failures; other users' buckets are untouched |
| TokenBucket.CheckKeepsSound | agents/tombombadil/guards.py:104-129 | tokens stay between 0 and the maximum, whatever fails |
| TokenBucket.ExpiryIsTransparent | agents/tombombadil/guards.py:114-126 | over any run, with any failures, a bucket whose key expires after four periods answers like one that never expires |
| TokenBucket.ExpiredReadsFull | agents/tombombadil/guards.py:104-107 | an expired key, like one never written, reads as a full bucket |
| TokenBucket.AllowedWithinSupply | agents/tombombadil/guards.py:107-123 | the calls let through are covered by the tokens there were, the refill and the calls during a failure |
| TokenBucket.IntervalBound | agents/tombombadil/guards.py:107-123 | in any interval they number at most one full bucket plus the interval's share of a bucket per refill period plus the failures |
| TokenBucket.FaultsExactly | agents/tombombadil/guards.py:91-128 | what that bound counts as failures: the calls during which the store could not be read or written |
| TokenBucket.WaitIsExact | agents/tombombadil/guards.py:111-121 | after a refusal the next call is let through if and only if the unrounded wait has passed |
| TokenBucket.BackwardClockRefillsNothing | agents/tombombadil/guards.py:108-111 | a clock that went back refills nothing: the call is let through if and only if a whole token is left |
| TokenBucket.SomeAreNeverRefused | agents/tombombadil/guards.py:84-93 | owners, and everyone while the store cannot be read, are let through and nothing is written; a failing write changes no answer |
| TokenBucket.QuietPeriodRestoresAll | agents/tombombadil/guards.py:104-109 | after a refill period without calls, and for a new user, a full bucket of calls goes through at once |
| DailyBudget.TokenBudget.Roll | api/demo.py:84-87 | a new day starts at zero |
| DailyBudget.TokenBudget.CanAfford | api/demo.py:89-91 | after rolling the day, affordable means it fits under the cap; nothing is reserved |
| DailyBudget.TokenBudget.Charge | api/demo.py:93-95 | after rolling the day, what was used grows by the charge |
| DailyBudget.TokenBudget.Remaining | api/demo.py:97-100 | after rolling the day, what is left, never negative |
| DailyBudget.UsedIsTodaysTotal | api/demo.py:84-95 | over any run the counter is the sum of the charges since the day last changed |
| DailyBudget.AdmissionExactly | api/demo.py:389-393 | a request is admitted if and only if 3000 more tokens fit under the cap beside today's use, which is nothing on a new day |
| DailyBudget.EndingsExactly | api/demo.py:394-418 | a request that ends is no longer in flight, charged or not; only a charge is counted, on the day it is made |
| DailyBudget.StepKeepsWithin | api/demo.py:389-418 | every admission, charge, failure and midnight keeps: used plus what may still be charged is bounded |
| DailyBudget.OvershootIsBounded | api/demo.py:389-418 | the cap is never exceeded by more than the worst case of all but one of the requests ever in flight together |
| DailyBudget.OvershootIsReached | api/demo.py:389-418 | for every cap and number of requests some run meets that bound exactly |
| Drafts.StepKeepsOk | agents/tombombadil/bot.py:139-239 | every step of any handler, any expiry, any lost payload, failed offer and failed deletion keeps every draft in exactly one place |
| Drafts.Reachable | agents/tombombadil/draft_store.py:48-111 | so it holds in every reachable state |
| Drafts.PopTakesOldest | agents/tombombadil/draft_store.py:48-71 | in every reachable state a pop takes the draft of its scope that was pushed first among those still pending |
| Drafts.ReactionExactly | agents/tombombadil/bot.py:197-222 | a reaction of anyone but the requester changes nothing; a confirmation commits that draft once more, and either answer unbinds only its own message |
| Drafts.LossesExactly | agents/tombombadil/bot.py:161-181 | an expired list or binding and a failed offer lose their own drafts and nothing else |
| Drafts.CommitsAreThoseConfirmed | agents/tombombadil/bot.py:153-222 | each commit is of a pushed draft, by its stamped requester or, without one, by the user whose turn popped it; only a commit whose draft could not be deleted is followed by another of that draft |
| Drafts.CommittedOnceExactly | agents/tombombadil/bot.py:209-222 | a confirmed draft is never committed again, whatever happens later, if and only if it was deleted |
| Drafts.CommitsTraceBack | agents/tombombadil/bot.py:139-222 | every committed film, rating and viewer come from one push, popped later, in the committing user's own turn if the push was not stamped, and confirmed later still by that user |
| Drafts.OnlyTheAuthorCommits | agents/tombombadil/bot.py:153-155 | in a run whose drafts are all stamped only their authors commit them, however pops cross |
| Drafts.UnstampedDraftsCross | agents/tombombadil/bot.py:153-155 | any draft pushed without its author's id can be committed by any user whose turn pops it |
| Drafts.AuthorsOnlyExactly | agents/tombombadil/bot.py:153-155 | for every set of pushes: drafts are committed by their authors alone in every run if and only if every push is stamped |
| FilmMerge.InferredIsClean | agents/tombombadil/letterboxd_loader.py:77-105 | inferred themes are lower-case and never empty |
| FilmMerge.InferredExactly | agents/tombombadil/letterboxd_loader.py:84-105 | inferred themes are exactly the cleaned tags and keyword hits, the tags' first, or the fallback when there is neither |
| FilmMerge.MergeAt | agents/tombombadil/letterboxd_loader.py:313-370 | a film changes only by the entries of its key, and only if it is the last with that key |
| FilmMerge.MergeAdds | agents/tombombadil/letterboxd_loader.py:323-333 | an added film is a blank one of some entry with the entries of its key merged in, under a key no base film has |
| FilmMerge.KeysMatchExactly | agents/tombombadil/letterboxd_loader.py:202-203 | two titles and years have one key if and only if the titles agree but for case and surrounding blanks and the years are the same, year 0 counting as none |
| FilmMerge.OnlyNamedFilmsChange | agents/tombombadil/letterboxd_loader.py:313-333 | a base film changes only if some entry has its title and year and no later film does |
| FilmMerge.EntryThemesExactly | agents/tombombadil/letterboxd_loader.py:334-343 | an entry adds the inferred themes the film lacks, in any case, and never the fallback; a film without themes gets all of them |
| FilmMerge.EntryWatcherExactly | agents/tombombadil/letterboxd_loader.py:345-370 | an entry sets its viewer's rating and review if it carries them and themes if they are more than the fallback; a new viewer is put last |
| FilmMerge.FilmMergedParts | agents/tombombadil/letterboxd_loader.py:334-370 | themes and watchers of a film are merged independently |
| FilmMerge.WatcherMergedFields | agents/tombombadil/letterboxd_loader.py:357-370 | each field of the viewer's record ends as the last value the entries carry for it, or as it was |
| FilmMerge.FilmMergedTwice | agents/tombombadil/letterboxd_loader.py:319-370 | merging entries into one film twice is merging them once |
| FilmMerge.MergeTwiceIsOnce | agents/tombombadil/letterboxd_loader.py:319-370 | merging entries into all films twice is merging them once, even if base films or entries share a key |
| FilmDatabase.MergeIsConservative | agents/tombombadil/letterboxd_loader.py:289-370 | base films stay in front and in order, with their credits, their themes as a prefix and every other watcher unchanged |
| FilmDatabase.MergeAddsNewFilms | agents/tombombadil/letterboxd_loader.py:319-333 | the number of films grows by exactly the number of different titles and years among the entries that no base film has |
| FilmDatabase.AnotherYearIsAnotherFilm | agents/tombombadil/letterboxd_loader.py:202-333 | a film of the same title and another year is left alone and a second film is added |
| FilmDatabase.MergedRecordExactly | agents/tombombadil/letterboxd_loader.py:114-382 | the viewer's record holds the titles in order, the mean of the ratings given, the fixed style, and the derived themes or the curated ones when none are derived; nobody else's changes |
| FilmDatabase.MergeDatabaseTwiceIsOnce | agents/tombombadil/letterboxd_loader.py:289-384 | merging an export twice equals merging it once: films, watchers, themes and derived profile |
| FilmDatabase.InferredOnce | agents/tombombadil/letterboxd_loader.py:77-105 | inferred themes are listed once each |
| FilmDatabase.CountsAreWeights | agents/tombombadil/letterboxd_loader.py:140-163 | a theme's count is the total over the entries that show it of three points for a rating from 9, two from 7, one otherwise, and one more for a favourite; the fallback is not counted |
| FilmDatabase.CountedInOrder | agents/tombombadil/letterboxd_loader.py:143-163 | the themes are counted in the order in which the entries first mention them |
| FilmDatabase.MostCommonInOrder | agents/tombombadil/letterboxd_loader.py:167-167 | the most common go from the greatest count down and, at one count, by first mention |
| FilmDatabase.ThemesByTitleExactly | agents/tombombadil/letterboxd_loader.py:372-374 | the themes known for a lower-cased title are those of the last film that has it |
| FilmDatabase.RatingsGivenExactly | agents/tombombadil/letterboxd_loader.py:123-123 | the ratings averaged are those given, in order |
| FilmDatabase.MostCommonAreHeaviest | agents/tombombadil/letterboxd_loader.py:167-167 | as many names as asked for, none lighter than one left out |
| FilmDatabase.PreferredAreHeaviest | agents/tombombadil/letterboxd_loader.py:135-167 | the preferred themes are at most eight, all there are if they are fewer, each shown by some entry, none the fallback, none outweighed by another theme |
| FilmDatabase.PreferredInOrder | agents/tombombadil/letterboxd_loader.py:167-167 | they go from the heaviest down and, at one weight, by first mention |
| MergeProgram.InferThemesOf | agents/tombombadil/letterboxd_loader.py:77-105 | the inference loops compute the specification's themes |
| MergeProgram.CountThemes | agents/tombombadil/letterboxd_loader.py:140-163 | the counting loops compute the specification's counts, in order of first mention |
| MergeProgram.CopyFilm | agents/tombombadil/letterboxd_loader.py:306-317 | a copy of equal value that shares no record and no list of film themes with the original |
| MergeProgram.FilmRecord.UpdateThemes | agents/tombombadil/letterboxd_loader.py:334-343 | the film's list of themes, appended to in place, becomes the union without the fallback; a film without themes gets the inferred ones |
| MergeProgram.FilmRecord.FindWatcher | agents/tombombadil/letterboxd_loader.py:345-347 | the first watcher of that name, or none |
| MergeProgram.WatcherRecord.Overwrite | agents/tombombadil/letterboxd_loader.py:356-370 | only the fields the entry carries are overwritten, in place |
| MergeProgram.FilmRecord.UpdateWatcher | agents/tombombadil/letterboxd_loader.py:345-370 | the viewer's record is overwritten in place or appended; no other watcher changes |
| MergeProgram.MergeKnown | agents/tombombadil/letterboxd_loader.py:334-370 | an entry merged into the record found under its key changes that film only |
| MergeProgram.AddFilm | agents/tombombadil/letterboxd_loader.py:323-333 | an entry under a new key adds one film with fresh records |
| MergeProgram.CopyFilms | agents/tombombadil/letterboxd_loader.py:306-317 | all films are copied to fresh records and indexed by key, the last of several winning |
| MergeProgram.MergeFilms | agents/tombombadil/letterboxd_loader.py:289-370 | the loop over entries yields the merge of the base's values in fresh records and lists of themes, and modifies nothing that existed before |
| MergeProgram.TitleIndex | agents/tombombadil/letterboxd_loader.py:372-374 | the themes by lower-cased title, the last film of a title winning |
| MergeProgram.MergeIntoFilmDatabase | agents/tombombadil/letterboxd_loader.py:289-384 | films as above, and the people table with the viewer's derived record, which keeps curated themes when none are derived; nothing that existed before is modified |
| DiarySync.DiarySync.RunSync | agents/tombombadil/sync_job.py:115-169 | the run hands on the new rated entries oldest first and moves the watermark; fetched is new plus skipped, and saved counts exactly the accepted ones; a run cut off hands on the first of them and leaves the watermark |
| DiarySync.DiarySync.HandOn | agents/tombombadil/sync_job.py:131-157 | the loop hands on the rated entries up to a cut-off; as many count as saved as `save_note` accepted, the rest as failed |
| DiarySync.DiarySync.MoveWatermark | agents/tombombadil/sync_job.py:159-161 | the watermark moves to the latest new date, if there is one |
| DiarySync.DiarySync.Latest | agents/tombombadil/sync_job.py:160-160 | the latest date of some entries |
| DiarySync.SortedIsOrdered | agents/tombombadil/sync_job.py:129-129 | sorting loses nothing and puts the oldest first |
| DiarySync.SortedIsStable | agents/tombombadil/sync_job.py:129-129 | entries of one date keep the order of the feed |
| DiarySync.LeqExactly | agents/tombombadil/sync_job.py:124-126 | dates are compared as texts: a prefix comes first, else the smaller character where they first differ |
| DiarySync.PassedExactly | agents/tombombadil/sync_job.py:115-142 | exactly the rated entries dated after the watermark are handed on, oldest first, those of one date as often and in the order the feed has them |
| DiarySync.WatermarkIsLatest | agents/tombombadil/sync_job.py:159-161 | over any runs the watermark is the latest date any completed one showed, so it never decreases |
| DiarySync.PassedWhenNewest | agents/tombombadil/sync_job.py:115-142 | over any runs, cut off or not, an entry is due in a run if and only if its feed shows it, it is rated, and it is dated strictly after everything earlier completed runs showed |
| DiarySync.HandedOnAgainExactly | agents/tombombadil/sync_job.py:124-161 | what one run handed on is due again in a later one if and only if that one's feed shows it and no run since, the first included, completed having shown something as late |
| DiarySync.NoEntryTwice | agents/tombombadil/sync_job.py:124-161 | no entry handed on by a completed run is handed on by a later one |
| DiarySync.RepeatedFeedPassesNothing | agents/tombombadil/sync_job.py:124-127 | after a completed run, a run on the same feed hands on nothing |
| DiarySync.StoppedRunIsRepeated | agents/tombombadil/sync_job.py:131-161 | after a run that was cut off, the next on the same feed has everything to hand on again |
| DiarySync.LateEntryIsLost | agents/tombombadil/sync_job.py:124-127 | an entry that appears later under a date a completed run has shown is never handed on |

## Left out

Weaker than the source, by member:

- NoteStore.NoteStore.SaveNote: exceptions other than a failed transaction (a lost connection in the first `set`, or a lost reply after a transaction that did go through) are not modelled; their texts are not kept.
- NoteStore.NoteStore.DeleteNote: a rating that does not read back as a number counts as 0 in the source; stored ratings are numbers here.
- Orchestrator.Sauron.Run: an exception out of the graph library is not modelled; its step limit cannot be met, since six calls and five rounds stay far below it.
- CronQueue.JobStore.RunOne: what a run does outside the store, its announcement included, is part of its outcome.
- CronQueue.JobStore.PopDueJobs: a blob that does not parse raises in the source; blobs are typed records here.
- CronClaims.OneRunPerInsertion: what a run does to its job is not tied to the claim; every write of the queue, a rescheduling included, may happen at any time.
- TaskQueue.StatusNeverGoesBack: a caller may pass its own task id to `enqueue_task`; ids are assumed unused, as they are when the function chooses them.
- TaskQueue.FailsExactlyWhenRefused: error texts are shortened.
- TokenBucket.Guards.CheckAndConsume: a store that accepts the fields and then fails to set the expiry is not modelled, nor is the rounding of the displayed wait.
- MergeProgram.MergeFilms: a watcher's list of themes is a value; the merge never changes one in place. When two entries share a key, which an export keyed by title and year never holds, the source's new film and its viewer would share one list; here each has its own.
- DiarySync.DiarySync.RunSync: the answers of `save_note` are arbitrary; a failed fetch, which changes nothing, and announcements are left out. A watermark write that took effect but raised counts as completed.
- Drafts.CommitsAreThoseConfirmed: a reaction is one step, since the handler does not wait between reading and deleting the draft; two bot processes on one store are not modelled.
- DailyBudget.OvershootIsBounded: that a request costs at most the worst case is an assumption on the run, as in the source.
- ShellPolicy.OnlyAllowedRuns: shell-like tokenising is needed only for allowlist entries, which hold no quotes, so it is splitting at blanks; the file system does not change between resolving a path and running the command.

Parts of the repository that are not modelled:

- HTTP routes, the MCP server, Telegram and Discord transport, clients, metrics, logging and configuration: plumbing without state to reason about.
- `load_letterboxd_export`: reading three CSV files into one record per key, field by field; it would add only easy members.
- `plan_task`, `normalize_task`, the planner, the fact extractor and prompt building: lists of patterns and texts.
- Retrieval, embeddings, recommendation ranking, identity lookup, history trimming, evaluation and deployment scripts.
- Float rounding, JSON encoding and the hash function: reals, typed records and an injective key stand for them.
