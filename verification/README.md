# Proved models of the automation platform's cores

This project models the parts of the repository where a small mistake would go
unnoticed, and proves what they are for. The models follow the code branch by
branch; where the code falls short of what its name or comment suggests, the
model keeps the code and a lemma says exactly when the promise holds.

How the modules follow the repository:

| module | what it models |
|---|---|
| `Formula`, `FormulaLaws`, `Rules`, `Reconcile` (`Cells`, `Audit`) | the Excel audit: a formula evaluator that shortens two parallel lists and the laws of its values, conditions and rules, and a keyed join of two sheets |
| `ContentIndex` (`StableSort`, `Lexicographic`) | topic, speaker and timeline indexes that are updated batch by batch |
| `TaskBridge` | the multi-agent bridge with its dependency gate; calls overlap at the `await` |
| `JobStore`, `JobHistory`, `Export` | the media job table shared by many agents, what its columns say about the events behind them, and the batch export that drains it |
| `OAuth`, `StatePaths` | the profile registry, a client of the authorization code flow (section 4.1 of RFC 6749), over an arbitrary file system, and the POSIX paths of its files |
| `Canary` | the canary release manager and its p95 |
| `Approvals` | approval records, their expiry, and the forced dry run |
| `PdfText`, `PdfFile`, `PdfReader`, `PdfContent`, `PdfWriters` (`Numerals`) | two hand-written PDF writers, with a reader after sections 7.3.4.2, 7.5.4, 7.5.5 and 9.4 of ISO 32000-1 that starts at the end of the file and ends at the texts on the page |
| `TextCleanup`, `Normalizers` (`Text`) | the line wrapper and the two text normalisers |
| `Workflow`, `Optimizer` (`Selections`) | the workflow compiler's order and the hill climber's bounds |

Stateful code is a class whose methods state their whole new state. The five classes
behind the theorems over runs (bridge, job store, OAuth registry, canary manager,
approval store) have a value of their state, `Model`, and every method that changes it is
proved to make one step of the transition function `Next` (for the job store the relation
`Step`, because the database may break ties either way). The theorems are about sequences
of those steps, in any interleaving. In-place loops are methods with loops, proved against
a reference definition that does not share their shape: an expression tree for the
list-shortening evaluator, nested loops for the index join, one stable arrangement for the
sort, a reader of bytes, references and content operators for the PDF writers.
Definitions that a method and its specification share have laws of their own, stated on
texts, numbers, rows and events.

Where the code meets its promise only under a condition, the condition is proved exact:

- The dependency gate survives every replacement of a task's dependencies if and only if
  the task neither succeeded nor is in flight (`TaskBridge.ReplacementIsSafeExactly`).
- A job that does not fail itself is exported in the end if and only if fewer than 50
  failing jobs completed before it (`Export.StarvesExactly`, completion times being
  distinct); a run of the job store reaches a queue in which 50 of them block a job for good
  (`Export.StarvationIsReachable`).
- A profile has a token exactly when a state issued since its last revoke was consumed, if
  and only if every answer that stores a token finds its state still stored or the profile
  still with a token (`OAuth.TokensAreGrantedExactly`). Atomic completions meet this, unless
  a state text names a file that is not the registry's (`OAuth.AtomicRunsAreBacked`,
  `OAuth.OtherFileAsState`). Revoking while the request is on its way breaks it
  (`OAuth.RevokeDuringExchangeIsLost`).
- A state authorizes at most once when completions are atomic (`OAuth.StateAuthorizesOnce`).
  In general a second completion by it is a fresh one if and only if it was issued again in
  between (`OAuth.StateReusedExactly`); two requests sent for one state before either is
  answered both store a token (`OAuth.SharedStateAuthorizesTwice`).
- A refresh token lasts if and only if there is no revoke, no answer with another refresh
  token, and no completion whose state text names the profile's token file
  (`OAuth.RefreshTokenSurvives`, `OAuth.TokenFileAsState`), as the file's absolute path or
  its path from the directory of the states do (`StatePaths.AbsolutePathNamesToken`,
  `StatePaths.ParentNamesToken`); state texts without a slash never do
  (`OAuth.NamesNeverDiscard`).
- A canary release that was rolled back stays so if and only if its id is not started again
  and it is not evaluated when its samples pass (`Canary.RollbackLastsExactly`).
- A sheet reconciles with itself if and only if every keyed row agrees with the last row
  that has its key (`Reconcile.SelfReconciliation`).
- A condition is read at its leftmost operator if and only if no operator that is searched
  for earlier occurs elsewhere in it (`Rules.ConditionReadsAsWritten`); `x > a != b` is not
  (`Rules.SecondOperatorExample`).
- The study page shows all lines it writes if and only if there are at most 55: the others, up to
  the 90th, are below the page (`PdfWriters.StudyPageOverflowsExactly`).
- The formula evaluator ends in an `IndexError` if and only if one operand is blank and
  another is not (`Formula.FailsExactlyOnMissingOperand`).

## Model

| member | source | states |
|---|---|---|
| `Formula.EvalSimpleFormula` | src/excel_audit/rules_engine.py:50-120 | the token loop and the two passes return the value of the expression tree the text stands for, no value when there is no operand, or the `IndexError` of a missing one; which value that is, the laws of `FormulaLaws` say |
| `Formula.ReduceInPlace` | src/excel_audit/rules_engine.py:94-120 | the two in-place passes return the value of the left-associative tree of sums of products, or run off the lists exactly when an operand is missing |
| `Formula.ReductionKeepsMeaning` | src/excel_audit/rules_engine.py:96-107 | one deletion at the first `*` or `/` keeps the value of the whole remaining formula |
| `Formula.ParseGroups` | src/excel_audit/rules_engine.py:53-55 | every list of operands and operators has a tree built with the usual precedence and left association, and reading its leaves gives the lists back |
| `Formula.GroupedTreeIsUnique` | src/excel_audit/rules_engine.py:53-55 | such a tree is unique: parsing its leaves gives the tree back |
| `Formula.AgreesWithPrecedence` | src/excel_audit/rules_engine.py:53-120 | whatever precedence tree a text is the reading of, the evaluator's result is that tree's value |
| `Formula.NoValueExactly` | src/excel_audit/rules_engine.py:100-118 | the result is `None` exactly when some operand is unresolved or some `/` is directly followed by an operand equal to 0 |
| `Formula.FailsExactlyOnMissingOperand` | src/excel_audit/rules_engine.py:82-114 | the evaluator fails exactly when one piece between operators is blank and another is not |
| `Formula.TokensAlternate` | src/excel_audit/rules_engine.py:61 | operators sit at odd positions, operator-free pieces at even ones, and the pieces concatenate to the text |
| `FormulaLaws.OperandLaw` | src/excel_audit/rules_engine.py:82-92 | the value of a text without operators is its literal number, or else the number in the row's column of that name |
| `FormulaLaws.ProductLaw` | src/excel_audit/rules_engine.py:94-107 | the value of a product followed by `*` or `/` and an operand is that product times or over the operand's number, in real arithmetic; an unresolved operand or a division by zero leaves no value |
| `FormulaLaws.SumLaw` | src/excel_audit/rules_engine.py:53-120 | the value of any formula followed by `+` or `-` and a product is the formula's value plus or minus the product's: `*` and `/` bind more tightly and sums go from left to right |
| `FormulaLaws.PrecedenceExample` | src/excel_audit/rules_engine.py:53-120 | `10-2*3+8/4` is 6 |
| `FormulaLaws.BlankLaw` | src/excel_audit/rules_engine.py:50-60 | a blank text has no value |
| `Rules.SplitsExactly` | src/excel_audit/rules_engine.py:130-135 | a condition is split at the first occurrence of an operator, its two sides stripped, if and only if no operator searched for before it occurs anywhere in the text; otherwise at an earlier one |
| `Rules.ConditionReadsAsWritten` | src/excel_audit/rules_engine.py:123-164 | for any column text, operator and literal, a condition is read at its leftmost operator if and only if no operator searched for earlier occurs elsewhere, and then compares that column with that literal |
| `Rules.PlainConditionsRead` | src/excel_audit/rules_engine.py:130-135 | this holds for every operator and any spacing when column and literal have no comparison characters, although `==` is searched first and `>` is part of `>=` |
| `Rules.NumbersAreCompared` | src/excel_audit/rules_engine.py:140-154 | for plain sides that are both numbers, each of the six conditions holds exactly when its comparison of the numbers does |
| `Rules.TextsAreCompared` | src/excel_audit/rules_engine.py:156-163 | otherwise `==` and `!=` compare texts, a missing or empty cell being the empty text, and the other four conditions never hold |
| `Rules.NoConditionHolds` | src/excel_audit/rules_engine.py:125-126 | a blank condition holds, and so does one without an operator |
| `Rules.SecondOperatorSplits` | src/excel_audit/rules_engine.py:130-135 | of two operators between plain texts the second one splits the text whenever it is searched for earlier, for all texts and operators |
| `Rules.SecondOperatorExample` | src/excel_audit/rules_engine.py:130-135 | `x > a != b` compares the column named `x > a` with `b` |
| `Rules.FirstEqualsSplits` | src/excel_audit/rules_engine.py:130-135 | the first `==` splits the text, whatever other operators it has |
| `Rules.EvaluateRule` | src/excel_audit/rules_engine.py:167-232 | raises exactly when the rule applies to a row on which its formula is malformed; otherwise returns one finding per mismatching row |
| `Rules.MismatchesExactly` | src/excel_audit/rules_engine.py:193-230 | a row is reported exactly when the rule applies, computes a number, and the expected column has no number within the tolerance of it; once, in row order |
| `Rules.MismatchesExplained` | src/excel_audit/rules_engine.py:199-230 | every finding names the rule and the row's order number, states the computed value beside a cell that is no number, or beside a number further away than the tolerance with their distance, an error from 100 on |
| `Rules.EvaluateRules` | src/excel_audit/rules_engine.py:235-253 | fails exactly when some rule breaks on some row, else the rules' findings one rule after the other |
| `Reconcile.BuildKeyIndex` | src/excel_audit/reconcile.py:35-45 | the index holds no empty key, and for every other key what a scan for the last row with it finds |
| `Reconcile.LastWithKeyFinds` | src/excel_audit/reconcile.py:35-45 | the scan finds nothing exactly when no row has the key, and otherwise the row after which no other has it |
| `Reconcile.CompareColumns` | src/excel_audit/reconcile.py:107-139 | one finding for each compared column in which the two rows disagree, in column order |
| `Reconcile.CommonColumns` | src/excel_audit/reconcile.py:79-84 | the columns are exactly the source headers the target shares, without the key column |
| `Reconcile.Reconcile` | src/excel_audit/reconcile.py:48-145 | the join through the index equals the nested loops over both sheets, with the counts of columns and keyed rows |
| `Reconcile.FindingsExactly` | src/excel_audit/reconcile.py:86-139 | a source row has findings exactly when it has a key and its target row is missing or differs in a compared column; findings come in row order |
| `Reconcile.FindingsExplained` | src/excel_audit/reconcile.py:95-139 | every finding states its row's key and either that the target row is missing, or a compared column with the two values, their distance and its severity if both are numbers |
| `Reconcile.AgreeExactly` | src/excel_audit/reconcile.py:111-131 | two numbers agree when they are at most the tolerance apart, other cells when they print alike |
| `Reconcile.ColumnsExactly` | src/excel_audit/reconcile.py:79-84 | the compared columns are those asked for, or without any the headers of the source, in its order, that the target shares and that are not the key |
| `Reconcile.KeyedRowsExactly` | src/excel_audit/reconcile.py:89-95 | the count of checked rows is the number of rows with a key |
| `Cells.KeyExactly` | src/excel_audit/reconcile.py:38-42 | a missing column gives no key, but an empty cell that is there gives the key `None` |
| `Reconcile.SelfReconciliation` | src/excel_audit/reconcile.py:86-139 | any sheet reconciles with itself without findings if and only if every keyed row agrees, in every compared column, with the last row that has its key |
| `Reconcile.ReportedAgainstItself` | src/excel_audit/reconcile.py:86-139 | row by row: a row is reported against its own sheet exactly when it differs from the last row with its key |
| `Reconcile.UniqueKeysReconcile` | src/excel_audit/reconcile.py:86-139 | with unique keys there are no findings if and only if the tolerance is not negative or no number is compared |
| `Reconcile.RepeatedKeyIsReported` | src/excel_audit/reconcile.py:35-45 | in any sheet, an earlier row that differs in a compared column from the last one with its key is reported |
| `StableSort.SortIsTheOnlyStableSort` | src/content_kb/index_builder.py:128 | a sorted arrangement that keeps the order inside each class of equal keys is the sort's result; there is no other |
| `StableSort.SortInBatches` | src/content_kb/index_builder.py:128 | sorting a sorted batch together with later arrivals is sorting all of them at once |
| `StableSort.SortedPosition` | src/content_kb/index_builder.py:128 | an element lands at the index given by the number of elements that belong before it |
| `ContentIndex.BuildTopicIndex` | src/content_kb/index_builder.py:24-52 | updates the given index in place, or a new one, to the fold of its entries |
| `ContentIndex.TopicsMeaning` | src/content_kb/index_builder.py:37-52 | a topic's count is the number of entries on it (added to what was there) and its latest fields are those of the last one |
| `ContentIndex.TopicsInBatches` | src/content_kb/index_builder.py:37-52 | building from `a` and then from `b` gives what `a + b` gives |
| `ContentIndex.BuildSpeakerIndex` | src/content_kb/index_builder.py:55-91 | updates the given index in place to the fold of all appearances in the entries |
| `ContentIndex.AddAppearances` | src/content_kb/index_builder.py:78-88 | the inner loop adds one entry's appearances to those already counted |
| `ContentIndex.SpeakersMeaning` | src/content_kb/index_builder.py:68-91 | a speaker's record holds the number of appearances, the topics in order of first occurrence, and the last title |
| `ContentIndex.FirstTopicsMembers` | src/content_kb/index_builder.py:83-86 | the topic list has every non-empty topic seen, each once, and nothing else |
| `ContentIndex.SpeakerIndexInBatches` | src/content_kb/index_builder.py:68-91 | the speaker index does not depend on how entries were batched |
| `ContentIndex.BuildTimelineIndex` | src/content_kb/index_builder.py:94-130 | updates the given timeline in place to the stable descending sort of the old entries and the dated new ones |
| `ContentIndex.TimelineInBatches` | src/content_kb/index_builder.py:107-130 | two updates give the same timeline as one with all entries, whatever it started from |
| `ContentIndex.TimelineCharacterised` | src/content_kb/index_builder.py:107-130 | a sequence is the timeline if and only if dates never increase and each day's entries are those that arrived, in order of arrival |
| `ContentIndex.DatedExactly` | src/content_kb/index_builder.py:109-126 | what a timeline stores of its entries: exactly those with a date, in order of arrival, each with its own date, topic, title and slug |
| `Lexicographic.LeExactly` | src/content_kb/index_builder.py:128 | the order of texts is that of their first difference, shorter ones first |
| `TaskBridge.MASFactoryBridge.RegisterAgent` | src/bridge/mas_factory_bridge.py:59-75 | an agent replaces the one with its id in place, or is appended; an executor is only ever added |
| `TaskBridge.MASFactoryBridge.SubmitTask` | src/bridge/mas_factory_bridge.py:77-85 | stores the task under its id, replacing one that was there |
| `TaskBridge.MASFactoryBridge.SelectAgent` | src/bridge/mas_factory_bridge.py:195-232 | the agent chosen by each strategy, or none |
| `TaskBridge.MASFactoryBridge.Start` | src/bridge/mas_factory_bridge.py:101-160 | the part before the `await`: which check ends the call or which agent runs, said without the decision function; only the missing executor stores a result |
| `TaskBridge.MASFactoryBridge.Finish` | src/bridge/mas_factory_bridge.py:133-193 | the part after it stores the outcome, whichever it is, and nothing else |
| `TaskBridge.MASFactoryBridge.GetStatus` | src/bridge/mas_factory_bridge.py:234-243 | the counts of agents, tasks, results, pending, successful and failed tasks |
| `TaskBridge.FirstCapableMeaning` | src/bridge/mas_factory_bridge.py:209-216 | capability matching returns the first registered agent with all capabilities, or none when there is none |
| `TaskBridge.PriorityMeaning` | src/bridge/mas_factory_bridge.py:223-230 | the priority strategy returns the earliest registered among the agents of highest priority |
| `TaskBridge.FirstUnmetMeaning` | src/bridge/mas_factory_bridge.py:111-118 | the gate lets a task pass exactly when every dependency has a success result, and otherwise names one that has not |
| `TaskBridge.ChosenExactly` | src/bridge/mas_factory_bridge.py:195-232 | each strategy returns an agent if and only if it is the one to choose: the first with all capabilities, the first, the first of highest priority |
| `TaskBridge.DecisionExplained` | src/bridge/mas_factory_bridge.py:103-131 | which check ends a call, with its condition, and else which agent runs |
| `TaskBridge.RegisterExactly` | src/bridge/mas_factory_bridge.py:59-75 | an agent takes the place of the one with its id, or the last place |
| `TaskBridge.ResultIsLastOutcome` | src/bridge/mas_factory_bridge.py:133-193 | in every run the result of a task is the outcome of the last call for it that ended, success or not, counting a call without an executor as a failure; there is none if and only if no call ended |
| `TaskBridge.SucceededIsLastSuccess` | src/bridge/mas_factory_bridge.py:111-193 | a task counts as succeeded if and only if the last call for it that ended was a success |
| `TaskBridge.InvHolds` | src/bridge/mas_factory_bridge.py:111-193 | from every consistent state, as long as no submission changes the dependencies of a task that succeeded or is in flight, each success came after a success of all its dependencies, and calls in flight passed the gate |
| `TaskBridge.DoomedNeverSucceed` | src/bridge/mas_factory_bridge.py:111-193 | over all interleaved runs in which no submission changes the dependencies of a task that succeeded or is in flight, no task that transitively depends on a cycle or on a never-submitted task ever gets a success |
| `TaskBridge.ReplacementIsSafeExactly` | src/bridge/mas_factory_bridge.py:77-193 | the condition is exact: in every state such runs reach, the gate survives all replacements of a task, over all continuations, if and only if the task neither succeeded nor is in flight |
| `TaskBridge.LateReplacementBreaksTheGate` | src/bridge/mas_factory_bridge.py:77-193 | in every state, a task that succeeded or is in flight has a replacement that breaks the gate, at once or when its call succeeds |
| `TaskBridge.NotDoomedCanSucceed` | src/bridge/mas_factory_bridge.py:111-193 | the gate is exact: with a runner registered, every other task can be brought to success from any state |
| `TaskBridge.ReplacementBreaksTheGate` | src/bridge/mas_factory_bridge.py:85 | a run with a replacing submission in which a successful task depends on itself |
| `TaskBridge.StatusAddsUp` | src/bridge/mas_factory_bridge.py:234-243 | in every run, pending and results make up the tasks, and successes, failures and timeouts make up the results |
| `JobStore.MediaJobStore.Enqueue` | lib/media_job_store.py:188-213 | a new queued row with a fresh id and all its columns, or the id of the row that has the url and no change |
| `JobStore.MediaJobStore.Claim` | lib/media_job_store.py:215-238 | takes exactly min(limit, queued) distinct queued jobs, none left queued was created before one taken, and only they change |
| `JobStore.MediaJobStore.Update` | lib/media_job_store.py:254-303 | makes the update step on the one row it names and on no other; false exactly when there is none |
| `JobStore.UpdateRow` | lib/media_job_store.py:265-292 | every column of the row after an update: given values are set, missing ones and an empty error reason leave theirs, and a completed status sets the completion time |
| `JobStore.MediaJobStore.GetCompletedForArchive` | lib/media_job_store.py:305-323 | the oldest completed jobs that were not exported, in order of completion, up to the limit |
| `JobStore.MediaJobStore.MarkExported` | lib/media_job_store.py:325-350 | marks the one row it names and keeps its status |
| `JobStore.SelectOldest` | lib/media_job_store.py:223-231 | a selection ordered by time with a limit returns distinct ids, in order, that are the oldest; a negative limit is none |
| `JobStore.OldestQueued` | lib/media_job_store.py:223-231 | on the rows: the jobs a claim takes were queued, none left queued was created earlier, and the limit fixes their number, a negative one not at all |
| `JobStore.OldestDone` | lib/media_job_store.py:309-323 | the same for the archive query: completed, not exported, in order of completion |
| `JobStore.ReachableWellFormed` | lib/media_job_store.py:188-350 | in every reachable table ids are below the next one, urls are unique and completed jobs have a completion time |
| `JobHistory.LastWriter` | lib/media_job_store.py:188-350 | in every run each column of a row holds what the last event that writes this column wrote |
| `JobHistory.ColumnsDescribed` | lib/media_job_store.py:188-350 | which events write which columns, for all thirteen: enqueueing, claims, updates and exports |
| `JobHistory.CreatedWhenEnqueued` | lib/media_job_store.py:197-229 | in every run the creation time and the url of a job are those of the event that enqueued it |
| `JobHistory.ClaimsFollowEnqueueOrder` | lib/media_job_store.py:215-303 | of two queued jobs a claim takes the one enqueued earlier, also when it had been claimed and put back in between |
| `JobHistory.RetriesAreCounted` | lib/media_job_store.py:265-303 | the retry count is the number of updates that asked to count one |
| `JobStore.NoDoubleClaim` | lib/media_job_store.py:215-303 | under any interleaving, a job is returned by two claims only if an update put it back to queued in between |
| `JobStore.CompletedArePending` | lib/media_job_store.py:269-317 | the completion-time condition of the archive query never hides a job: all completed, unexported jobs can be selected |
| `JobStore.NeverSelectedAgain` | lib/media_job_store.py:313-350 | an exported job stays exported through every later event and is never selected again |
| `Export.ExportBatch` | scripts/repo_agent.py:79-105 | tries the 50 oldest in order, returns those whose export succeeded, and marks exactly these |
| `Export.ExportIsRound` | scripts/repo_agent.py:79-105 | seen from the queue, an export removes from the 50 oldest those that do not fail |
| `Export.Drains` | scripts/repo_agent.py:79-105 | without failures and new completions, n jobs are gone after ceil(n/50) rounds and not before |
| `Export.LeavesForGood` | scripts/repo_agent.py:79-105 | a job that was exported is in no later batch |
| `Export.FewBlockersNoStarvation` | scripts/repo_agent.py:79-105 | a job with fewer than 50 failing ones completed no later than it is exported, within as many rounds as its place in the queue |
| `Export.ManyBlockersStarve` | scripts/repo_agent.py:79-105 | with 50 failing jobs completed earlier, a job is never tried in any round |
| `Export.StarvesExactly` | scripts/repo_agent.py:79-105 | with distinct completion times, a job that does not fail is exported in the end if and only if fewer than 50 failing jobs completed before it |
| `Export.StarvationIsReachable` | lib/media_job_store.py:188-323 | a run of the job store from the empty table whose queue has 50 failing jobs before another one |
| `OAuth.Registry.ProfileStatus` | packages/entertainment_curator/youtube_oauth.py:89-102 | authorized exactly when a stored token has a refresh or an access token |
| `OAuth.Registry.StartAuthorization` | packages/entertainment_curator/youtube_oauth.py:104-158 | stores the drawn state for the profile, unless the profile or the client is missing |
| `OAuth.Registry.BeginCompletion` | packages/entertainment_curator/youtube_oauth.py:160-204 | which check refuses a completion, in their order, with the condition of each said on its own; or the token request that is sent, for the profile in the file that the state text names |
| `OAuth.VerdictExplained` | packages/entertainment_curator/youtube_oauth.py:160-204 | each refusal and the sent request have their exact condition: among them, a profile mismatch happens if and only if an expected profile is given and is not the one in the file |
| `OAuth.MismatchExample` | packages/entertainment_curator/youtube_oauth.py:174-181 | a state issued for `youtube_learning` is refused when `youtube_music` is expected and accepted when `youtube_learning` is |
| `OAuth.TokenIsForExpectedProfile` | packages/entertainment_curator/youtube_oauth.py:160-237 | over every run, an answer stores a token only for the profile that its request expected, if it expected one |
| `OAuth.TokenIsFromLastAnswer` | packages/entertainment_curator/youtube_oauth.py:206-228 | over every run, a stored token has the access token of the last answer that stored one for its profile, and that answer's refresh token if it gave one |
| `OAuth.AcceptedExactly` | packages/entertainment_curator/youtube_oauth.py:206-215 | an answer is accepted if and only if it names no scopes or names the read-only one and no other |
| `OAuth.Registry.ReadState` | packages/entertainment_curator/youtube_oauth.py:297-298 | the profile id in the file that the file system finds for a state text: a state, a token, another file or none |
| `OAuth.Registry.FinishCompletion` | packages/entertainment_curator/youtube_oauth.py:197-237 | stores the merged token and then deletes the file that the state text named, whichever it is, or changes nothing when the request raised or its scopes are refused |
| `OAuth.Registry.RevokeProfile` | packages/entertainment_curator/youtube_oauth.py:239-254 | deletes the token and every state of the profile |
| `OAuth.StateStoredExactlyWhileLive` | packages/entertainment_curator/youtube_oauth.py:120-254 | in every run a state is stored for a profile exactly when it was issued for it and not consumed, revoked or reissued since |
| `OAuth.TokensAreGrantedExactly` | packages/entertainment_curator/youtube_oauth.py:160-254 | over all runs and file systems, a profile has a token exactly when a live state granted it one, if and only if every answer that stores one finds its state still stored or the profile still with a token |
| `OAuth.GrantedStepExactly` | packages/entertainment_curator/youtube_oauth.py:160-254 | the same for one event |
| `OAuth.CompletionGrantsExactly` | packages/entertainment_curator/youtube_oauth.py:206-228 | a completion grants its profile by a live state if and only if the state is still stored as the answer arrives |
| `OAuth.AuthorizedOnlyByFreshState` | packages/entertainment_curator/youtube_oauth.py:89-254 | under that condition a profile reads authorized only if a state issued for it was consumed by a completion and no revoke came after the issue |
| `OAuth.StateAuthorizesOnce` | packages/entertainment_curator/youtube_oauth.py:174-228 | in runs with atomic completions, a state is consumed twice only if it was issued again in between |
| `OAuth.StateReusedExactly` | packages/entertainment_curator/youtube_oauth.py:174-228 | in every run, a second completion by a state finds it on disk if and only if it was issued again in between and not taken away since |
| `OAuth.SharedStateAuthorizesTwice` | packages/entertainment_curator/youtube_oauth.py:160-233 | a five-event run in which two requests sent for one state, issued once, both store their token |
| `OAuth.AtomicRunsAreGuarded` | packages/entertainment_curator/youtube_oauth.py:160-237 | in runs whose completions are atomic every completion by a state finds it still stored |
| `OAuth.AtomicRunsAreBacked` | packages/entertainment_curator/youtube_oauth.py:160-237 | so a profile has a token exactly when a live state granted it one, provided that no other file holds its id or state texts have no slash |
| `OAuth.AtomicCompletionIsGuarded` | packages/entertainment_curator/youtube_oauth.py:160-237 | a completion answered right after its request finds its state still stored for the same profile |
| `OAuth.RevokeDuringExchangeIsLost` | packages/entertainment_curator/youtube_oauth.py:206-254 | a four-event run in which the answer to a pending request authorizes a profile that was just revoked |
| `OAuth.RefreshTokenSurvives` | packages/entertainment_curator/youtube_oauth.py:217-233 | over all runs and file systems, a stored refresh token lasts through a stretch of the run if and only if no event revokes it, answers with another one, or completes by a state text that names the token file; an answer that omits the field keeps it |
| `OAuth.NonceIsName` | packages/entertainment_curator/youtube_oauth.py:125 | a drawn state is its own stripped form and names its own file |
| `OAuth.NamesNeverDiscard` | packages/entertainment_curator/youtube_oauth.py:160-237 | over all runs whose state texts have no slash, no completion takes a token away |
| `OAuth.TokenFileAsState` | packages/entertainment_curator/youtube_oauth.py:297-309 | for every profile with a token and any calls in flight, a state text that names its token file is accepted, and completing by it deletes the token |
| `OAuth.OtherFileAsState` | packages/entertainment_curator/youtube_oauth.py:297-298 | a state text that names another file with a profile's id is accepted, and completing by it authorizes the profile |
| `StatePaths.PosixNamesStay` | packages/entertainment_curator/youtube_oauth.py:297-309 | on a POSIX file system, whatever its directories, a state text without a slash names its own state file, as the registry's theorems ask |
| `StatePaths.ParentNamesToken` | packages/entertainment_curator/youtube_oauth.py:288-298 | `../<profile>` names the profile's token file |
| `StatePaths.AbsolutePathNamesToken` | packages/entertainment_curator/youtube_oauth.py:288-298 | so does the absolute path of that file |
| `StatePaths.RoundaboutPathNamesToken` | packages/entertainment_curator/youtube_oauth.py:288-298 | and the path that leaves the token directory and comes back by its name |
| `OAuth.StoredProfilesAreNormal` | packages/entertainment_curator/youtube_oauth.py:111-178 | in every run the stored states name known profiles in their stripped form, so reading one back gives the profile it was issued for |
| `Canary.CanaryReleaseManager.StartRelease` | src/bridge/canary_manager.py:63-87 | stores a release whose ratio and thresholds are the nearest ones in their ranges, with no counts, and makes it active |
| `Canary.CanaryReleaseManager.RecordResult` | src/bridge/canary_manager.py:103-121 | counts the request, and for the candidate the sample, the failure and its latency raised to zero; an unknown id is an error |
| `Canary.CanaryReleaseManager.Evaluate` | src/bridge/canary_manager.py:123-181 | the decision, its effect on status and reason, and the active id cleared by any decision |
| `Canary.CanaryReleaseManager.RollbackRelease` | src/bridge/canary_manager.py:183-192 | rolls the release back and clears the active id only if it names this release |
| `Canary.P95Decides` | src/bridge/canary_manager.py:133-155 | with n samples and k = floor(0.95(n-1)), the p95 exceeds a bound exactly when at least n-k samples do, and is within it exactly when at least k+1 are |
| `Canary.P95IsQuantile` | src/bridge/canary_manager.py:133-137 | at least k+1 samples are at or below the p95 and at least n-k at or above it |
| `Canary.P95Index` | src/bridge/canary_manager.py:133-137 | the index k of the p95 among n sorted samples: 20k <= 19(n-1) < 20(k+1) |
| `Canary.DecisionsAreAboutSamples` | src/bridge/canary_manager.py:142-163 | hold, each rollback and promotion hold exactly under conditions on how many samples failed and how many latencies are beyond the threshold |
| `Canary.Reachable` | src/bridge/canary_manager.py:73-192 | in every reachable state the active id names a stored active release; failures <= samples <= requests; one non-negative latency per sample; a promoted release has its minimum of samples |
| `Canary.MetricsCountResults` | src/bridge/canary_manager.py:63-121 | in every run the metrics count the results recorded since the release was last started: requests, samples and failures of the candidate, and its latencies, zero for negative ones |
| `Canary.PromotedExactly` | src/bridge/canary_manager.py:142-163 | a release is promoted if and only if it has enough samples, failures within their share, and at least k+1 latencies within the threshold |
| `Canary.RollbackLastsExactly` | src/bridge/canary_manager.py:63-192 | over every list of events, a release that was rolled back stays so if and only if its id is not started again and it is not evaluated when its samples pass |
| `Canary.RollbackIsNotFinal` | src/bridge/canary_manager.py:123-192 | the instance: any stored release whose samples pass is promoted by an evaluation after a rollback by hand |
| `Approvals.ApprovalRecord.Decide` | src/foundation/approvals.py:55-66 | raises on a settled record, turns an overdue one into expired, and otherwise records decision, author, reason and time |
| `Approvals.ApprovalStore.Create` | src/foundation/approvals.py:78-97 | adds a pending record with its creation time, deadline and metadata, or raises and changes nothing when the id exists |
| `Approvals.ApprovalStore.Decide` | src/foundation/approvals.py:103-114 | decides the one record it names, through the shared object, and no other |
| `Approvals.ApprovalStore.CheckApproval` | src/foundation/approvals.py:238-255 | an unknown id reads as rejected, an overdue pending one as expired |
| `Approvals.ApprovalStore.RequestApproval` | src/foundation/approvals.py:205-236 | requests nothing exactly when nothing asks for an approval; otherwise creates `approval-<run id>` for the stated or first triggered requirement, with the shorter of the two expiry times and the run, agent, task type, scope and risk level |
| `Approvals.StatusIsFinal` | src/foundation/approvals.py:47-114 | with a clock that does not go back, once a reading is not pending every later reading after any events is the same |
| `Approvals.NeverApprovedAfterAll` | src/foundation/approvals.py:47-114 | an approval that read expired or rejected never reads approved again |
| `Approvals.ClockMustNotGoBack` | src/foundation/approvals.py:55-66 | with a clock that goes back past the deadline, an approval that read expired can be approved |
| `Approvals.ApprovedExactly` | src/foundation/approvals.py:55-114 | in every run from the empty store, an approval reads approved if and only if it was requested, then approved no later than the deadline of that request, and not settled before |
| `Approvals.RecordsDocumentEvents` | src/foundation/approvals.py:55-114 | in every run a record states the requester, times and metadata of its first request, and unless it has expired the author, reason and time of a decision with its status, or none |
| `Approvals.ScopeMatchesExactly` | src/foundation/approvals.py:176-203 | a scope matches a task by the words that stand in it, in small or capital letters, and GitHub operations only outside a dry run |
| `Approvals.RequirementExactly` | src/foundation/approvals.py:142-174 | the requirement is the one the job states, the default one, or that of the first triggered scope |
| `Approvals.RealRunsAreApproved` | src/foundation/approvals.py:277-311 | in every run from the empty store, a job leaves with dry_run false if and only if it came so and nothing asks for an approval, or `approval-<run id>` was approved on its request in time; nothing but dry_run changes |
| `Approvals.EnforcingIsIdempotent` | src/foundation/approvals.py:277-311 | enforcing again, later and after any events, changes nothing |
| `Approvals.ApprovalLetsThrough` | src/foundation/approvals.py:225-311 | a request approved in time lets the job through unchanged from then on |
| `PdfText.ChainIsOnePass` | packages/study_workspace/workbench.py:730-732 | the three chained replacements equal escaping each character once |
| `PdfText.EncodeCommutes` | scripts/furniture_e2e.py:505-567 | encoding to Latin-1 after escaping equals encoding before it, so both programs' escaping agree |
| `PdfText.ReadBack` | packages/study_workspace/workbench.py:730-732 | reading an escaped text by the literal-string rules gives the text with normalised line ends and stops exactly at the closing parenthesis, whatever follows |
| `PdfText.EscapingRoundTrip` | packages/study_workspace/workbench.py:730-732 | the text comes back unchanged if and only if it has no carriage return and only Latin-1 characters |
| `PdfFile.WritePdf` | packages/study_workspace/workbench.py:597-615 | the accumulated bytes are header, numbered objects, a table of the positions where objects began, and a trailer with the table's position |
| `PdfFile.PdfStartXref` | packages/study_workspace/workbench.py:602-613 | the number after `startxref` is where `xref` stands |
| `PdfFile.TableFindsObjects` | packages/study_workspace/workbench.py:597-606 | following `startxref` and entry k leads to `k 0 obj`, that object and its `endobj`, for any objects and offsets below 10^10 |
| `PdfFile.EntryIsTwentyBytes` | packages/study_workspace/workbench.py:605-606 | a table entry has 20 bytes if and only if its offset is below 10^10 |
| `PdfFile.LengthIsExact` | packages/study_workspace/workbench.py:595 | the stream cut out by `/Length` is the stream |
| `PdfReader.TrailerRead` | packages/study_workspace/workbench.py:604-613 | behind the table a reader finds the trailer's dictionary, and the table has the number of entries that it says |
| `PdfReader.DictionaryRead` | packages/study_workspace/workbench.py:590-602 | the object found for a number is the dictionary that was written |
| `PdfContent.StreamShows` | scripts/furniture_e2e.py:497-505 | what a content stream of words and strings shows once it is joined and encoded: fonts, positions and texts as its operators set them |
| `PdfContent.LineSeen` | scripts/furniture_e2e.py:497-505 | a line of words and escaped strings is read back as those words and strings, as displayed |
| `PdfWriters.FileIsReadable` | packages/study_workspace/workbench.py:590-615 | for every stream, all five entries have 20 bytes and lead to their objects, and the stream of the fifth object is cut out by its length |
| `PdfWriters.FileShowsPage` | packages/study_workspace/workbench.py:590-613 | trailer, root, page tree, page, font and contents are found by following references, agree with each other, and lead to the stream, for every stream |
| `PdfWriters.StudyPdf` | packages/study_workspace/workbench.py:579-615 | following the file from its end leads to one page that shows the first 90 lines, cut to 120 characters, as displayed, each at its place, in a font the page has |
| `PdfWriters.StudyPdfShowsLines` | packages/study_workspace/workbench.py:584-615 | the same as a statement about the file's definition, for all lines: no object number is given to the reader |
| `PdfWriters.FurniturePdf` | scripts/furniture_e2e.py:497-534 | following the file from its end leads to one page that shows every line, as displayed, each at its place |
| `PdfWriters.FurniturePdfShowsLines` | scripts/furniture_e2e.py:497-534 | the same for all lines, of any number and length: the five offsets do not depend on the stream, which is in the last object |
| `PdfWriters.StudyPageOverflowsExactly` | packages/study_workspace/workbench.py:579-587 | all shown lines are on the page if and only if there are at most 55, although 90 are written |
| `PdfWriters.FurniturePageOverflowsExactly` | scripts/furniture_e2e.py:499-504 | all lines are on the page if and only if there are at most 31 |
| `PdfWriters.DisplayedExactly` | packages/study_workspace/workbench.py:730-732 | a line is displayed unchanged if and only if it has no carriage return and only Latin-1 characters |
| `Numerals.DecimalReads` | packages/study_workspace/workbench.py:595-612 | a decimal numeral is digits that denote the number |
| `Numerals.PaddedReads` | packages/study_workspace/workbench.py:606 | the ten-digit form denotes the number, and has ten digits if and only if it is below 10^10 |
| `TextCleanup.WrapPdfLine` | packages/study_workspace/workbench.py:710-727 | the words of the output lines, in order, are those of the input; each line is stripped and within the limit unless it is one word; lines are the groups of a greedy grouping of words and blanks |
| `TextCleanup.RunsAreTheText` | packages/study_workspace/workbench.py:718 | splitting at blanks gives alternating runs of words and blanks that concatenate to the text |
| `TextCleanup.WordsConcat` | packages/study_workspace/workbench.py:718-724 | the words of two texts joined at a blank are the words of each |
| `TextCleanup.OneWord` | packages/study_workspace/workbench.py:718-724 | a text without blanks is its one word |
| `Normalizers.CleanMarkdown` | packages/study_workspace/workbench.py:520-532 | the loop with its blank flag returns the lines with runs of blank lines made one, joined and stripped |
| `Normalizers.TwoReplacements` | packages/study_workspace/workbench.py:521 | replacing `\r\n` and then `\r` is one normalisation of line ends |
| `Normalizers.CleanTwice` | packages/study_workspace/workbench.py:520-532 | cleaning is idempotent for every text |
| `Normalizers.CleaningKeepsLines` | packages/study_workspace/workbench.py:520-532 | the non-blank lines are kept in order, only stripped, and no two blank lines are adjacent |
| `Normalizers.NormalizeSubtitle` | src/content_kb/subtitle_ingest.py:25-41 | the loop keeps the stripped lines that are not numbers, time stamps or blank |
| `Normalizers.TextLinesExactly` | src/content_kb/subtitle_ingest.py:28-41 | the kept lines are exactly those that are not blank, not only digits and without `-->`, in their order |
| `Normalizers.NormalizeTwice` | src/content_kb/subtitle_ingest.py:25-41 | normalising is idempotent for every text |
| `Text.SplitJoin` | src/content_kb/subtitle_ingest.py:27-41 | splitting undoes joining, for lines without line feeds |
| `Workflow.Compile` | src/bridge/workflow_store.py:95-140 | fails exactly on a workflow without nodes; else the program text, node sequence, retry edges and clamped limits |
| `Workflow.SequenceFollowsLayout` | src/bridge/workflow_store.py:99-104 | the sequence has one label per node, in an order of all nodes that goes from left to right, in a column from top to bottom, and at one place by id |
| `Workflow.LabelExactly` | src/bridge/workflow_store.py:142-152 | a node is named by its label, type or id; each alias, in any letters and with blanks around it, gives its name, and other texts only lose these |
| `Workflow.LabelIsNormal` | src/bridge/workflow_store.py:142-152 | a label is in its final form: naming the node by it gives it again |
| `Workflow.RetryExactly` | src/bridge/workflow_store.py:107-109 | an edge is a retry if and only if its label has the word in it or is an `r`, in any letters |
| `Workflow.RetryEdgesExactly` | src/bridge/workflow_store.py:106-116 | the retry edges are exactly those of the list, in its order |
| `Workflow.PromptLines` | src/bridge/workflow_store.py:121-140 | the lines of the program are the goal, the labels, the two limits moved into their ranges, and the first retry edge if there is one |
| `Workflow.OrderIndependentExactly` | src/bridge/workflow_store.py:99-104 | the sequence is the same for every reordering of the node list if and only if nodes with equal (x, y, id) have equal labels |
| `Workflow.DistinctIdsSuffice` | src/bridge/workflow_store.py:99-104 | with distinct ids the sequence is the same for every reordering |
| `Workflow.SwapShows` | src/bridge/workflow_store.py:99-104 | swapping two nodes with one key and different labels gives another sequence |
| `Optimizer.AutoresearchOptimizer.Run` | memory/autoresearch-implementation/autoresearch_optimizer.py:43-100 | the loop's final best, current version and history are those of the climb over the attempts that generator and evaluator made; a raising evaluator costs its iteration |
| `Optimizer.KeptScoresIncrease` | memory/autoresearch-implementation/autoresearch_optimizer.py:66-76 | each kept score beats the one before it by more than the threshold, and the best and current version are the last kept one |
| `Optimizer.HistoryExactly` | memory/autoresearch-implementation/autoresearch_optimizer.py:55-90 | the history has one entry for each scored attempt, in order, each with its improvement over the best score before it, kept if and only if that is more than the threshold |
| `Optimizer.NothingBetterMissedExactly` | memory/autoresearch-implementation/autoresearch_optimizer.py:66-76 | every evaluated score is at most the final best plus the threshold, for all attempts, if and only if the threshold is not negative |
| `Optimizer.BestPaysForKept` | memory/autoresearch-implementation/autoresearch_optimizer.py:66-76 | the best score is at least the threshold times the number of kept variants above the start |
| `Optimizer.FewAreKept` | memory/autoresearch-implementation/autoresearch_optimizer.py:66-76 | with scores of at most 100 fewer than 100/t variants are ever kept |

## Left out

- Floating point: sums, quotients, thresholds and scores are reals, the p95 index is taken exactly, and neither rounding nor NaN nor rounding for display is modelled.
- `float(text)`, the token endpoint, agent executors, the archiver, variant generators, evaluators, clocks and drawn states are parameters with arbitrary answers.
- Database rows and files are maps. Which file a state text names is a parameter, of which only one thing is asked (`OAuth.NamesStay`); file systems that fold case, links between the registry's files, changes that others make to other files, names the file system refuses, a missing directory of states and corrupt JSON are not part of this model.
- Job metadata is its JSON text, and reading single jobs, statistics and the archive table of the job store are left out.
- `Export.ExportBatch`: leaves out the index file the archiver rewrites after a batch, because it reads the file system.
- `Export.StarvesExactly`: requires distinct completion times, because among jobs completed at the very same time the database may return either first; `Export.FewBlockersNoStarvation` and `Export.ManyBlockersStarve` do not require it.
- The export of one job by its id, which skips the exported filter on purpose.
- `ContentIndex.BuildTopicIndex`: does not model the insertion order of the index dictionaries or the time of update, because no reader of the index uses them.
- Explanatory texts of findings, log lines, authorization URLs and display fields of profiles.
- `Canary.CanaryReleaseManager.StartRelease`: a release is a value in the map, so a caller's own reference to the stored object is not modelled; choosing a channel by a hash is left out too.
- `Approvals.ApprovalStore.RequestApproval`: request and check belong to the manager class in the code; here they are methods of the store it wraps, and a manifest is the list of its approval scopes in their order.
- The reason and approver roles of an approval requirement, which nothing reads.
- Attachments in the scope heuristic: the branch that looks at them has the same condition as the one beside it, so they never decide.
- `str.lower` is modelled on ASCII letters, `str.isdigit` is a parameter, and a byte is a character below 256.
- The reportlab writer of the workbench: `PdfWriters.StudyPdf` is the path taken without that library.
- Workflow ids, storage of workflows, and non-numeric coordinates or limits.
- Route handlers, dashboards, message transports, repository and container tooling, skill scans, keyword classifiers and vote counting: plumbing around libraries, or members that would only add easy claims.
