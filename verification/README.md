# Model of the GateLoop harness

GateLoop surrounds language-model agents with deterministic code: an orchestrator that takes one
decision per tick, budgets, gates, a failure bank, a context compactor, a model router and a
hash-chained trace. This project models that code in Dafny and proves what it keeps over every
input, every interleaving and every run. `dafny verify dfyconfig.toml` checks all of it.

| module | models |
|---|---|
| `Common`, `Sorting`, `Text`, `Regex` | sums, filters, the stable sort that the sources call, `trim`/`includes`, regular expressions |
| `DependencyGraph` | chains, acyclicity and heights of a backlog, shared by the three graph algorithms and the orchestrator |
| `Orchestrator`, `OrchestratorRuns` | `decideNextAction` and `advanceTrackerState`; runs as sequences of ticks (each with its result) and changes of the human-gate flag |
| `SelectDecision`, `RunSafety`, `RunGrammar`, `RunLiveness` | the decision between stories, what holds in every reachable state, the language of decision logs, progress with an exact bound |
| `CriticalPath`, `PipelineLevels` | `computeCriticalPath`, the memoised levels and waves of the cockpit, the levels of the board |
| `SignalTokens`, `FailureBank`, `FailureBankStore` | `bankGene` and `consolidate`: first as functions with their theory, then in place on gene objects |
| `ContextCompaction`, `ArtifactBudget` | the two-level compaction with its sliding window; artifact selection and the pinned zone |
| `ModelRouter`, `CallBudgets` | the cost-adjusted router; budget guards and pools under interleaved calls |
| `GlobCompiler`, `ExitGate` | both glob compilers against one direct matcher; the exit gate and the human gate over it |
| `TraceLog`, `GateControl` | the hash-chained trace; the open, run, close protocol of the real-call gate |

Loops and objects of the source are methods and classes here, each proved equal to a function whose
properties the lemmas state; code that is pure in the source is a function. A run of the orchestrator
(`OrchestratorRuns.Execute`) starts from any state in `idle` or `select` with no active story, unique
non-empty ids and no story mid-flight, and the results of actions are arbitrary.

## Where the code does not do what its comments say

- Clearing the human gate does not resume a run: the decision carries no story id, so the next state
  is `stopped` (orchestrator-v0.ts:223-227, 267-275). Every escalation is therefore final.
- `all_stories_complete` can be reported over unfinished stories ("otherwise complete",
  orchestrator-v0.ts:168). `CompletionOverUnfinishedWork` gives the exact condition; it cannot happen on
  an acyclic backlog without missing dependencies (`SelectDecisionIsExact`).
- A story that lists itself can make the parent loop of `computeCriticalPath` endless
  (criticalPath.ts:34-40, 57-60): exactly if the walk comes to it and nothing later in its list makes
  its path longer (`OwnParentIffEntrySurvives`, `ComputeCriticalPath`). One story that lists itself is
  enough (`OneStoryRunsForEverIffItListsItself`).
- Runs of the gate that overlap share it: the first to finish closes it under the others
  (`FirstFinishClosesForAll`).
- The unescaped glob matcher mistakes its own placeholder: a glob such as `___DSTAR**` compiles to
  another language (harness-core/src/index.ts:1199). `LooseBodyIsCompiledIffClean` gives the exact globs
  for which the text is the intended one, `LooseBodyIsHarnessIffUnsplit` those for which only a
  written-out placeholder is read as `**`; on the latter the exit gate's matches are still matches, and
  `ImplicationIffFilledIsAccepted` says for globs with doubled stars exactly when they are.
- "priority: 0 (never evicted)" (context-manager/src/index.ts:325) holds, with all other priorities above
  0, exactly when the pinned zone fits the token budget by itself; in general, exactly when it fits
  beside what is kept of the artifacts of negative priority.
- Injected pinned sections take the places of the first turns that `keepFirstTurns` would protect.
- Compaction can add tokens: at most 29, and 29 occurs. `CompactionAddsTokensIff` says exactly when it does.
- `maxWorkers` divides the pool's budget but nothing enforces it; `PoolKeepsItsTotalIff` says for which
  numbers of workers the total is kept.
- "Refused runs never open the gate, so they report gateClosedVerified:true"
  (gate-control/src/index.ts:204-205) is about the refused run only: an overlapping run may hold the gate
  open. An opening write that took and then threw, or could not be read back, leaves it open, and so
  does a dropped closing write whose read-back fails; `ContainmentBreaksIffStepLeaks` shows that nothing
  else does.
- A cycle blocks the stories behind it only along walks that meet no done story:
  `DoneCycleDoesNotBlock` shows a runnable story behind a cycle of done ones, and `ActedOnIffNoDeadEnd`
  says exactly which stories are ever acted on.

## Model

| member | source | states |
|---|---|---|
| OrchestratorRuns.PatchIsUpdate | packages/harness-core/src/orchestrator-v0.ts:259-261 | with unique ids a patch changes one position and no other |
| OrchestratorRuns.SelectedIsRunnable | packages/harness-core/src/orchestrator-v0.ts:108-121 | a selected story is todo or ready and all its dependencies are done |
| OrchestratorRuns.AdvanceKeepsTheRest | packages/harness-core/src/orchestrator-v0.ts:250-390 | in any state and for any decision: no tick touches the human-gate flag or the budget, and active story, verdict and stop reason change in the named cases only |
| OrchestratorRuns.NoActiveStoryStops | packages/harness-core/src/orchestrator-v0.ts:175-221 | in a phase that needs a story, none active or an unknown one stops the run with `no_active_story` and changes no story |
| OrchestratorRuns.TickBetween | packages/harness-core/src/orchestrator-v0.ts:158-285 | between stories a tick selects one runnable story, or stops, or escalates; stories, active story, verdict, phase and stop reason in each case, the gate flag unchanged in all |
| OrchestratorRuns.TickInFlight | packages/harness-core/src/orchestrator-v0.ts:175-376 | with a story in flight a tick touches that story only, in the way its action says, and names it unless the run budget is spent |
| OrchestratorRuns.TickMovesPhase | packages/harness-core/src/orchestrator-v0.ts:175-376 | the phase, verdict and attempt guards under which each action occurs, the phase it leads to, and what becomes of verdict, stop reason, active story and gate flag |
| OrchestratorRuns.TickHalted | packages/harness-core/src/orchestrator-v0.ts:223-230 | at the gate or stopped, every tick stops without touching a story, gate flag cleared or not, with the stop reason of each case |
| OrchestratorRuns.StepKeepsShape | packages/harness-core/src/orchestrator-v0.ts:145-390 | one step keeps the run well shaped (unique ids, an active story exactly when in flight, all stories settled between) and never undoes done |
| OrchestratorRuns.RunKeepsShape | packages/harness-core/src/orchestrator-v0.ts:145-390 | the same for every reachable state of every run |
| RunSafety.TickLogs | packages/harness-core/src/orchestrator-v0.ts:255-257 | each tick logs its decision, stamped with the tick counter, and counts one iteration |
| RunSafety.LogIsConserved | packages/harness-core/src/orchestrator-v0.ts:255-257 | over whole runs the log is the old log plus one entry per tick with consecutive stamps, and the counter grows as the log does |
| RunSafety.AttemptsAreConserved | packages/harness-core/src/orchestrator-v0.ts:179-307 | attempts are the initial ones plus the story's develop entries, never above the larger of initial attempts and budget |
| RunSafety.DoneStaysClosed | packages/harness-core/src/orchestrator-v0.ts:108-361 | a dependency-closed set of done stories stays closed and only grows |
| RunSafety.MarksFormATopologicalOrder | packages/harness-core/src/orchestrator-v0.ts:108-361 | every story marked done is marked once, after all its dependencies were done; done means done at the start or marked |
| RunSafety.StuckStoriesAreNeverTouched | packages/harness-core/src/orchestrator-v0.ts:108-121 | no decision ever names, and nothing ever changes, a member of a set of stories that are blocked or escalated or wait for each other or for missing stories |
| RunSafety.CyclesAndMissingDependenciesBlock | packages/harness-core/src/orchestrator-v0.ts:108-121 | a story on or behind an unfinished cycle, a missing dependency or a blocked or escalated story is never named by a decision and never done |
| RunSafety.StuckIffDeadEnd | packages/harness-core/src/orchestrator-v0.ts:108-121 | a story is in the greatest stuck set iff a dependency walk through stories that are not done leads from it into a dead end |
| RunSafety.DoneCycleDoesNotBlock | packages/harness-core/src/orchestrator-v0.ts:108-121 | a todo story behind a cycle of done stories is runnable: the walk has to avoid done stories |
| RunSafety.NothingIsDevelopedAfterEscalation | packages/harness-core/src/orchestrator-v0.ts:223-275 | after the first escalation there are only stops and at most one select that names no story, even if the gate is cleared |
| RunSafety.NobodyClearsTheGate | packages/harness-core/src/orchestrator-v0.ts:145-390 | over any number of ticks the human-gate flag stays as it was: only somebody outside sets it |
| RunSafety.EscalationAwaitsTheHuman | packages/harness-core/src/orchestrator-v0.ts:223-227 | while nobody has set the flag, the tick after an escalation stops with `awaiting_human_gate`, unless the run budget is spent |
| RunSafety.StoriesAreSelectedOnce | packages/harness-core/src/orchestrator-v0.ts:108-285 | no story is selected twice in a run |
| RunSafety.DoneOnlyAfterPassedValidation | packages/harness-core/src/orchestrator-v0.ts:193-361 | each mark-done entry directly follows the checkpoint entry of that story, which directly follows a validation of it with verdict true |
| RunGrammar.EveryPhaseIsOpen | packages/harness-core/src/orchestrator-v0.ts:145-235 | in every phase the log of the round under way is a prefix of a complete round of that story |
| RunGrammar.EveryLogIsInTheGrammar | packages/harness-core/src/orchestrator-v0.ts:145-390 | every log of every run is complete rounds, at most one open round, then stops or one escalation; the escalation names the open round's story and cuts it instead of an attempt or after a failed verdict, or names none between rounds; no two selections name the same story |
| RunGrammar.RoundsAreOfDistinctStories | packages/harness-core/src/orchestrator-v0.ts:145-390 | so any two complete rounds of a log are of different stories |
| SelectDecision.SelectsTheLeastRunnable | packages/harness-core/src/orchestrator-v0.ts:108-121 | the choice is the least runnable story by priority, order index and id; no choice exactly when none is runnable |
| SelectDecision.SelectionByFields | packages/harness-core/src/orchestrator-v0.ts:108-121 | the same said of the stories only: the choice is todo or ready, every dependency is the id of a done story, and no other such story has a lower priority, or the same and a lower order index, or the same and an earlier id |
| SelectDecision.StatusLookup | packages/harness-core/src/orchestrator-v0.ts:128 | with unique ids the status map answers each story's own status |
| SelectDecision.DependencyCases | packages/harness-core/src/orchestrator-v0.ts:127-136 | between stories a present dependency is done, selectable, or blocked or escalated, and the last case excludes the others |
| SelectDecision.WaitingByFields | packages/harness-core/src/orchestrator-v0.ts:127-136 | somebody waits for a human iff a todo or ready story lists a blocked or escalated one |
| SelectDecision.SomethingRunsOrWaits | packages/harness-core/src/orchestrator-v0.ts:108-136 | acyclic and complete backlog: while work is left some story is runnable or one waits on a blocked or escalated one |
| SelectDecision.SelectDecisionIsExact | packages/harness-core/src/orchestrator-v0.ts:158-173 | acyclic and complete backlog: selects the least runnable story iff there is one, escalates iff work is left and none is runnable, reports completion iff no work is left |
| SelectDecision.CompletionOverUnfinishedWork | packages/harness-core/src/orchestrator-v0.ts:168-172 | any backlog with work left: completion is reported iff every story still to do has an unfinished dependency, all of them missing or still to do themselves |
| SelectDecision.CompletionOverOneStory | packages/harness-core/src/orchestrator-v0.ts:168-172 | a backlog of one todo story whose only dependency is missing is reported complete |
| RunLiveness.TickProgresses | packages/harness-core/src/orchestrator-v0.ts:145-390 | every tick of a cooperative run ends it or lowers the remaining work, by exactly one if verdicts come as late as allowed; cooperation asks for success of selections and verdicts of validations only |
| RunLiveness.EveryStoryGetsDone | packages/harness-core/src/orchestrator-v0.ts:145-390 | from any well-formed start with attempts left on the stories that are not stuck, and run budget for 4 times the remaining attempts plus 2 per such story, plus 1, a cooperative run ends within that many ticks with exactly the stories done that are not stuck: at the gate iff some story waits for a blocked or escalated one, otherwise as complete |
| RunLiveness.AcyclicBacklogGetsDone | packages/harness-core/src/orchestrator-v0.ts:145-390 | so on an acyclic backlog of todo, ready and done stories without missing dependencies every story gets done and the run reports `all_stories_complete` |
| RunLiveness.ActedOnIffNoDeadEnd | packages/harness-core/src/orchestrator-v0.ts:108-390 | under the same conditions an unfinished story is named by some run iff no dead end lies ahead of it |
| RunLiveness.GrudgingRunTakesItsTime | packages/harness-core/src/orchestrator-v0.ts:145-390 | when only the last allowed attempt of each story passes, the run has not ended before the bound |
| RunLiveness.SmallerBudgetIsExhausted | packages/harness-core/src/orchestrator-v0.ts:148-151 | so any smaller run budget stops such a run with `run_budget_exhausted`: the bound cannot be lowered |
| RunLiveness.GrudgingRunsExist | packages/harness-core/src/orchestrator-v0.ts:145-390 | such runs exist from every well-formed start, of every length |
| DependencyGraph.Height | apps/web/src/criticalPath.ts:7-11 | the number of stories on a longest chain from a story: one of that length exists and none is longer |
| CriticalPath.Traversal.Visit | apps/web/src/criticalPath.ts:19-27 | the nested search computes the recursive one; the order stays distinct and, on acyclic graphs, dependencies first |
| CriticalPath.PostOrder | apps/web/src/criticalPath.ts:15-28 | the order lists every story once, each after its present dependencies if the graph is acyclic |
| CriticalPath.OrderOfAFork | apps/web/src/criticalPath.ts:15-28 | a story with two dependencies, before a fourth story: dependencies in the order of their list, then the story, then the fourth |
| CriticalPath.FillTable | apps/web/src/criticalPath.ts:30-42 | the two loops compute the longest-path table as its recursion over the order defines it |
| CriticalPath.TableIsJustified | apps/web/src/criticalPath.ts:30-42 | cycles or not, a parent is the story itself or a present dependency, earlier in the order, with a length one less |
| CriticalPath.ParentIsTheFirstLongest | apps/web/src/criticalPath.ts:34-40 | without an own entry a story has length 1 if none of its dependencies is in the table; otherwise its parent is the first of the longest that are, and its length one more |
| CriticalPath.TableHoldsHeights | apps/web/src/criticalPath.ts:30-42 | on an acyclic backlog the table holds the heights |
| CriticalPath.PickLongest | apps/web/src/criticalPath.ts:44-51 | the first story with a longest entry: no entry is longer and no earlier story has one as long |
| CriticalPath.WalkParents | apps/web/src/criticalPath.ts:55-61 | the walk gives a chain of distinct stories as long as the table says, or meets a story that is its own parent and never ends |
| CriticalPath.ComputeCriticalPath | apps/web/src/criticalPath.ts:12-62 | on any backlog: the last loop never ends iff the walk from the chosen story comes to one whose own entry survives; otherwise the result is a real dependency chain of distinct present stories, and on an acyclic backlog no chain is longer |
| CriticalPath.OwnParentIffEntrySurvives | apps/web/src/criticalPath.ts:34-40 | a story becomes its own parent iff it lists itself and neither a later own entry nor a later tabulated dependency follows that makes its path longer than it was then |
| CriticalPath.MeetsIffOwnEntryReached | apps/web/src/criticalPath.ts:30-61 | so the walk of a backlog meets a story that is its own parent iff it comes to such an entry |
| CriticalPath.OneStoryRunsForEverIffItListsItself | apps/web/src/criticalPath.ts:12-62 | a backlog of one story, whatever else the story lists, runs for ever iff the story lists itself |
| PipelineLevels.LevelCache.Compute | apps/api/src/cockpit.ts:114-122 | on any backlog the object computes the recursion over cache and seen set, and cached levels never change; on acyclic backlogs the answer is the plain recursive depth whatever is cached already |
| PipelineLevels.LevelCache.Query | apps/api/src/cockpit.ts:114-124 | the same for a query from outside, in any order of queries |
| PipelineLevels.DeriveWaves | apps/api/src/cockpit.ts:111-124 | the waves group the stories, in backlog order, by the levels that querying them in that order leaves in the cache; on acyclic backlogs these are the recursive depths |
| PipelineLevels.QueryOrderMattersOnACycle | apps/api/src/cockpit.ts:114-124 | on a cycle of two stories the one queried first gets level 2 and the other 1 |
| PipelineLevels.WavesPartitionTheStories | apps/api/src/cockpit.ts:123-124 | every story is in the wave of its level and in no other |
| PipelineLevels.WavesRespectDependencies | apps/api/src/cockpit.ts:114-124 | every present dependency is in a strictly smaller wave |
| PipelineLevels.LevelByDependencies | apps/api/src/cockpit.ts:114-122 | level 0 without dependencies; otherwise at least 1, above every present dependency, and exactly 1 or one above some present one; exactly 1 if all are missing |
| PipelineLevels.LevelIsHeight | apps/api/src/cockpit.ts:114-122 | without missing dependencies the recursive depth is the height less one |
| PipelineLevels.LevelAgreesWithCriticalPath | apps/api/src/cockpit.ts:114-122 | without missing dependencies the cockpit's level is the critical-path table's length less one |
| PipelineLevels.HighestDefined | apps/web/src/PipelineBoard.tsx:57-60 | the greatest level among dependencies that have one, or -1 |
| PipelineLevels.BoardLevels | apps/web/src/PipelineBoard.tsx:41-62 | the board's levels are defined for every story and on acyclic backlogs equal the height less one |
| SignalTokens.SplitIsAtBars | packages/failure-bank/src/index.ts:84-86 | no part of a signal contains a bar, and the parts joined by bars are the signal |
| SignalTokens.OnlySplitIsAtBars | packages/failure-bank/src/index.ts:84-86 | and no other sequence of parts has these two properties |
| SignalTokens.PartsArePieces | packages/failure-bank/src/index.ts:84-86 | so the parts are exactly the bar-free pieces that stand between bars or the ends |
| SignalTokens.TrimIsASlice | packages/failure-bank/src/index.ts:84-86 | trimming takes a slice, cuts off white space only, and leaves none at either end |
| SignalTokens.SpacesAre | packages/failure-bank/src/index.ts:84-86 | the characters that count as white space |
| SignalTokens.TokensAreTrimmedPieces | packages/failure-bank/src/index.ts:84-86 | the tokens of a signal are exactly its pieces between bars, trimmed |
| SignalTokens.TokenOccurs | packages/failure-bank/src/index.ts:84-86 | every token of a signal (what they are: `TokensAreTrimmedPieces`) occurs in the signal |
| FailureBank.AnswerByPieces | packages/failure-bank/src/index.ts:79-99 | merged iff some active gene has a piece between bars whose trimmed text occurs in the new signal; otherwise full iff the maximum is reached |
| FailureBank.BankByFields | packages/failure-bank/src/index.ts:79-99 | the new bank field by field: the first such gene counts one more, has one more version and takes a longer avoid text only; an added gene is itself with count 1; a full bank stays |
| FailureBank.BankingKeepsOrder | packages/failure-bank/src/index.ts:79-99 | a bank filled only by banking: no token of an active gene occurs in a later active gene's signal, active genes never exceed the maximum, counts sum to the accepted calls |
| FailureBank.BankingLeavesNothingToConsolidate | packages/failure-bank/src/index.ts:79-173 | so consolidating such a bank merges nothing: it only sorts the active genes |
| FailureBank.ActiveGenesNeverShare | packages/failure-bank/src/index.ts:74-173 | under any interleaving of banking, retiring and consolidating, active genes share no token and never exceed the maximum |
| FailureBank.GroupsPartition | packages/failure-bank/src/index.ts:150-170 | every gene is in exactly one group of the merge |
| FailureBank.SharingByPieces | packages/failure-bank/src/index.ts:154-159 | two signals share a token iff they have pieces between bars with the same trimmed text |
| FailureBank.SortedActiveByFields | packages/failure-bank/src/index.ts:141-145 | what is merged: the genes whose status is active, all of them, by id, those of one id in their given order |
| FailureBank.GroupsAreMaximal | packages/failure-bank/src/index.ts:150-170 | a gene joins the first group whose head it shares a token with: it shares none with an earlier head |
| FailureBank.OutputsSummariseGroups | packages/failure-bank/src/index.ts:150-170 | each output has its group's first id, signal and details, the sum of its counts and the first of its longest avoid texts |
| FailureBank.MergeConservesCounts | packages/failure-bank/src/index.ts:156-166 | the sum of occurrence counts is conserved |
| FailureBank.OutputsAreSortedAndDisjoint | packages/failure-bank/src/index.ts:145-170 | outputs are sorted by id, active, and share no token pairwise |
| FailureBank.ConsolidationIsACorrectMerge | packages/failure-bank/src/index.ts:138-173 | all of the above for the active genes of any bank |
| FailureBank.ConsolidationIsIdempotent | packages/failure-bank/src/index.ts:138-173 | a second consolidation changes nothing |
| FailureBank.SystemicStaysSystemic | packages/failure-bank/src/index.ts:175-178 | with positive counts the output of a group with a systemic gene is systemic |
| FailureBankStore.WarningBank.FindExisting | packages/failure-bank/src/index.ts:82-86 | the search finds the first active gene with a token inside the new signal |
| FailureBankStore.WarningBank.Strengthen | packages/failure-bank/src/index.ts:87-91 | the found gene alone is updated in place, keeping the longer avoid text |
| FailureBankStore.WarningBank.BankGene | packages/failure-bank/src/index.ts:79-99 | in place: answer and new contents are those that `AnswerByPieces` and `BankByFields` describe; an added gene is a fresh copy |
| FailureBankStore.WarningBank.ActiveGenes | packages/failure-bank/src/index.ts:141-142 | the active genes in order, and the number of the others |
| FailureBankStore.SortById | packages/failure-bank/src/index.ts:145 | sorting the gene objects is sorting what they hold |
| FailureBankStore.AbsorbLoop | packages/failure-bank/src/index.ts:156-166 | the inner loop with its set of used indices computes the absorption and leaves the genes that share nothing |
| FailureBankStore.MergeLoop | packages/failure-bank/src/index.ts:147-170 | the quadratic loop computes the recursive merge; outputs plus merges are the inputs; results are fresh copies |
| FailureBankStore.WarningBank.Consolidate | packages/failure-bank/src/index.ts:138-173 | in place: contents become the consolidation, whose links `SharingByPieces` describes; outputs, merged and archived together are the old size |
| ContextCompaction.Level1NeverRaises | packages/context-manager/src/index.ts:215-269 | level 1 never raises a turn's count nor counts less than the text has |
| ContextCompaction.SummaryIsAPrefix | packages/context-manager/src/index.ts:260-269 | a summary keeps role and pin and is a beginning of the text, within its target, not ending in a space, plus the marker; how much exactly: `SummaryIsExact` |
| ContextCompaction.SummaryIsExact | packages/context-manager/src/index.ts:260-269 | the target is the rate's share of the text rounded down, at least 50 and at most all; a target ending in no space is kept in full, otherwise all but its trailing white space; the count is a quarter of that plus 12, rounded up |
| ContextCompaction.Level1ByTurns | packages/context-manager/src/index.ts:215-227 | pinned turns stay, the first and last ones are only pinned, and of the others exactly those above the threshold are summarised |
| ContextCompaction.ChainSummaryIsAPrefix | packages/context-manager/src/index.ts:271-281 | the chain summary is a beginning of the joined unpinned texts, all of it or at least 100 characters, plus the marker |
| ContextCompaction.JoinedByOffsets | packages/context-manager/src/index.ts:273 | the joined texts stand one after the other in order, with one space between any two and nothing else |
| ContextCompaction.ChainSummaryIsExact | packages/context-manager/src/index.ts:271-281 | one unpinned system turn with as many characters of the joined texts as the rate allows, at least 100 if there are as many; it counts a quarter of that allowance plus 18, rounded up, even where the text is shorter |
| ContextCompaction.ChainByThreshold | packages/context-manager/src/index.ts:230-237 | level 2 fires strictly above its threshold; then the pinned turns come first in order and the summary of the others last |
| ContextCompaction.ChainSummaryCost | packages/context-manager/src/index.ts:271-281 | the chain summary costs at most 29 tokens more than what it replaces |
| ContextCompaction.CompactionCost | packages/context-manager/src/index.ts:338-359 | the whole pipeline adds at most 29 tokens to input and injected sections, and no output turn counts less than its text has |
| ContextCompaction.CompactionCostIsAttained | packages/context-manager/src/index.ts:338-359 | an input on which it adds exactly 29 |
| ContextCompaction.CompactionAddsTokensIff | packages/context-manager/src/index.ts:215-359 | tokens are added to the input and the injected sections iff level 2 fires, leaves something to summarise, the window keeps the summary, and the summary counts more than all turns that are not protected |
| ContextCompaction.CompactionStructure | packages/context-manager/src/index.ts:338-359 | pinned, injected and kept turns survive in order, unchanged but for the flag; the total is the exact sum; the newest unpinned turns remain, all of them or exactly as many as the window holds, and at most one if level 2 fired |
| ContextCompaction.WindowKeepsPinned | packages/context-manager/src/index.ts:246-258 | the running index of the sliding window never drops a pinned turn |
| ContextCompaction.WindowKeepsNewest | packages/context-manager/src/index.ts:246-258 | it drops exactly the oldest unpinned turns |
| ContextCompaction.InjectionTakesFirstPlaces | packages/context-manager/src/index.ts:215-359 | for every configuration the pinned part of the output is the sections followed by the turns that are pinned, among the first `keepFirstTurns` less the number of sections, or among the last `keepLastTurns` |
| ContextCompaction.InjectionByTurns | packages/context-manager/src/index.ts:344-354 | each section becomes a pinned system turn with its text and a quarter of its length rounded up, in front of the untouched turns |
| ContextCompaction.InjectionCanEvictTheFirstTurn | packages/context-manager/src/index.ts:336-359 | an input whose first turn is kept without sections and lost with one |
| ArtifactBudget.EnforceTokenBudget | packages/context-manager/src/index.ts:198-208 | the loop is the greedy selection over the priority order |
| ArtifactBudget.GreedyPartitions | packages/context-manager/src/index.ts:198-208 | nothing is lost or duplicated, and what is kept fits the budget |
| ArtifactBudget.OrderedByPriority | packages/context-manager/src/index.ts:201 | the selection goes by ascending priority, artifacts of one priority in their given order, none lost |
| ArtifactBudget.DefaultsAre | packages/context-manager/src/index.ts:201-204 | an artifact without a priority stands among those of 5, one without a count costs nothing |
| ArtifactBudget.DeferredOnlyIfTooBig | packages/context-manager/src/index.ts:203-206 | an artifact is kept iff it fits beside what was kept before it |
| ArtifactBudget.BuildPinnedZone | packages/context-manager/src/index.ts:325-334 | one artifact per section, in order, with its name and text, priority 0 and a quarter of the text's length rounded up as its count |
| ArtifactBudget.PinnedZoneIsKeptIffItFits | packages/context-manager/src/index.ts:196-334 | among artifacts of priority above 0 the pinned zone is kept iff it fits the budget by itself |
| ArtifactBudget.ZoneIsDeferredUnlessItFits | packages/context-manager/src/index.ts:196-334 | among artifacts of any priority the zone has its turn after those of negative priority, and nothing of it is deferred iff it fits beside what was kept of them |
| ModelRouter.StrengthIsAFraction | packages/model-gateway/src/index.ts:762-770 | strength lies between 0 and 1 |
| ModelRouter.StrengthByPrice | packages/model-gateway/src/index.ts:763-770 | a half without a price; otherwise the place of the price between the least and the greatest known price of a candidate, 1 if they are equal |
| ModelRouter.NeedsAre | packages/model-gateway/src/index.ts:732 | the needs of the five complexities |
| ModelRouter.SuccessByFactors | packages/model-gateway/src/index.ts:789-801 | a candidate as strong as the need has success 1, lacking the domains only 0.75, the context only 0.5, both 0.375; below the need 1 becomes 0.75 plus 0.4 of the fraction reached, at most 1 |
| ModelRouter.CostByPrice | packages/model-gateway/src/index.ts:784-786 | the cost of a candidate: its price, one and a half times the greatest known price, or 1.5 where none is known |
| ModelRouter.NormCostByCost | packages/model-gateway/src/index.ts:787-803 | the normalised cost is the share of the cost of a dearest candidate, 0 if that is 0 |
| ModelRouter.SuccessIsBounded | packages/model-gateway/src/index.ts:789-800 | every estimated success, given exactly by `SuccessByFactors`, lies between 0.28125 and 1 |
| ModelRouter.SuccessBoundIsAttained | packages/model-gateway/src/index.ts:789-800 | the lower bound is attained |
| ModelRouter.DearerIsNoWeaker | packages/model-gateway/src/index.ts:762-800 | all else equal a dearer model's estimated success is no lower |
| ModelRouter.CandidatesAre | packages/model-gateway/src/index.ts:780-782 | the candidates are the models of the registry that are no command-line tools and have the required capability |
| ModelRouter.DecidesIffThereIsACandidate | packages/model-gateway/src/index.ts:780-782 | there is a decision iff the registry has such a model |
| ModelRouter.ScoresByCandidate | packages/model-gateway/src/index.ts:790-805 | every score is that of a candidate, with the estimate and the costs of that candidate |
| ModelRouter.ScoreIsWeighed | packages/model-gateway/src/index.ts:790-805 | and is its estimate less lambda times its normalised cost |
| ModelRouter.DecisionIsTheArgmax | packages/model-gateway/src/index.ts:780-813 | the decision ranks each candidate's score once, best first, and takes a model that every other candidate is behind in score, or ties with and follows by name |
| ModelRouter.RaisingLambdaNeverCostsMore | packages/model-gateway/src/index.ts:780-813 | a greater lambda never selects a higher normalised cost |
| ModelRouter.RegistryOrderIsIrrelevant | packages/model-gateway/src/index.ts:780-813 | the same models in another order give the same winner |
| CallBudgets.BudgetGuard.CheckBudget | packages/model-gateway/src/index.ts:1063-1074 | killed, then calls, then tokens: the first exceeded decides |
| CallBudgets.BudgetGuard.Record | packages/model-gateway/src/index.ts:1076-1079 | one call and its tokens are added, nothing else changes |
| CallBudgets.BudgetGuard.Kill | packages/model-gateway/src/index.ts:1081-1084 | only the switch changes |
| CallBudgets.RunBudgetPool.RegisterWorker | packages/model-gateway/src/index.ts:1112-1130 | a known worker keeps its guard; a new one gets a fresh guard with its share, killed if the pool is |
| CallBudgets.ShareIsTheFloor | packages/model-gateway/src/index.ts:1116-1119 | the shares of all planned workers are within the total, and shares greater by one would not be |
| CallBudgets.NewGuardByFields | packages/model-gateway/src/index.ts:1112-1130 | a new worker has nothing recorded, the limits given or its shares, and is killed iff the pool is |
| CallBudgets.StartByFields | packages/model-gateway/src/index.ts:1156-1178 | a start registers its worker and brings a call in flight iff the guard is not killed and below both limits; it records nothing |
| CallBudgets.FinishByFields | packages/model-gateway/src/index.ts:1179-1184 | the end of a call takes it off and records one call and its tokens on its own worker iff it succeeded |
| CallBudgets.RunBudgetPool.KillEverything | packages/model-gateway/src/index.ts:1132-1137 | every registered guard is killed, counters untouched |
| CallBudgets.OvershootIsBounded | packages/model-gateway/src/index.ts:1043-1184 | under every interleaving with at most c calls of a worker in flight, its recorded and pending calls stay within the limit plus c - 1, and at 0 if a limit is not positive |
| CallBudgets.TokenOvershootIsBounded | packages/model-gateway/src/index.ts:1043-1184 | with at most so many tokens per call, recorded tokens and those of the calls in flight stay within the token limit less one plus the tokens of c calls |
| CallBudgets.OvershootIsAttained | packages/model-gateway/src/index.ts:1164-1184 | for every c and limit some interleaving records limit plus c - 1 calls |
| CallBudgets.TokenOvershootIsAttained | packages/model-gateway/src/index.ts:1164-1184 | the token bound is attained for every c, wherever fewer calls than the limit can record all tokens but one |
| CallBudgets.PoolKeepsItsTotalIff | packages/model-gateway/src/index.ts:1112-1184 | every run with k registered workers and at most c calls of each in flight keeps the total iff k times the peak of one worker is within it |
| CallBudgets.PoolKeepsItsTotal | packages/model-gateway/src/index.ts:1112-1151 | so with default shares, no more workers than planned and one call per worker at a time, total calls stay within the budget |
| CallBudgets.ExtraWorkersOverspend | packages/model-gateway/src/index.ts:1112-1130 | where the default shares use up the budget, for any number of workers beyond the plan some run overspends it |
| CallBudgets.NothingStartsAfterKillAll | packages/model-gateway/src/index.ts:1112-1184 | once everything is killed no call starts on any worker, registered before or later |
| CallBudgets.KillAllKillsEverything | packages/model-gateway/src/index.ts:1132-1137 | killing the pool kills every guard and marks the pool |
| GlobCompiler.SpecialsAre | packages/agent-delegate/src/exitGate.ts:191 | the characters that are escaped |
| GlobCompiler.SectionSignIsAWildcard | packages/agent-delegate/src/exitGate.ts:191-194 | the exit gate reads a section sign as `**`: it accepts every path without line terminators |
| GlobCompiler.StrictBodyIsCompiled | packages/agent-delegate/src/exitGate.ts:187-198 | escape and three replacements produce the intended pattern for every glob without the section sign |
| GlobCompiler.CompiledParses | packages/agent-delegate/src/exitGate.ts:187-198 | the intended pattern text parses as the intended regular expression |
| GlobCompiler.ReMatchesDirectly | packages/agent-delegate/src/exitGate.ts:187-198 | that regular expression accepts what the recursive matcher accepts |
| GlobCompiler.GlobMatchIsDirect | packages/agent-delegate/src/exitGate.ts:186-198 | globs without `?` and the section sign: the exit gate's matcher is the recursive matcher, on all paths |
| GlobCompiler.LooseBodyIsCompiledIffClean | packages/harness-core/src/index.ts:1197-1201 | the placeholder pipeline produces the intended pattern iff the glob has no trap |
| GlobCompiler.MatchesGlobIsDirect | packages/harness-core/src/index.ts:1197-1201 | for trap-free path globs the unescaped matcher is the recursive matcher with dots as wildcards |
| GlobCompiler.LooseBodyIsHarnessIffUnsplit | packages/harness-core/src/index.ts:1197-1201 | the placeholder pipeline treats a placeholder written out as `**` and nothing else differently iff, scanned from the left, it splits no mark of a `**` |
| GlobCompiler.MatchesGlobIsHarness | packages/harness-core/src/index.ts:1197-1201 | for unsplit path globs the unescaped matcher is the recursive matcher that reads dots and written-out placeholders as wildcards |
| GlobCompiler.ExitGateMatchImpliesHarnessMatch | packages/harness-core/src/index.ts:1197-1201 | for unsplit path globs and paths without line terminators the unescaped matcher accepts all that the exit gate accepts |
| GlobCompiler.CleanIsUnsplit | packages/harness-core/src/index.ts:1197-1201 | trap-free globs are unsplit |
| GlobCompiler.TrapMakesTheMatchersDisagree | packages/harness-core/src/index.ts:1197-1201 | under `___DSTAR**` the exit gate accepts files that the unescaped matcher refuses |
| GlobCompiler.SplitCanBeHarmless | packages/harness-core/src/index.ts:1197-1201 | under `___DSTAR**DSTAR___`, which splits a mark, it still does: being unsplit is sufficient and not necessary |
| GlobCompiler.MatchesGlobReads | packages/harness-core/src/index.ts:1197-1201 | for globs whose stars are all doubled, traps or not, the unescaped matcher is the recursive matcher of the glob with the placeholders it finds read as `**` |
| GlobCompiler.ImplicationIffFilledIsAccepted | packages/harness-core/src/index.ts:1197-1201 | for such globs without dots the exit gate's matches are all matches of the unescaped matcher iff that matcher accepts one path: the glob with an unused character for each `**` |
| ExitGate.RunExitGate | packages/agent-delegate/src/exitGate.ts:116-184 | the six stage results in order; accepted iff there is a diff, every stage passes and no file is out of the write-set; one file outside rejects the whole and skips the rest |
| ExitGate.HumanGateByCases | packages/harness-core/src/index.ts:342-357 | when the human gate gives each of its answers and when none: an escalation before a promotion before a changed file that no glob matches before a systemic failure |
| ExitGate.ExitGateAcceptanceIsInScope | packages/harness-core/src/index.ts:342-357 | with path globs that split no mark, or split marks shown to be harmless, what the exit gate finds in the write-set never makes the human gate raise `scope_expansion` |
| ExitGate.TrapStopsAnAcceptedPatch | packages/harness-core/src/index.ts:342-357 | with a trap in the write-set it can |
| TraceLog.ValidateTrace | packages/event-log/src/index.ts:69-80 | the loop reports exactly the sequence, chain and hash faults, in order, and nothing iff the trace is valid |
| TraceLog.NoFaultIsValid | packages/event-log/src/index.ts:69-80 | a prefix has no fault iff every event in it is in place, linked and hashed |
| TraceLog.NextEventCarries | packages/event-log/src/index.ts:40-56 | the next event carries what the caller gave, the next number, the hash of its predecessor and its own |
| TraceLog.AppendKeepsValid | packages/event-log/src/index.ts:86-100 | appending the next event keeps a trace valid |
| TraceLog.AppendedIsValid | packages/event-log/src/index.ts:86-100 | so does any number of appends, each event being added at the end |
| TraceLog.TraceFile.AppendNextEvent | packages/event-log/src/index.ts:86-100 | the file grows by the returned event, which continues its tail; a valid file stays valid |
| TraceLog.TraceFile.RecordRegistrations | packages/harness-core/src/index.ts:1307-1330 | the registration loop with its own copy of the file has the effect of one append per registration and keeps a valid file valid |
| TraceLog.SameFinalHashSameTrace | packages/event-log/src/index.ts:69-80 | with an injective hash two accepted traces with the same final hash are equal event for event |
| TraceLog.TruncationIsNotDetected | packages/event-log/src/index.ts:69-80 | every prefix of an accepted trace is accepted |
| GateControl.PolicyFile.SetGateEnabled | packages/gate-control/src/index.ts:72-99 | file and answer for every outcome of read, write and read-back; a verified answer means the file holds the value |
| GateControl.WriteByOutcomes | packages/gate-control/src/index.ts:72-99 | the file after a write and when the answer is verified, unverified or an exception, by what read, write and read-back do |
| GateControl.RunStartsIff | packages/gate-control/src/index.ts:207-226 | a run starts iff the budget allows it, the policy was read, there is no kill switch nor the override in CI, and the opening write is confirmed: file read with its field, read back, and the write took or was dropped on an open gate |
| GateControl.RefusedStartChangesNothing | packages/gate-control/src/index.ts:211-220 | a start refused by budget, kill switch, CI or an unreadable policy leaves file, runs and alarm as they were |
| GateControl.NothingStartsOverTheCeiling | packages/gate-control/src/index.ts:133-215 | with a ledger no run starts once the ceiling is reached or with an estimate that would pass it |
| GateControl.FinishByFields | packages/gate-control/src/index.ts:228-248 | a finish ends its run, closes the file if its write takes, and is CRITICAL iff an answer came that does not confirm the gate closed |
| GateControl.ContainmentBreaksIffStepLeaks | packages/gate-control/src/index.ts:207-251 | from a contained state, a step of any run leaves the gate open with no run responsible iff it is one of the two leaking outcomes |
| GateControl.LeaksHappen | packages/gate-control/src/index.ts:72-251 | a contained state and a step for each of the two leaks |
| GateControl.GateStaysContained | packages/gate-control/src/index.ts:207-251 | with successful reads and writes that take, are dropped or throw without effect, the gate is open under every interleaving only while a run is between open and close or after a CRITICAL error |
| GateControl.QuietEndIsClosed | packages/gate-control/src/index.ts:207-251 | when all runs have ended without a CRITICAL error the gate is closed |
| GateControl.FileHoldsTheLastWrite | packages/gate-control/src/index.ts:72-251 | after any interleaving the file holds what the last write that took has written |
| GateControl.GateIsOpenUnlessClosedSince | packages/gate-control/src/index.ts:207-251 | from the start of a run on, the gate is open iff the last write that took since is not the close of some run |
| GateControl.FirstFinishClosesForAll | packages/gate-control/src/index.ts:207-251 | the first of two overlapping runs to finish closes the gate under the other |
| GateControl.SequentialRunsHaveTheGate | packages/gate-control/src/index.ts:207-251 | runs that follow each other have the gate open as long as they run, whatever the file does |
| GateControl.RunsPassAllChecks | packages/gate-control/src/index.ts:110-220 | over whole interleavings runs never change the kill switch or the CI override, and none starts under the kill switch or in CI under the override; the budget is the part of `RunStartsIff` and `NothingStartsOverTheCeiling` |
| GateControl.RefusalReportIsAboutItself | packages/gate-control/src/index.ts:204-226 | over a well-behaved file a start that does not run reports the gate closed and leaves it as it was: the report is true iff the gate was closed before |
| GateControl.RefusalCanMisreport | packages/gate-control/src/index.ts:204-226 | while another run holds the gate, both a start refused by the kill switch and an admitted one whose write throws report it closed |
| GateControl.BudgetLedger.CanStart | packages/gate-control/src/index.ts:133-141 | allowed iff the ceiling is not reached and the estimate fits below it |
| GateControl.BudgetLedger.Record | packages/gate-control/src/index.ts:142 | the amount is added |
| GateControl.SpendingStaysNearCeiling | packages/gate-control/src/index.ts:126-145 | runs one after the other: if each overruns its estimate by at most some slack, spending never passes the ceiling by more than one slack |
| GateControl.OverlappingSpendingIsBounded | packages/gate-control/src/index.ts:126-145 | runs that overlap, at most c open: spending and what is open never pass the ceiling by more than one slack and the largest cost of c - 1 further runs |
| GateControl.OverlappingSpendingIsAttained | packages/gate-control/src/index.ts:126-145 | c runs begun together on what is left reach that bound |

## Left out

- WalkParents: answers `Endless` where the source's loop would push the same story for ever.
- RunExitGate: the write-set, spec, validator, regression and assessor stages are boolean inputs and the changed files are given; error texts and warnings are not modelled.
- MatchesGlobIsDirect: the fragment of regular expressions covers literal characters, dots, `[^/]` and stars; globs with other regex characters in the unescaped matcher are outside it.
- GlobMatchIsDirect: globs with `?` or the section sign are excluded, as the source gives them regex or placeholder meaning by accident.
- RegisterWorker: `maxWorkers` is positive; the source divides by zero to an infinite share.
- ExitGateMatchImpliesHarnessMatch: one way for globs with dots or single stars; `ImplicationIffFilledIsAccepted` is exact for the others.
- ExitGateAcceptanceIsInScope: write-sets without characters that only the unescaped matcher reads as syntax.
- ActedOnIffNoDeadEnd: stories that are not stuck have attempts left, and the run budget suffices for the bound.
- Ids and names are strings under any total order in place of `localeCompare`; characters outside the basic plane are single characters here.
- Numbers are exact: prices, rates and lambda are reals, priorities and counts are integers; rounding, NaN and infinity are not modelled.
- Records keyed by an id, such as the longest-path table, are maps; ids that name members of `Object.prototype` are not special here.
- Story fields that no decision reads (epic, write set, validation commands, rollback notes), unknown states and actions, and `buildResumeSummary`.
- Lanes and admission of `derivePipeline`, and the drawing of the board beyond its levels.
- The failure bank's injection, remedies, validation, timestamps and persistence; a gene's descriptive fields are one copied field.
- `adaptiveCompress` (the pipeline without injection), pointer-safe compaction and the other packet builders.
- SHA-256 and JSON: the hash is any injective function on structured events; redaction has already happened.
- The text of the policy file and its regular expressions: a record with an optional `enabled`; the token cap guard and the policy-change classifier.
- The router's rationale text and the tier router; the provider calls themselves.
- Files, processes, HTTP routes, user interface, prompts, and everything about what models answer.
