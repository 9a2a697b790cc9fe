# Verified model of the pipeline engine and its neighbours

This project models, in Dafny, the parts of the agent platform in which state
and order matter, and proves what they promise.

The largest part is the pipeline: a definition becomes a table of nodes with
dependencies; the engine runs the pending nodes whose dependencies completed,
round by round, retries handlers, blocks what lies downstream of a failure,
unblocks it again one level per repair pass, and accepts manual retries and
overrides. Handlers are arbitrary: `outcome(v, attempt)` says how the handler
of node `v` ends on that attempt. The code between two awaits is one step.

| file | part of the system |
|---|---|
| `Optional.dfy` | a value that may be missing |
| `Graphs.dfy` | node tables, dependency walks, topological levels, cycles |
| `Blocking.dfy` | runnable nodes, downstream blocking, the repair pass |
| `Runs.dfy` | what each engine operation computes, as functions of the rows |
| `PipelineStore.dfy`, `PipelineEngine.dfy` | the store and the engine as classes, proved against `Runs` |
| `Scheduling.dfy` | rounds are levels; termination; the 200-round cap |
| `RunOutcomes.dfy` | run status, recovery after an override |
| `RunRows.dfy` | which node stops a run, and every row and status a run leaves |
| `RunInvariants.dfy` | what every history of start, retry and override keeps, charges, artifacts and marks included |
| `RetryLimits.dfy` | when a manual retry works, and retry bounds |
| `SpendLedger.dfy` | the ledger and its two caps under concurrent runs |
| `PostQueues.dfy` | the dispatch queue, its retries and dead letters |
| `ReflectionLoops.dfy` | the best-of-n loop around a handler, and what it means inside the engine |
| `Conditionals.dfy` | conditional blocks of site templates |
| `WilsonIntervals.dfy`, `Strategies.dfy` | the confidence interval and the strategy lifecycle it feeds |
| `CallTurns.dfy` | turn tracking and the retry cache of a voice call |
| `ConcurrencyLimiters.dfy` | `pLimit` |
| `RateLimiters.dfy` | the sliding-window rate limiter |
| `AbHarness.dfy` | weighted choice of an experiment arm |
| `EpisodicPivots.dfy` | the pivot table over episodes |

`dafny verify dfyconfig.toml` checks everything.

## How the results hang together

*Levels.* `Level(g, done, halted, k)` is what k rounds can complete at most:
the nodes already done, plus those not halted whose dependencies all lie in
level k-1. `RoundsReachLevel` shows that a loop that is not cut short
completes exactly that level, on every graph and from every state in which
nothing is blocked for no reason, and that every repair pass ends in such a
state. `RoundsDone` shows that the loop is not cut short exactly when the
nodes of the level it can reach can all complete, and `RoundsStopAt` where it
is cut short otherwise. Together they give the exact status and every row after
every start, retry and override (`FreshRunEnds`, `FreshRunStops`,
`OperationEnds`, `OperationStops`, `OperationLeaves`),
level-synchronous scheduling, the unobservable cap, and recovery although a
pass unblocks only one level.
`LevelMeansShortWalks` and `AcyclicMeansFiniteDepth` tie levels to walks and
cycles of the graph.

*Histories.* `History(e, ops)` is a start followed by any sequence of retries
and overrides. The classes are proved to compute it, and `RunInvariants`,
`RunOutcomes` and `RetryLimits` reason about it.

*Protocols.* For calls, limiters and the queue, the state is proved equal to
a description of the event history that does not mention the bookkeeping:
a turn is suppressed exactly when a newer turn or an interrupt came after its
start; the started tasks are exactly the first (finished + limit)
submissions; a request is allowed exactly when fewer than the maximum of all
requests ever allowed lie in its window.

## What the proofs say about the code that its wording does not

- A node whose attempts are used up is never started again by any manual
  operation (`ExhaustedIsNeverRun`), so retrying it completes neither the node
  nor the run (`RetryOfExhausted`); a node whose handler kept throwing is
  always in that position (`ThrowingExhausts`). With completed dependencies
  such a retry ends blocked, and the node is pending or awaits its missing
  token (`RetryOfExhaustedBlocks`). Where the rest of the run can complete, a
  retry completes it exactly when the node still can (`RetryCompletes`).
- `startRun` never ends in `failed`, because a failing node stops the run as
  `blocked` before the run is finalised (`FreshRunNeverFailed`).
- A start leaves the run marked `running` exactly when every node of the first
  200 levels can complete and they are not all nodes, or there are none
  (`FreshRunEnds`); `DeepChainLeftRunning` gives runs of that kind.
- A settlement is refused only when it has to be (`RefusedExactlyWhenOverCap`).
  The task cap holds under every clock. The day cap holds for all costs, runs
  and policies exactly when each settlement reads one day twice or is the
  first to be stamped on its day (`DayCapExactlyWhenClockSafe`), which every
  clock that never steps back ensures.
- Templates with more than 50 blocks keep tags (`ResultIsMeaning`, in both
  directions); what is returned still has the right meaning.
- Dispatching an item that was already dispatched delivers it again under a
  new idempotency key (`RedispatchDelivers`); a caller gets at most one
  delivery, whatever adapters reply, exactly when it never does that
  (`DeliversOnceExactlyWhenGuarded`).
- A retryable refusal that uses up the last attempt reports a delay although
  the item is then dead; no other dispatch does (`DelayOfDeadLetter`).
- A cached replay may repeat the output of an older turn (`ReplayOfOlderTurn`).
  Counting replays, the turns whose output is sent ascend strictly exactly
  when no replay carries output (`OutputsAscendWithoutReplays`); a replay never
  brings out output that was suppressed (`BeginFinal`).
- A strategy inserted with an empty region is not found by its own key
  afterwards: every later upsert of it is refused by the index
  (`UpsertedAgain`).
- A reflection loop without any allowed iteration calls the handler once
  and reports the call as not accepted.
- With non-negative weights that add up to zero every bucket falls through to
  the last arm (`FallbackForZeroTotal`).

## Model

| member | source | states |
|---|---|---|
| `Graphs.GraphOfHoldsEveryRow` | src/pipeline/sqlitePipelineStore.ts:186-234 | a definition yields a node table exactly when its ids are distinct, and the table then holds every row in definition order |
| `Graphs.LevelMeansShortWalks` | src/pipeline/sqlitePipelineStore.ts:311-320 | a node can run by round k exactly when every dependency walk ending in it has at most k nodes and stays in the table |
| `Graphs.AcyclicMeansFiniteDepth` | src/pipeline/sqlitePipelineStore.ts:311-320 | a closed graph is acyclic exactly when levels reach every node |
| `Graphs.LevelSettles` | src/pipeline/engine.ts:170-187 | levels stop growing after as many rounds as nodes were uncompleted |
| `Blocking.RunnableExact` | src/pipeline/sqlitePipelineStore.ts:311-320 | the list holds exactly the pending rows all of whose dependencies are completed, each once |
| `Blocking.RunnableInOrder` | src/pipeline/sqlitePipelineStore.ts:250-257 | the list is in the order of the table |
| `Blocking.BlockedFurther` | src/pipeline/sqlitePipelineStore.ts:322-336 | blocking one more dependent, even from a stale snapshot, stays within what is pending and downstream of the source, and lowers the number of pending rows |
| `Blocking.ClosedIsPropagated` | src/pipeline/sqlitePipelineStore.ts:322-336 | once no pending row depends on the source, exactly the rows pending and reachable through pending rows are blocked |
| `Blocking.RecomputedHasFront` | src/pipeline/sqlitePipelineStore.ts:338-358 | after one repair pass no row is blocked with all its dependencies completed |
| `Blocking.PassesUnblockLevels` | src/pipeline/sqlitePipelineStore.ts:338-358 | each pass unblocks one level: the rows blocked after k passes are those blocked before without level k above what is neither failed nor blocked |
| `PipelineStores.PipelineStore.constructor` | src/pipeline/sqlitePipelineStore.ts:186-234 | every row starts pending with no attempts |
| `PipelineStores.PipelineStore.SetRunStatus` | src/pipeline/sqlitePipelineStore.ts:266-273 | replaces the run's status and touches no row |
| `PipelineStores.PipelineStore.SetNodeStatus` | src/pipeline/sqlitePipelineStore.ts:275-309 | replaces one row's status and override mark, its attempts only when given; an unknown row is an error that changes nothing |
| `PipelineStores.PipelineStore.BlockDependents` | src/pipeline/sqlitePipelineStore.ts:322-336 | blocks exactly what was pending and reachable through pending rows, changes no other status, and terminates on every graph, cyclic or not |
| `PipelineStores.PipelineStore.RecomputeBlockedNodes` | src/pipeline/sqlitePipelineStore.ts:338-358 | turns to pending exactly the blocked rows without a failed or blocked dependency, judged on the statuses before the pass |
| `PipelineEngines.PipelineEngine.CollectUpstreamArtifacts` | src/pipeline/engine.ts:561-576 | folds the artifacts of the given dependencies |
| `PipelineEngines.PipelineEngine.ExecuteNode` | src/pipeline/engine.ts:218-386 | one node's token check, attempt loop, settlement and blocking compute what `Runs.ExecuteNode` describes |
| `PipelineEngines.PipelineEngine.Settle` | src/pipeline/engine.ts:286-331 | the artifact is kept even when the cost then breaks the budget; otherwise the cost is charged and the node completed |
| `PipelineEngines.PipelineEngine.RunRound` | src/pipeline/engine.ts:177-184 | the rows of the snapshot one after another, until one does not complete |
| `PipelineEngines.PipelineEngine.ExecuteRun` | src/pipeline/engine.ts:154-188 | the scheduling loop computes what `Runs.ExecuteRun` describes, from every state |
| `PipelineEngines.PipelineEngine.FinalizeRun` | src/pipeline/engine.ts:514-537 | the final status by priority: completed, failed, blocked, running |
| `PipelineEngines.PipelineEngine.RetryNode` | src/pipeline/engine.ts:190-203 | a retry resets the row, repairs once and runs; an unknown node is an error that changes nothing |
| `PipelineEngines.PipelineEngine.OverrideNode` | src/pipeline/engine.ts:205-216 | an override completes the row, repairs once and runs; an unknown node is an error that changes nothing |
| `PipelineEngines.StartRun` | src/pipeline/engine.ts:131-152 | a definition with distinct ids is started as the empty history of its table; a missing one and one with repeated ids are errors |
| `Scheduling.RoundEffect` | src/pipeline/engine.ts:173-185 | a round that is not cut short completes its whole work list and touches no other row |
| `Scheduling.RoundStops` | src/pipeline/engine.ts:178-183 | a round that is cut short leaves a listed node uncompleted |
| `Scheduling.RunnableIsNextLevel` | src/pipeline/sqlitePipelineStore.ts:311-320 | when nothing is blocked for no reason, the runnable nodes are exactly the next level |
| `Scheduling.RoundAdvances` | src/pipeline/engine.ts:173-186 | a completed round with its repair pass adds exactly one level |
| `Scheduling.RoundsReachLevel` | src/pipeline/engine.ts:170-187 | after k rounds that were not cut short exactly level k is completed, on every graph |
| `Scheduling.RoundMakesProgress` | src/pipeline/engine.ts:170-187 | every round that does not return lowers the number of uncompleted nodes, although the repair pass may create pending ones |
| `Scheduling.CapUnobservable` | src/pipeline/engine.ts:170-172 | a counter gives the same result as no counter once levels have settled, however handlers end |
| `Scheduling.CapUnobservableAtDepth` | src/pipeline/engine.ts:170-172 | the 200-round cap never matters at depth at most 200, nor with at most 200 uncompleted nodes |
| `Scheduling.UnboundedExhausts` | src/pipeline/engine.ts:170-187 | without the counter the loop stops by itself, with nothing left to run |
| `RunOutcomes.ExecuteNodeDone` | src/pipeline/engine.ts:218-386 | a node completes exactly when a token it needs is there and some attempt left is accepted after only throwing ones |
| `RunOutcomes.RoundDone` | src/pipeline/engine.ts:177-184 | a round runs to its end exactly when every node on its list completes |
| `RunOutcomes.RoundsDone` | src/pipeline/engine.ts:170-187 | the loop is not cut short exactly when every node of the level it can reach can complete, on every graph |
| `RunOutcomes.CompletedIsTruthful` | src/pipeline/engine.ts:514-537 | after a run the status is completed exactly when there are nodes and all completed |
| `RunOutcomes.RunCompletes` | src/pipeline/engine.ts:154-188 | from any rows after a repair pass, the run ends completed exactly when it has nodes, level 200 is all of them and every uncompleted one can complete |
| `RunOutcomes.NeverLeftRunning` | src/pipeline/engine.ts:154-188 | a nonempty run of depth at most 200 with no node left running ends completed, failed or blocked, with no node running |
| `RunOutcomes.EmptyRunLeftRunning` | src/pipeline/engine.ts:514-536 | a run without nodes is left running |
| `RunOutcomes.FreshRunEnds` | src/pipeline/engine.ts:131-188 | how a start ends for every definition and all handlers: blocked if a node of the first 200 levels cannot complete, else completed if they are all nodes and there are any, else left running |
| `RunOutcomes.FreshRunLevels` | src/pipeline/engine.ts:154-188 | in a fresh run whose nodes can all complete, k rounds complete exactly depth k, and the run is marked completed exactly when it has nodes and depth at most 200 |
| `RunOutcomes.DeepChainLeftRunning` | src/pipeline/engine.ts:170-187 | a chain of n nodes that all succeed ends completed for 1 to 200 nodes and is left running otherwise |
| `RunOutcomes.FreshRunNeverFailed` | src/pipeline/engine.ts:178-183 | a start never ends in the status failed |
| `RunOutcomes.OperationCompletes` | src/pipeline/engine.ts:190-216 | for every graph and state, a retry or override ends with the run completed exactly when level 200 above the edited rows is everything and every uncompleted node can complete |
| `RunOutcomes.Recovery` | src/pipeline/engine.ts:205-216 | overriding the only halted node, with the rest able to complete, completes exactly level 200 above what was done, and marks the run completed exactly when that is everything |
| `RunOutcomes.RecoveryCompletes` | src/pipeline/engine.ts:205-216 | at depth at most 200 the override brings every node and the run to completed, although a pass repairs one level |
| `RunOutcomes.HistoryStatusTruthful` | src/pipeline/engine.ts:131-216 | over every history the status is completed exactly when all nodes are, and at depth at most 200 a nonempty run is never left running |
| `RunRows.ExecuteNodeStops` | src/pipeline/engine.ts:218-386 | a runnable node that does not complete awaits approval if it lacks its token, has failed if it had an attempt, and is unchanged otherwise; in the first two cases exactly what was pending and reachable from it through pending nodes is blocked |
| `RunRows.RoundsStopAt` | src/pipeline/engine.ts:170-187 | a run that is cut short stops at the first node in table order, of the first level that cannot all complete, that cannot; every row it leaves is determined |
| `RunRows.StopIsUnique` | src/pipeline/engine.ts:177-184 | there is one such place |
| `RunRows.FreshRunStops` | src/pipeline/engine.ts:131-188 | the final row of every node after a start that is cut short |
| `RunRows.FreshRunLeaves` | src/pipeline/engine.ts:131-188 | after any other start the first 200 levels are completed and all other nodes pending |
| `RunRows.OperationStops` | src/pipeline/engine.ts:190-216 | the final row of every node after a retry or override that is cut short, from the edited rows, on every graph and from every state |
| `RunRows.OperationLeaves` | src/pipeline/engine.ts:190-216 | the number of rounds and the final row of every node after one that is not |
| `RunRows.OperationEnds` | src/pipeline/engine.ts:514-537 | the run status after every retry and override: blocked if a reachable node cannot complete, else completed if everything is reached, else failed exactly when a row was failed, else blocked exactly when a row awaits approval or is still blocked, else running |
| `RunInvariants.CollectIsLatest` | src/pipeline/engine.ts:561-576 | the upstream map holds each dependency's latest artifact and nothing else |
| `RunInvariants.HistoryKeeps` | src/pipeline/engine.ts:131-216 | every history keeps: attempts counted and bounded, completed nodes supplied by their latest attempt, every start safe, starts numbered |
| `RunInvariants.DependencySafety` | src/pipeline/engine.ts:177-186 | whenever a node is set to running all its dependencies are completed, and each one not overridden hands over what its latest attempt settled with |
| `RunInvariants.AttemptsBounded` | src/pipeline/engine.ts:241-250 | over every history a node is started at most max_retries + 1 times, as attempts 1, 2, 3 and so on, none twice |
| `RunInvariants.HistoryBooks` | src/pipeline/engine.ts:286-331 | over every history the charges are, in order, one per start whose attempt settled with a cost within both caps, and the artifacts one per start whose attempt settled, refused costs included |
| `RunInvariants.MarksAreOverrides` | src/pipeline/engine.ts:205-216 | over every history the rows marked as overridden are the nodes whose last manual operation was an override, and stay completed |
| `RetryLimits.StartsExactlyWhenAttemptsLeft` | src/pipeline/engine.ts:218-250 | executing a node calls its handler exactly when an attempt is left and a needed token is there |
| `RetryLimits.ThrowingExhausts` | src/pipeline/engine.ts:362-383 | a node whose remaining attempts all throw ends failed with none left |
| `RetryLimits.ExhaustedIsNeverRun` | src/pipeline/engine.ts:190-243 | on every graph, from every state and by every manual operation, a node without attempts left is not started |
| `RetryLimits.RetryOfExhausted` | src/pipeline/engine.ts:190-203 | retrying such a node never calls its handler and completes neither it nor the run |
| `RetryLimits.RetryOfExhaustedBlocks` | src/pipeline/engine.ts:177-183 | with its dependencies completed, the retry ends with the run blocked and the node pending, or awaiting a token it lacks |
| `RetryLimits.RetryRecovery` | src/pipeline/engine.ts:190-203 | retrying the only halted node, with it and the rest able to complete, completes exactly level 200 above the other nodes done before |
| `RetryLimits.RetryCompletes` | src/pipeline/engine.ts:190-203 | at depth at most 200, with the rest able to complete, the retry completes the run exactly when the node can still complete |
| `RetryLimits.RetriesCompose` | src/pipeline/engine.ts:241-290 | handler calls over any history stay within attempts times calls per attempt |
| `SpendLedgers.SpendLedger.SumTask` | src/pipeline/sqlitePipelineStore.ts:622-629 | the sum over the run's rows |
| `SpendLedgers.SpendLedger.SumDay` | src/pipeline/sqlitePipelineStore.ts:612-620 | the sum over the day's rows |
| `SpendLedgers.SpendLedger.WithinBudget` | src/pipeline/engine.ts:578-585 | true exactly when both totals stay within their caps with the next cost added |
| `SpendLedgers.SpendLedger.Settle` | src/pipeline/engine.ts:305-331 | appends the cost exactly when it is affordable |
| `SpendLedgers.RefusedExactlyWhenOverCap` | src/pipeline/engine.ts:578-585 | a settlement is refused exactly when its cost would put the run above the task cap or the checked day above the day cap |
| `SpendLedgers.LedgerHoldsEverything` | src/pipeline/engine.ts:305-331 | nothing is refused exactly when each settlement fits on top of all before it |
| `SpendLedgers.NothingRefusedExactlyWithinCaps` | src/pipeline/engine.ts:305-331 | with both readings of each settlement on one day, nothing is refused exactly when all charges together keep every run and day within its cap |
| `SpendLedgers.DayIsInterval` | src/pipeline/sqlitePipelineStore.ts:612-614 | a day of the ledger is an interval of 86400000 milliseconds |
| `SpendLedgers.TaskCapHolds` | src/pipeline/engine.ts:578-582 | in every interleaving and under every clock no run passes the task cap |
| `SpendLedgers.DayCapKept` | src/pipeline/engine.ts:583-585 | one settlement keeps every day's cap if both its readings fall on one day or nothing was stamped before on the day of its row |
| `SpendLedgers.CapsHoldInEveryInterleaving` | src/pipeline/engine.ts:305-331 | at every moment of every interleaving of runs, with a clock that never steps back, no run exceeds the task cap and no day the day cap |
| `SpendLedgers.DayCapExactlyWhenClockSafe` | src/pipeline/engine.ts:305-331 | the day cap holds for all costs, runs and policies exactly when every settlement is dated safely, a condition on the clock readings alone |
| `SpendLedgers.UnsafeClockBreaksDayCap` | src/pipeline/engine.ts:578-585 | any readings that are not safe allow costs that charge a day twice its cap |
| `SpendLedgers.MonotoneIsSafe` | src/pipeline/engine.ts:305-331 | a clock that never steps back is safe, also over a midnight between the two readings |
| `PostQueues.PostQueue.DispatchPostQueueItem` | src/pipeline/engine.ts:388-512 | a dispatch moves one of the newest 500 items through approval, missing adapter, refusal or delivery, and reports its status, attempts and delay in every case |
| `PostQueues.PostQueue.EnqueuePost` | src/pipeline/sqlitePipelineStore.ts:478-512 | a new item starts with no attempts |
| `PostQueues.DeadLettersRest` | src/pipeline/engine.ts:409-416 | dispatching never revives or sends a dead letter |
| `PostQueues.AttemptsAscend` | src/pipeline/engine.ts:470-479 | attempt numbers sent to adapters ascend strictly, so no idempotency key repeats |
| `PostQueues.DispatchOutcome` | src/pipeline/engine.ts:409-511 | when one dispatch leaves an item dead, dispatched or failed, with which reason and approval |
| `PostQueues.FirstCallDecidesApproval` | src/pipeline/engine.ts:417-440 | an item waiting for approval whose first dispatch brings none is dead at once and never sent; otherwise the approver is recorded for good |
| `PostQueues.WaitingTimes` | src/pipeline/engine.ts:403-478 | 3, 15 and then 60 seconds after retryable refusals |
| `PostQueues.ThreeCallsSettle` | src/pipeline/engine.ts:447-498 | until delivered or dead every dispatch costs one attempt, at most three, and three dispatches settle an item |
| `PostQueues.DelayOfDeadLetter` | src/pipeline/engine.ts:477-498 | a delay is reported with a dead item exactly when a retryable refusal used up the last attempt |
| `PostQueues.DeliversOnceExactlyWhenGuarded` | src/pipeline/engine.ts:388-512 | a caller gets at most one delivery, whatever adapters reply, exactly when it never dispatches a dispatched item |
| `PostQueues.GuardedDeliversOnce` | src/pipeline/engine.ts:388-512 | if dispatched items are not dispatched again, an item is delivered at most once and sent at most three times |
| `PostQueues.RedispatchDelivers` | src/pipeline/engine.ts:470-511 | dispatching a dispatched item delivers it again every time |
| `ReflectionLoops.ReflectionLoop.Execute` | src/evaluation/reflectionLoop.ts:55-121 | computes the recursive description of a reflected call; each iteration gets the critique of the one before; stops at the first accepted one or after maxRetries retries; returns the first output with the highest score; accepted exactly when the last iteration was |
| `ReflectionLoops.ReflectedBounded` | src/evaluation/reflectionLoop.ts:66-99 | a reflected call makes between 1 and maxRetries + 1 handler calls |
| `ReflectionLoops.LastDecides` | src/evaluation/reflectionLoop.ts:66-120 | the best score reaches the threshold exactly when the last iteration did |
| `ReflectionLoops.BestGrows` | src/evaluation/reflectionLoop.ts:88-91 | a strict comparison keeps the first output with the maximum score |
| `ReflectionLoops.ReflectedCallsBounded` | src/pipeline/engine.ts:276-285 | with every attempt a reflected call, the handler of a node runs at most (max_retries + 1) * (maxRetries + 1) times over any history |
| `ReflectionLoops.ReflectedUpstream` | src/pipeline/engine.ts:276-304 | a reflected dependency hands on the artifacts that the reflection of its latest attempt returned |
| `ReflectionLoops.ReflectedSucceeds` | src/pipeline/engine.ts:276-285 | a reflected node completes exactly when some attempt left returns an affordable output after attempts whose reflection threw |
| `Conditionals.FindIsLeftmost` | src/templates/siteTemplates.ts:38 | the search finds a match exactly when there is one, and the leftmost |
| `Conditionals.FirstOccurrenceIsTheMatch` | src/templates/siteTemplates.ts:43 | replacing the first occurrence of the matched text replaces the match itself |
| `Conditionals.ProcessConditionals` | src/templates/siteTemplates.ts:33-46 | the loop computes at most 50 leftmost replacements |
| `Conditionals.StepIsReduce` | src/templates/siteTemplates.ts:38-43 | one step on a well-nested template resolves its leftmost innermost block |
| `Conditionals.ReduceKeepsMeaning` | src/templates/siteTemplates.ts:40-43 | resolving that block keeps the meaning and removes one block |
| `Conditionals.ProcessKeepsMeaning` | src/templates/siteTemplates.ts:33-46 | any number of steps returns a well-nested template of the same meaning with that many blocks fewer |
| `Conditionals.ResultIsMeaning` | src/templates/siteTemplates.ts:33-46 | the result is the top-down evaluation without any tag left exactly when the template has at most 50 blocks |
| `Conditionals.ResultIsVisibleText` | src/templates/siteTemplates.ts:41-43 | of a template with at most 50 blocks exactly the texts remain, in order, all of whose enclosing flags have a value other than the empty string and false |
| `WilsonIntervals.WilsonIsScoreInterval` | src/evaluation/strategyRanker.ts:32-41 | the returned interval is exactly the set of x in [0,1] that the score test accepts, and contains the observed rate |
| `WilsonIntervals.AcceptsWithin` | src/evaluation/strategyRanker.ts:34 | the score test uses the quantile 1.96 |
| `WilsonIntervals.ClampsAreNoOps` | src/evaluation/strategyRanker.ts:40 | over the reals neither clamp changes a bound |
| `WilsonIntervals.LowerIsMonotone` | src/evaluation/strategyRanker.ts:32-41 | more closed outcomes in a sample of the same size never lower the lower bound |
| `Strategies.DeprecationHidesNothing` | src/memory/strategicStore.ts:202-220 | testing for deprecation first gives the same status as testing for it last |
| `Strategies.StatusOfOutcomes` | src/memory/strategicStore.ts:202-220 | the status of a ranked group in terms of its outcomes: deprecated below 15 percent of at least 20, champion and active when every accepted rate is at least 40 or 20 percent of at least 50 or 20 |
| `Strategies.MoreClosedNeverLowers` | src/memory/strategicStore.ts:202-220 | at a fixed sample size of at least 5, turning rejected outcomes into closed ones never lowers the status |
| `Strategies.SmallSamplesKeepDeprecation` | src/memory/strategicStore.ts:219 | below sample size 5 exactly the deprecated strategies stay deprecated and the others are new |
| `Strategies.StrategicStore.Upsert` | src/memory/strategicStore.ts:56-139 | updates the row of the vertical, region and parameters or inserts one; an explicit status wins over the policy, on insert too; an insert the unique index refuses is an error that changes nothing |
| `Strategies.UpsertedAgain` | src/memory/strategicStore.ts:224-236 | an upserted key can be upserted again except one inserted with an empty region |
| `Strategies.StrategicStore.RankGroup` | src/evaluation/strategyRanker.ts:103-122 | a group of at least the minimum size is stored with its size, rate, score interval and status, a smaller one skipped |
| `Strategies.RankingIsIdempotent` | src/evaluation/strategyRanker.ts:103-122 | ranking the same outcomes again changes no status |
| `CallTurns.DeliveriesAscend` | src/openclaw/bridgeServer.ts:497-516 | in every interleaving the turns delivered fresh are strictly increasing |
| `CallTurns.DisturbedIsNeverDelivered` | src/openclaw/bridgeServer.ts:772-787 | a turn superseded or interrupted while in flight is never delivered |
| `CallTurns.TestIsDisturbed` | src/openclaw/bridgeServer.ts:781-787 | the route's test holds exactly when a newer turn started or somebody interrupted since the turn started |
| `CallTurns.StartExplained` | src/openclaw/bridgeServer.ts:750-759 | starting keeps the three variables equal to what the history says; interrupted turns are in flight |
| `CallTurns.InterruptExplained` | src/openclaw/bridgeServer.ts:772-779 | so does interrupting |
| `CallTurns.FinishExplained` | src/openclaw/bridgeServer.ts:761-770 | so does finishing, in any order |
| `CallTurns.Call.StartTurn` | src/openclaw/bridgeServer.ts:750-759 | returns the number of the new turn, in flight |
| `CallTurns.Call.InterruptActiveTurn` | src/openclaw/bridgeServer.ts:772-779 | returns the newest turn exactly if it is in flight |
| `CallTurns.Call.FinishTurn` | src/openclaw/bridgeServer.ts:761-770 | records that the turn ended |
| `CallTurns.Call.BeginFinal` | src/openclaw/bridgeServer.ts:485-497 | a cached client turn id gets the response stored last under it, whose output, if any, is that of a delivered turn; otherwise a turn starts |
| `CallTurns.Call.EndFinal` | src/openclaw/bridgeServer.ts:502-516 | the output goes out exactly if the turn was not disturbed since it started, and the response is cached under a given id |
| `CallTurns.OutputsAscendWithoutReplays` | src/openclaw/bridgeServer.ts:486-516 | counting replays, the turns whose output is sent ascend strictly exactly when no replay carries output |
| `CallTurns.ReplayOfOlderTurn` | src/openclaw/bridgeServer.ts:486-494 | a replay can bring back the output of turn 1 after that of turn 2 |
| `CallTurns.CacheStaysSmall` | src/openclaw/bridgeServer.ts:812-834 | the cache never holds more than 32 responses, under distinct non-empty keys |
| `CallTurns.LookupIsLatest` | src/openclaw/bridgeServer.ts:486-494 | a lookup finds nothing or the response stored last under the key |
| `CallTurns.CacheIsLastStores` | src/openclaw/bridgeServer.ts:827-833 | with a fresh key per request the cache is exactly the last 32 responses |
| `ConcurrencyLimiters.Limiter.Submit` | src/lib/concurrency.ts:17-35 | a submitted task starts at once if a slot is free and waits at the end of the queue otherwise |
| `ConcurrencyLimiters.Limiter.Finish` | src/lib/concurrency.ts:20-26 | a finished task gives its slot to the task that waited longest |
| `ConcurrencyLimiters.FinishKeeps` | src/lib/concurrency.ts:9-26 | a finish keeps the running count exact, the limit, and a full limiter while anything waits |
| `ConcurrencyLimiters.ScheduleIsForced` | src/lib/concurrency.ts:9-36 | in every interleaving exactly min(limit, unfinished) tasks run, and the started tasks are the first finished + limit submissions in submission order |
| `ConcurrencyLimiters.EachRunsOnce` | src/lib/concurrency.ts:9-36 | no task starts twice; with a positive limit none is lost; without one nothing starts |
| `RateLimiters.RateLimiter.IsAllowed` | src/lib/rateLimiter.ts:11-32 | the pruned timestamps decide exactly as the full record of allowed requests would |
| `RateLimiters.RateLimiter.Cleanup` | src/lib/rateLimiter.ts:35-43 | forgets exactly the keys whose timestamps have all expired, and changes no later decision |
| `RateLimiters.PrunedDecides` | src/lib/rateLimiter.ts:22-29 | after pruning, the number of kept timestamps decides like the naive count |
| `RateLimiters.HistoryIsAllowed` | src/lib/rateLimiter.ts:11-43 | in every trace a key's allowed requests depend only on when that key asked, however clean-ups and other keys interleave |
| `RateLimiters.AllowedExactlyWithRoom` | src/lib/rateLimiter.ts:11-32 | a request is allowed exactly when the closed window that ends with it holds fewer than maxRequests allowed ones |
| `RateLimiters.WindowsNeverOverflow` | src/lib/rateLimiter.ts:11-32 | every closed interval of the window's length holds at most maxRequests allowed requests |
| `RateLimiters.TracesNeverOverflow` | src/lib/rateLimiter.ts:11-43 | the same for every key of every trace with clean-ups |
| `RateLimiters.BurstAllowed` | src/lib/rateLimiter.ts:26-31 | the bound is reached: maxRequests requests at one moment are all allowed |
| `AbHarness.PickArm` | src/evaluation/abHarness.ts:35-65 | an error exactly without variants; otherwise the first variant whose cumulative weight exceeds the scaled bucket, or the last; a single variant skips the hash |
| `AbHarness.PicksIsRange` | src/evaluation/abHarness.ts:52-64 | the arms' buckets are consecutive ranges in variant order |
| `AbHarness.RangesCover` | src/evaluation/abHarness.ts:52-64 | the ranges start at 0 and end at 1000 |
| `AbHarness.Apportionment` | src/evaluation/abHarness.ts:52-64 | each arm gets a number of buckets within one of 1000 w / W, and an arm of weight zero none |
| `AbHarness.UnweightedShares` | src/evaluation/abHarness.ts:52-60 | each of n variants without weights gets within one of 1000/n buckets |
| `AbHarness.MissingWeightIsOne` | src/evaluation/abHarness.ts:52-60 | beside any others, a variant without a weight counts as one of weight 1 |
| `AbHarness.FallbackUnreached` | src/evaluation/abHarness.ts:62-64 | with a positive total weight the final fallback is never reached |
| `AbHarness.FallbackForZeroTotal` | src/evaluation/abHarness.ts:62-64 | with non-negative weights adding up to zero it always is |
| `EpisodicPivots.PivotByTags` | src/memory/episodicStore.ts:277-303 | the loop returns the stable sort of the groups its rows form |
| `EpisodicPivots.PivotIsExact` | src/memory/episodicStore.ts:277-303 | each group counts exactly the rows with its key by outcome, with the matching rate; keys are distinct; every row is counted once; larger groups first, ties by first row |
| `EpisodicPivots.BySizeIsStableSort` | src/memory/episodicStore.ts:303 | the sort is a permutation, descending and stable |
| `EpisodicPivots.TallyCountsRows` | src/memory/episodicStore.ts:296-300 | the counts are the numbers of rows with the key, of the closed and of the rejected ones; the rest is pending |
| `EpisodicPivots.ValueCompletesTag` | src/memory/episodicStore.ts:281-283 | the first tag that starts with a prefix is the prefix followed by the value; without one the value is an underscore |
| `EpisodicPivots.KeyEntries` | src/memory/episodicStore.ts:279-284 | with distinct colon-ended prefixes every prefix keeps its own entry |
| `EpisodicPivots.RollUpIsCoarser` | src/memory/episodicStore.ts:277-302 | adding up the finer groups that agree on a subset of the prefixes gives the coarser groups |
| `EpisodicPivots.PivotRollsUp` | src/memory/episodicStore.ts:277-303 | the same for the returned tables, and nothing for keys the coarser table does not list |

## Left out

- HTTP servers, routing, pages, apps, scripts and seeds: input, output and user interface.
- Agent handlers, critics, dispatch adapters, model and telephony clients: arbitrary answers in the model.
- SQLite, JSON text, timestamps and error texts: maps and sequences; of a row's error only the override mark is kept.
- Episodes, working memory, notifications, media jobs and the enqueuing of posts during a run: they do not change nodes or run status.
- `recoverStaleRuns`, `computeNextRunAt` and the scheduler tick: not modelled.
- Overlapping start, retry and override calls on one run, and overlapping dispatches of one item: the code does not guard against them, so no claim is made; the approve route, which can revive a dead letter, is not modelled.
- Artifacts with equal timestamps: insertion order is assumed.
- The spend totals an attempt sees: they arrive with the outcome of the attempt, because the ledger is shared by all runs; `SpendLedgers` covers the interleavings.
- Floating-point rounding, NaN scores and weights: real arithmetic; the square root of the interval is a given non-negative root.
- Regular-expression details of the template loop: tokens of text, opening and closing tags, where text holds no tag syntax and no replacement pattern.
- Champions per vertical, manual status changes, and the collection of outcome groups in `runOnce`: easy next to the lifecycle.
- The distribution of the hash, and experiments with negative weights beyond the arm that is picked.
- Deletion or reset of a call's state in mid-turn, several calls at once, and the session tracking that sees suppressed output: one call per model.
- Tasks of the limiter that throw before returning a promise.
- The score sink of the reflection loop, whose failures are ignored.
- The tag filter of the pivot query, and names that JavaScript objects treat specially.
- `PipelineStores.PipelineStore.SetRunStatus`: the end time and the retained error message are not modelled; no modelled operation reads them.
- `PipelineStores.PipelineStore.SetNodeStatus`: the start and end times are not modelled; no modelled operation reads them.
- `PipelineEngines.StartRun`: the update of the definition's next run time is not modelled.
- `PipelineEngines.PipelineEngine.ExecuteNode`: an unknown run and a missing reflected handler are not modelled; a missing handler is an attempt that throws.
