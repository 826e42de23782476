# Verified models of a coding-agent runtime

This project models the state machines and the list and graph algorithms at the heart of a
coding-agent runtime, and proves what they promise: the tool-call protocol of a conversation, the
memory that trims itself, context compaction, the pipeline orchestrator and its concurrent stages,
the task graph and the planner, the agent cache, the crash-resumable task queue, the journal's
bounded file history, the atomic checkpoint, the run loop's verdicts, layered configuration, and
file snapshots.

`dafny verify dfyconfig.toml` checks everything.

## How it is laid out

| file | what it models |
|---|---|
| `ToolHistory.dfy` | messages, the protocol automaton (`Next`, `Follow`, `Accepted`), `sanitize_tool_history` |
| `ContextMemory.dfy` | class `Memory`: trimming by count and by token budget |
| `Compaction.dfy` | `compact_messages` and its boundary repair |
| `DependencyGraph.dfy` | walks, dependency, cycles, topological orders; shared by the graph models below |
| `Pipeline.dfy` | Kahn's algorithm in `_topological_sort` |
| `PipelineStages.dfy` | the stage tasks of `run_pipeline` as a step system over every schedule |
| `TaskDag.dfy`, `TaskPriority.dfy`, `TaskGraph.dfy` | statuses, guarded mutations, the offered order; the mutable graph is a class proved against them |
| `PlanDriver.dfy` | working a graph off with `next_node`, `start_node`, `complete_node` |
| `Planner.dfy` | the offline plan, plan repair, construction of a fresh graph |
| `AgentRegistry.dfy` | the LRU and idle-time cache of agents |
| `TaskQueue.dfy` | the queue, its worker and what a restart does |
| `JournalFiles.dfy`, `Checkpoint.dfy` | the changed-files column; the atomic checkpoint writer with crashes |
| `ConfigLayers.dfy` | recursive merge, the fold over layers, provenance of `max_steps` |
| `RunLoop.dfy` | the agent loop and the verdict it journals |
| `Rollback.dfy` | snapshot and restore |
| `Options.dfy`, `Sequences.dfy`, `OrderedDict.dfy`, `Texts.dfy` | an option type; facts about sequences, bags and finite sets; insertion-ordered dictionaries; stripping, splitting and numerals |

Objects whose methods update fields are classes with those fields. Each method is proved against a
function of the old state, and the properties are lemmas about those functions.

The behaviour of what is outside the model is a parameter: what each role of a pipeline does
(`Oracle`), what each step of an agent does and what its model calls cost (`Outcome`), what the
regular expressions of the planner find for numbered items and kinds of steps, the text a
compaction renders, the clock readings, and the order in which the database lists rows. Statements
quantify over all of them.

## Where the code differs from what it says

Each of these is kept as the code has it, and stated exactly.

* A skipped stage returns before the `finally` that sets its event (orchestrator.py:236 and 278).
  Everything behind it, through any number of dependencies, waits until the global timeout
  (`WaitsExactlyBehindSkipped`). A run hangs exactly when a stage depends on one that depends on a
  role ending in an error text (`HangsIff`; `HangingRun` shows three roles doing so).
* A dependency that names a role outside the pipeline is counted and never served, so it is
  reported as a cycle; a role outside the pipeline that depends on an orderable one raises a
  KeyError instead of the cycle error (`TopologicalSort`, `StrayCanBeReached`).
* `_repair_plan` drops malformed steps but keeps dependencies by raw index, so a dependency may
  come to point forward. The plan is acyclic whatever the dependencies say exactly when at most
  one step was dropped before each kept step but the last (`AcyclicIffFewDropped`).
* A greedy driver is refused exactly when some node offends: an active node over a dependency that
  is neither active nor done, or a node that is offered although it can never be completed. The
  latter happens because a node behind a blocked one is not blocked itself: it stays pending, is
  offered and started, and completing it is refused (`RefusedIffOffends`, `RefusedBehindBlocked`,
  `RefusedWhenStartedEarly`; where nothing failed, was skipped or is blocked, `NeverRefusedIff`).
* `_unlock_value` says it counts pending dependents; it counts all of them. `NextHasDepsCompleted`
  relies on that.
* `fail_node`, `add_node` with a used id, and `update_node` can leave a completed node over an
  unfinished dependency; `Guard` says exactly when (`StepHonestIff`, `FailCanBreakHonesty`).
* Sanitising twice can change the result again, exactly when a call with an empty id comes before
  another unanswered call of its block (`IdempotentIff`, `NotAlwaysIdempotent`).
* `_repair_boundaries` strips a trailing call unless the message before it is a tool result; a call
  right behind another block's result survives unanswered (`DanglingCallSurvives`).
* A block of tool calls can be cut away while its results are still being recorded; the next
  result is then an orphan until the history is sanitised. The block survives a trim exactly when
  its asking message with the results so far (and, before the first result, the turn in front of
  it) fits the message count and the token budget, or the guard below runs out
  (`TrimKeepsProtocol`, `NextResultIsOrphanIff`, `LongBlockLeavesOrphan`).
* The token trim gives up after 10000 rounds (`BudgetMissedIff`, `GuardCanRunOut`).
* A lookup in the agent cache makes room as an insertion does, so a cache of size n serves only its
  n - 1 most recent entries (`GetHitsIff`, `SizeOneNeverHits`). Storing under a present key drops
  the old agent without cleanup (`TouchedAgents`); the router never does that (`StepIsAccounted`).
* Resuming stamps the interrupted tasks newest first, after all others. Of two tasks the one saved
  earlier keeps its place before the other exactly when it was not interrupted; tasks resumed
  together trade places (`ResumeKeepsOrderIff`, `QueueOrderKeptIff`, `ResumeReversesOrder`).
* Merging configuration layers is not associative when a plain value stands between two sections
  (`MergeAssociativeIff`, `NotAlwaysAssociative`).
* A run that is cancelled in the very step that claimed completion is journaled as complete
  (`CompleteIffClaimed`, `CancelledCanBeComplete`).
* The wrap-up step promised when the tokens are used up is lost when the step that used them up
  asks the model once more: that ask spends the grace itself (app/llm/llm.py:1198), and the loop
  then stops. It is taken exactly when the limits and outcomes allow a step, the grace was not
  spent before the run, and that step made no further ask (`GraceStepIff`, `GraceStepCanBeLost`).
* Restoring an unknown snapshot id restores the latest snapshot (`UnknownIdRestoresLatest`,
  `ChosenIsAskedForIff`).
* A path that climbs out of the working directory climbs out of the snapshot's directory too, so
  two snapshots of "../f" share one backup and restoring the first brings back the second content
  (`ClimbingBackupIsLost`). The round trip holds exactly when the history left the backups as they
  were (`RestoreRoundTripIff`), and always among plain paths (`PlainRoundTrip`). An absolute path
  is never backed up, its backup being the file itself.
* `_repair_plan` accepts "--5" as digits and then fails to convert it; an infinite priority, a float
  as depends_on and a number as files make it fail too. Each discards the whole proposal
  (`ReadableIff`, `OddDependencyIsRefused`).
* Compaction repeats leading system messages in the kept part when they reach into it
  (`CompactConserves`).

## Model

| member | source | states |
|---|---|---|
| ToolHistory.SanitizeToolHistory | app/schema.py:175-222 | the repair loop with its out list and pending dictionary computes Sanitized of the history, for every history |
| ToolHistory.CloseOut | app/schema.py:178-186 | flushing appends one tool result per pending call, in order, with the interruption notice as content, the call's id and its tool's name |
| ToolHistory.SanitizedIsAccepted | app/schema.py:146-175 | whatever the input, the result is accepted by the protocol automaton: each block is answered by exactly its ids before anything else, and nothing is pending at the end |
| ToolHistory.StrictlyAcceptedIff | app/schema.py:194-201 | with an empty id answering nothing, the result is valid if and only if no call of the input has an empty id |
| ToolHistory.UnchangedIffAccepted | app/schema.py:146-222 | when all calls have ids, the repair is the identity on exactly the accepted histories |
| ToolHistory.IdempotentIff | app/schema.py:146-222 | for every history, repairing twice equals repairing once if and only if no empty id precedes an unanswered call of its block |
| ToolHistory.IdempotentOnIdentifiedCalls | app/schema.py:146-222 | when every call has an id the repair is idempotent |
| ToolHistory.NotAlwaysIdempotent | app/schema.py:194-201 | one block of two unanswered calls, the first without id, on which a second repair changes the result |
| ToolHistory.SanitizedProvenance | app/schema.py:187-222 | the kept input messages are exactly those that are no tool results or answer an open call, in input order; every other output message is the interruption notice for an unanswered call, under its id and the name of the last call of its block with that id, and sits where the block closes, in the order of the calls, one for each unanswered id |
| ToolHistory.SanitizedKeepsDialogue | app/schema.py:187-222 | the subsequence of messages that are no tool results is unchanged |
| ContextMemory.Memory.Add | app/schema.py:234-236 | the new history is Trimmed of the old one with the message appended |
| ContextMemory.Memory.Trim | app/schema.py:238-280 | trimming by count, then head clean-up, then the token budget |
| ContextMemory.Memory.TokenTrimIfNeeded | app/schema.py:282-320 | the guarded loop over the token budget leaves WithinBudget of the old history |
| ContextMemory.TrimmedShape | app/schema.py:238-280 | a trimmed memory is the first and last system message followed by a suffix of the old dialogue within the count that starts with neither a tool result nor an unanswered call |
| ContextMemory.TrimIs | app/schema.py:238-320 | a trim leaves the first and the last system message (one if they are the same, none if there is none) and then the dialogue from some message on, within the count, starting with neither a tool result nor an unanswered call; every dialogue that would also meet the token budget is no longer |
| ContextMemory.TrimIsOptimal | app/schema.py:238-320 | no longer suffix of the dialogue would have started cleanly and met both limits |
| ContextMemory.TrimKeepsProtocol | app/schema.py:238-320 | a history that keeps the protocol so far keeps it after trimming, with the same calls open if the part needed for their block fits count and budget (or nothing is trimmed, or the guard runs out), and with none open otherwise |
| ContextMemory.NextResultIsOrphanIff | app/schema.py:234-280 | the next result of a block being recorded answers its call or breaks the protocol, exactly as the block survived the trim before it |
| ContextMemory.KeepsBlockUpToGuard | app/schema.py:253-320 | with at most 10000 dialogue messages an open block survives a trim if and only if its needed part fits count and budget |
| ContextMemory.SurvivesIffSomeWindow | app/schema.py:253-320 | equivalently, if and only if some cleanly headed window of the dialogue that leaves the calls open fits |
| ContextMemory.TrimKeepsAccepted | app/schema.py:238-320 | an accepted history stays accepted |
| ContextMemory.EstimateIs | app/schema.py:322-325 | the estimate is a quarter of all characters or 1.3 times the words, whichever is more |
| ContextMemory.WordsSplit | app/schema.py:322-325 | white space separates words, however much of it there is |
| ContextMemory.OneWord | app/schema.py:322-325 | a text without white space is one word, unless it is empty |
| ContextMemory.LongBlockLeavesOrphan | app/schema.py:260-277 | a concrete block cut away during its recording, whose next result stays without its call |
| ContextMemory.EstimateShrinks | app/schema.py:322-325 | the token estimate never grows when messages are dropped behind the pinned ones |
| ContextMemory.BudgetMissedIff | app/schema.py:286-320 | with a budget set the result exceeds it with dialogue left if and only if it still does so after 10000 rounds of dropping |
| ContextMemory.BudgetMetUpToGuard | app/schema.py:286-320 | with at most 10000 dialogue messages the estimate ends within the budget or no dialogue is left |
| ContextMemory.TokenTrimIsEarliest | app/schema.py:305-320 | the loop stops at the first round that meets the budget |
| ContextMemory.GuardCanRunOut | app/schema.py:305-320 | a concrete history of 10001 messages that ends over its budget with dialogue left |
| Compaction.RepairBoundaries | app/compaction.py:186-208 | leading tool results are dropped and the last message loses its calls when the code's test says so |
| Compaction.CompactMessages | app/compaction.py:211-262 | the result is the leading system messages, one state message and the repaired tail, for every keep_last; a short history stays as it is |
| Compaction.CompactedAcceptedIff | app/compaction.py:186-262 | the compacted form of a history that keeps the protocol so far is acceptable if and only if no call is open, nothing of the tail is kept, or the tail ends in an asking message that is stripped |
| Compaction.CompactKeepsAccepted | app/compaction.py:211-262 | compaction preserves acceptance for every keep_last |
| Compaction.DanglingCallSurvives | app/compaction.py:198-206 | a concrete history whose unanswered last call survives compaction |
| Compaction.CompactConserves | app/compaction.py:228-262 | for every history long enough: the result is the head of leading system messages, one user message with the rendered summary, and the kept tail, stripped of the calls of a stripped last message; each old message is in exactly one of head, summarised middle, dropped leading results and tail if and only if the head does not reach into the part to be kept; an accepted history's tail is unchanged |
| Pipeline.CollectDependents | app/agent/orchestrator.py:435-440 | the reversed lists name each dependent as often as it names the role |
| Pipeline.ServeDependents | app/agent/orchestrator.py:445-448 | the inner loop decrements the degrees one by one, queues a role when its degree reaches zero, and fails exactly on a dependent that was never counted |
| Pipeline.TopologicalSort | app/agent/orchestrator.py:431-456 | an order is returned if and only if the dependencies are acyclic, stay inside the pipeline, and no outside role depends on a role of it; the order is a permutation with every dependency before its dependents, and goes level by level, a role's level being one more than its highest dependency's; a KeyError is raised if and only if some orderable role has a dependent outside the pipeline, a cycle error in all other cases |
| Pipeline.StrayIsNotReached | app/agent/orchestrator.py:442-448 | when the queue runs empty every role that can be ordered has been served |
| Pipeline.StrayCanBeReached | app/agent/orchestrator.py:444-446 | a one-role pipeline that ends in the KeyError |
| Pipeline.LeftOut | app/agent/orchestrator.py:450-454 | when the queue runs empty early on a closed graph, the roles left out hold a cycle |
| PipelineStages.SortIsSorted | app/agent/orchestrator.py:431-456 | what the sort returns is an order the stage results below speak of |
| PipelineStages.StepKeepsInvariant | app/agent/orchestrator.py:206-278 | every move of every task keeps: events are set only after the dependencies finished, results agree with the oracle, failures seen are the failures decided |
| PipelineStages.EveryScheduleEndsAlike | app/agent/orchestrator.py:206-286 | under every interleaving, once no task can move every stage has ended as it does when the stages run one at a time in sorted order |
| PipelineStages.WaitsExactlyBehindSkipped | app/agent/orchestrator.py:216-236 | the stages still waiting at the end are exactly those that transitively depend on a skipped stage |
| PipelineStages.StageEndsAs | app/agent/orchestrator.py:206-280 | under every schedule, from dependencies and roles alone: a stage waits for ever iff it depends on a stage with an erring dependency, is skipped iff it has one itself and does not wait, naming in its result the erring ones in order, and otherwise ends with its role's own text or the text of what was raised |
| PipelineStages.JoinIs | app/agent/orchestrator.py:224-225 | the names in a skip message are joined by a comma and a blank |
| PipelineStages.HangsIff | app/agent/orchestrator.py:216-236 | some stage waits for ever if and only if a stage depends on one that depends on a role whose result is an error text |
| PipelineStages.HangingRun | app/agent/orchestrator.py:216-236 | three roles in a row, the first raising: a run that ends with the third waiting |
| PipelineStages.RunEnds | app/agent/orchestrator.py:206-286 | every state of a run can be run on until no task can move |
| PipelineStages.AllCompleteIffAllGood | app/agent/orchestrator.py:219-280 | all stages complete if and only if no role raises and no role another depends on returns an error text |
| PipelineStages.CompletedOnlyAfterDeps | app/agent/orchestrator.py:214-278 | at every moment of every run a completed stage has all its transitive dependencies completed |
| PipelineStages.RunsAreBounded | app/agent/orchestrator.py:206-286 | every run is finite: its length is bounded by the dependencies plus four moves a role |
| PipelineStages.RunKeepsLog | app/agent/orchestrator.py:229-276 | each finished stage is logged exactly once, with its final status and result, and no other stage is |
| TaskDag.RecomputeOnce | app/task_dag.py:218-236 | one recomputation is a fixpoint |
| TaskDag.RecomputeMeaning | app/task_dag.py:218-236 | pending and blocked nodes become ready exactly when every dependency is completed, pending ones blocked when one failed or was skipped; all else stays |
| TaskDag.AcceptedIff | app/task_dag.py:124-212 | which operations are accepted, status by status; a refused one changes nothing |
| TaskDag.OperationOutcome | app/task_dag.py:124-212 | an accepted operation changes in its node exactly the fields it names; an added node has the given title and time, no attempts, the priority brought into 1..7 and every given dependency but itself, in order; of the other nodes it only promotes pending or blocked ones |
| TaskDag.OperationSettles | app/task_dag.py:124-236 | after an accepted add, complete, fail or skip no pending node has all dependencies completed or one failed, no blocked one has all completed, and every promoted node has its reason in the new graph |
| TaskDag.FailCanBreakHonesty | app/task_dag.py:176-185 | failing a completed dependency of a completed node is accepted and leaves a fake completion |
| TaskDag.StepHonestIff | app/task_dag.py:124-212 | an accepted operation keeps every completed node over done dependencies if and only if its guard holds |
| TaskDag.RunsStayHonest | app/task_dag.py:136-196 | over every run of guarded operations, refused ones included, no completed node has an unfinished dependency |
| TaskPriority.KeyOrder | app/task_dag.py:273-285 | the tuple comparison means: active first, then most unlocked, lowest priority number, fewest attempts, oldest, and not pending |
| TaskPriority.SortProperties | app/task_dag.py:285 | the stable sort is a permutation in strict order of key and original position |
| TaskPriority.NextExists | app/task_dag.py:287-289 | while a candidate is left the first of the sorted list precedes every other candidate |
| TaskGraphObject.TaskGraph.RecomputeStatuses | app/task_dag.py:218-236 | the two in-place passes compute Recomputed whatever the order of the dictionary |
| TaskGraphObject.TaskGraph.AddNode | app/task_dag.py:124-134 | the graph after Add: a new id is appended to the order, a used one is overwritten in place, then the statuses are recomputed |
| TaskGraphObject.TaskGraph.CompleteNode | app/task_dag.py:136-163 | completing is accepted exactly when no present dependency is unfinished |
| TaskGraphObject.TaskGraph.StartNode | app/task_dag.py:165-174 | starting is accepted exactly for four statuses and counts an attempt |
| TaskGraphObject.TaskGraph.FailNode | app/task_dag.py:176-185 | failing a node |
| TaskGraphObject.TaskGraph.SkipNode | app/task_dag.py:187-196 | skipping a node |
| TaskGraphObject.TaskGraph.UpdateDependsOn | app/task_dag.py:207-208 | rewiring a node drops self-dependencies and recomputes nothing |
| TaskGraphObject.TaskGraph.Visit | app/task_dag.py:258-262 | the depth-first search terminates on every graph, cyclic ones included, and closes the set it is given under dependents |
| TaskGraphObject.TaskGraph.UnlockValue | app/task_dag.py:254-265 | the unlock value is the number of nodes that transitively depend on the node |
| TaskGraphObject.TaskGraph.PrioritizedOrder | app/task_dag.py:267-285 | the statuses are recomputed; the ready, retryable, active and pending nodes come once each, sorted by key, stably |
| TaskGraphObject.TaskGraph.NextNode | app/task_dag.py:287-289 | none exactly when no node is ready, retryable, active or pending, otherwise the one that precedes all others |
| DependencyGraph.DependencyHasMoreDependents | app/task_dag.py:254-265 | in an acyclic graph whatever a node depends on, through any number of edges, has strictly more dependents than the node |
| PlanDriver.StuckIff | app/task_dag.py:218-236 | a node is stuck if and only if it failed, was skipped, or waits on a stuck dependency |
| PlanDriver.DriverFinishesExactly | app/task_dag.py:136-289 | on any orderly closed acyclic graph, failed, skipped and blocked nodes included: no refusal, one round for each node neither completed nor stuck, and in the end exactly the nodes that were not stuck are completed |
| PlanDriver.RefusedIffOffends | app/task_dag.py:136-289 | on any closed acyclic graph no driver run is ever refused if and only if no node offends |
| PlanDriver.RefusedBehindBlocked | app/task_dag.py:218-236 | a pending node behind a blocked one: a run in which it is offered and refused |
| PlanDriver.RefusedWhenStartedEarly | app/task_dag.py:165-174 | a node active before its ready dependency: a run in which it is refused |
| PlanDriver.NextHasDepsCompleted | app/task_dag.py:267-289 | the node offered first has every dependency completed, although statuses may say ready too early |
| PlanDriver.DriverIsNeverRefused | app/task_dag.py:136-174 | on a closed acyclic graph with nothing failed, skipped or blocked, every start and complete of every driver run is accepted and finishes exactly one node |
| PlanDriver.DriverFinishesEverything | app/task_dag.py:287-289 | the driver runs dry after exactly one round per unfinished node, with every node completed |
| PlanDriver.NeverRefusedIff | app/task_dag.py:136-174 | where nothing failed, was skipped or is blocked, no driver run is ever refused if and only if every active node has only active or completed dependencies |
| Texts.StripIs | app/planner.py:65-74 | stripping removes exactly white space at both ends |
| Texts.SentencesAre | app/planner.py:70-74 | every sentence of the goal is stripped, longer than eight characters and without a stop |
| Texts.SentencesSplit | app/planner.py:70-74 | a full stop, semicolon or line end closes a piece, and a piece is a sentence if more than eight characters are left when it is stripped |
| Planner.HeuristicPlan | app/planner.py:60-96 | the offline plan is the chain of the stripped numbered items or the template of the goal's sentences, title, dependencies and priority of each step stated; it points back and has at most twelve steps |
| Planner.RepairPlan | app/planner.py:99-123 | the loop over the raw steps raises on the first unreadable step that is not dropped, and otherwise collects the repaired steps |
| Planner.ReadableIff | app/planner.py:99-123 | it raises exactly when a step that is not dropped has a dependency int() refuses, a depends_on or files that cannot be gone through, or an infinite priority |
| Planner.RepairedIs | app/planner.py:99-123 | the repaired steps are the first sixteen usable ones in order, each with its stripped title cut to 120 characters, its priority brought into 1..7 (5 without one), and the first six of its dependencies that are numbers below its raw index |
| Planner.DepOfIs | app/planner.py:114-115 | digits read as their number, with one dash as its negative, and with two as what int() refuses |
| Planner.OddDependencyIsRefused | app/planner.py:114-115 | one step that depends on "--5" is enough for the exception |
| Planner.GeneratePlan | app/planner.py:200-216 | adding, then rewiring, builds exactly the graph of the steps in an empty task graph |
| Planner.PlanIs | app/planner.py:200-216 | each node of the fresh plan has its step's title and priority, is ready, and depends on exactly the steps its step names, itself left out, in order |
| Planner.NothingDroppedPointsBack | app/planner.py:105-123 | a proposal with no dropped step points back, truncation included |
| Planner.PlanIsAcyclic | app/planner.py:200-216 | steps that point back give a closed acyclic graph |
| Planner.AcyclicIffFewDropped | app/planner.py:105-123 | which malformed steps may be dropped without risking a cycle, if and only if, for every choice of readable dependencies |
| Planner.TangledIsCyclic | app/planner.py:105-123 | for every other pattern of dropped steps, dependencies that make the plan cyclic |
| Planner.PlanIsWorkedOff | app/planner.py:200-216 | a fresh plan that points back is worked off by the driver, one accepted round a step |
| AgentRegistry.AgentRegistry.EvictIdle | app/agent/router.py:195-219 | exactly the expired entries go, and their agents are handed to cleanup |
| AgentRegistry.AgentRegistry.EvictLru | app/agent/router.py:221-234 | only the size - 1 last entries stay, and the others' agents are handed to cleanup |
| AgentRegistry.AgentRegistry.Get | app/agent/router.py:149-159 | a lookup evicts; if the entry is left it returns its agent, moves it to the end and notes the time, the others keeping order and times |
| AgentRegistry.AgentRegistry.Put | app/agent/router.py:161-172 | storing evicts, then puts the agent last with the current time, the others keeping order and times |
| AgentRegistry.AgentRegistry.Remove | app/agent/router.py:174-178 | the entry leaves both tables, the others stay, and its agent is returned |
| AgentRegistry.GetAgent | app/agent/router.py:392-403 | the returned agent is the cached one, or on a miss the new one, and is afterwards the most recent entry; cleaned plus cached agents grow by the created one only |
| AgentRegistry.EvictionTakesOldest | app/agent/router.py:195-234 | together the evictions remove exactly a prefix of the cache: the expired entries and what exceeds the size |
| AgentRegistry.GetHitsIff | app/agent/router.py:149-159 | a lookup hits if and only if the entry has not expired and is among the size - 1 most recent |
| AgentRegistry.FoundAgainIff | app/agent/router.py:149-172 | over every run of requests under other keys: an agent is found again if and only if it was not idle for longer than the time to live and fewer than size - 1 other keys were used since |
| AgentRegistry.SizeOneNeverHits | app/agent/router.py:149-159 | a cache of one entry never serves it |
| AgentRegistry.TouchedAgents | app/agent/router.py:161-172 | storing under a present key loses exactly the old agent |
| AgentRegistry.StepIsSound | app/agent/router.py:143-178 | every call keeps distinct keys, the order by last use and the size limit |
| AgentRegistry.StepIsAccounted | app/agent/router.py:392-403 | every call keeps created agents equal, as a bag, to cached plus cleaned plus handed back |
| AgentRegistry.RunKeepsState | app/agent/router.py:377-403 | both hold over every run with a clock that does not run backwards, the order by last use included |
| TaskQueue.TaskQueue.SubmitTask | app/task_queue.py:265-282 | a new task is queued with the given priority, counts of zero and the latest stamp; the others stay |
| TaskQueue.TaskQueue.WorkOn | app/task_queue.py:425-463 | one worker turn on the head of the queue stores its outcome with the latest stamp, and changes nothing else in it and no other task |
| TaskQueue.TaskQueue.RetryTask | app/task_queue.py:333-343 | only failed or cancelled tasks are queued again, the retry counted and the latest stamp given; nothing else changes |
| TaskQueue.TaskQueue.ResumeInterrupted | app/task_queue.py:486-527 | the loop over the listed rows is the simultaneous resume of every running or paused task, and returns how many are queued again: the paused ones and those running and interrupted less than five times before |
| TaskQueue.HeadIsUnique | app/task_queue.py:468-479 | in every reachable store with a queued task the worker's query has exactly one answer: highest priority, then least recently saved |
| TaskQueue.TaskIsItsLife | app/task_queue.py:265-527 | over every run, with restarts killed after any number of rows, a task exists just if it was submitted, and its status, priority and counts are what its own events leave: the status of the last of them, or queued again by a restart, or failed at the sixth |
| TaskQueue.ResumeLeavesNoneInterrupted | app/task_queue.py:486-527 | after a resume no task is running or paused and no retry count has changed |
| TaskQueue.ResumeKeepsOrderIff | app/task_queue.py:486-527 | of any two tasks the one saved earlier is still the earlier one after a resume, or part of one, if and only if the resume did not come to it and find it interrupted |
| TaskQueue.QueueOrderKeptIff | app/task_queue.py:486-527 | a resume keeps the order of all tasks if and only if no task but the last saved is interrupted |
| TaskQueue.ResumeReversesOrder | app/task_queue.py:297-316 | of two tasks resumed together the one saved later is stamped earlier |
| TaskQueue.LivesAreCounted | app/task_queue.py:486-527 | over every run, with restarts killed after any number of rows, the interruption count, up to five, grows with each re-queueing of a running task and the retry count with each manual retry |
| TaskQueue.RequeuedAtMostFiveTimes | app/task_queue.py:486-527 | through any crashes, also in the middle of a restart, and any retries a task is put back from running at most five times |
| JournalFiles.Journal.RecordFileChange | app/state.py:342-352 | the path moves to the end and the list is cut to its last 400 entries |
| JournalFiles.Journal.TaskStart | app/state.py:219-234 | starting a task, or starting it again, is the Start event of the histories below |
| JournalFiles.ColumnIs | app/state.py:219-352 | after any starts and recorded changes of any tasks, a task has a column exactly if it was started, holding the last 400 of its changes since then that no later one replaces |
| JournalFiles.CutCommutes | app/state.py:346-350 | cutting before recording makes no difference to what is kept after it |
| JournalFiles.BoundedIsLast | app/state.py:346-350 | cutting at every step equals cutting once at the end |
| JournalFiles.FilesChangedIs | app/state.py:342-352 | after any changes the column is the last 400 of the changes no later change of the same path replaces |
| Checkpoint.StepKeepsInvariant | app/state.py:441-455 | every step of every writer, every failure and every crash keeps what the checkpoint's name points to complete and synced |
| Checkpoint.CheckpointIsLastOverwrite | app/state.py:441-455 | at every moment a reader finds the text of the latest rename a crash has not undone, or the initial file |
| Checkpoint.CheckpointIsWhole | app/state.py:482-490 | a reader finds the initial file or one whole text handed to a writer |
| ConfigLayers.DeepMerge | app/config.py:409-417 | the copying loop computes the recursive merge in every order of keys |
| ConfigLayers.MergedAt | app/config.py:409-417 | at every path the overlay's value holds where the overlay decides, the base's elsewhere |
| ConfigLayers.FoldedAt | app/config.py:759-782 | every path has the value of the last layer that decides it |
| ConfigLayers.TopLevelIs | app/config.py:759-782 | a top-level key is set exactly if some file gives it a value other than an empty list, and a value of the last such file that is no section is the one in effect |
| ConfigLayers.MergeIdentity | app/config.py:409-417 | the empty section is the identity on both sides |
| ConfigLayers.MergeIsOverlayIff | app/config.py:409-417 | the merge is the overlay if and only if the overlay covers the base |
| ConfigLayers.MergeIdempotent | app/config.py:409-417 | merging a value with itself changes nothing |
| ConfigLayers.MergeAssociativeIff | app/config.py:409-417 | three layers merge associatively if and only if no plain value in the middle separates a section from one that does not cover it |
| ConfigLayers.NotAlwaysAssociative | app/config.py:409-417 | three concrete layers on which the grouping changes the result |
| ConfigLayers.Config.LoadConfigFiles | app/config.py:759-792 | an error exactly when a file is unreadable, naming the first such file; otherwise the fold of the cleaned layers and the last file defining max_steps |
| ConfigLayers.StepsComeFromRememberedFile | app/config.py:783-789 | the max_steps in effect is that of the remembered file |
| RunLoop.Budget.Ask | app/llm/llm.py:1198-1199 | an ask made while the budget is exhausted spends the grace |
| RunLoop.BaseAgent.Turn | app/agent/base.py:513-573 | one turn of the loop: it stops when tokens and grace are gone, else it spends the grace if need be and takes a step |
| RunLoop.BaseAgent.Run | app/agent/base.py:513-614 | the loop's step count and verdict meet Ended for every behaviour of every step, every cost of every ask, and every state the budget is found in |
| RunLoop.SpentAfterIff | app/agent/base.py:516-530 | whether tokens and grace are both gone after step n is decided by the limit, the grace at the start and the last two steps alone |
| RunLoop.TakenIff | app/agent/base.py:513-593 | the steps a run takes are exactly those that limits and outcomes allow, so their number is determined and within max_steps |
| RunLoop.CompleteIffClaimed | app/agent/base.py:646-650 | a run is journaled as complete if and only if a step it can take claims completion and raises nothing afterwards |
| RunLoop.CancelledCanBeComplete | app/agent/base.py:646-650 | a run cancelled in the step that claims completion is journaled as complete |
| RunLoop.PartialIffSpent | app/agent/base.py:651-671 | it is journaled as partial if and only if the steps, or the tokens and the grace, are used up first |
| RunLoop.FailedOrPausedIff | app/agent/base.py:672-700 | a run is journaled as failed if and only if a step it can take raises, and as paused if and only if one is cancelled without having claimed anything |
| RunLoop.AtMostOneStepAfterExhaustion | app/agent/base.py:516-530 | at most one step follows the first exhaustion, none if the grace was spent before |
| RunLoop.GraceStepIff | app/agent/base.py:516-530 | after the first exhaustion one more step is taken if and only if limits and outcomes allow it, the grace was not spent before the run, and the exhausting step made no further ask |
| RunLoop.GraceStepCanBeLost | app/agent/react.py:111-115 | a step that reaches the limit with its first ask and asks again: the run stops without the wrap-up step |
| Rollback.SmartRollback.TakeSnapshot | app/git_intel.py:180-229 | the copying loop backs up the listed paths that are files, each to its place under the new id's directory, absolute and climbing paths resolved as the file system does |
| Rollback.BacksUp | app/git_intel.py:192-205 | a snapshot backs up every listed path that names a file |
| Rollback.BackedAre | app/git_intel.py:192-205 | and in the order of the list nothing else, unless a path names the backup of another |
| Rollback.SmartRollback.Restore | app/git_intel.py:231-256 | the restoring loop copies the backups of the chosen snapshot to their files in order and reports which were restored and which were missing; it is ok if any was restored, and changes nothing otherwise |
| Rollback.ReportIs | app/git_intel.py:242-256 | a path is reported restored if its backup is there and missing otherwise, each in the order of the snapshot |
| Rollback.RestoreTouchesOnly | app/git_intel.py:243-256 | a restore changes no file but those its snapshot names |
| Rollback.HistoryKeeps | app/git_intel.py:214-229 | no later edit, snapshot or restore changes an earlier entry of the manifest |
| Rollback.ChosenIs | app/git_intel.py:238-241 | without an id the latest snapshot is restored, with an id the first that has it |
| Rollback.RestoreRoundTripIff | app/git_intel.py:180-256 | after any history, restoring an id gives every backed-up path its content at that snapshot if and only if the history left each backup as it was, or removed it and left the file as it was |
| Rollback.RestoreOneFileIff | app/git_intel.py:180-256 | the same for a snapshot of one file, with nothing assumed of its path |
| Rollback.RestoreRoundTrip | app/git_intel.py:180-256 | when the history writes none of the backups, every path has its content back, no other file changes, all are reported restored and none missing |
| Rollback.PlainRoundTrip | app/git_intel.py:180-256 | that is so over every history of relative paths without ".." that keep out of the snapshot directory, if nobody edits the snapshots |
| Rollback.NumberIsRead | app/git_intel.py:188 | the name of a snapshot's directory tells its number, so different snapshots have different directories |
| Rollback.NamesDiffer | app/git_intel.py:188 | no two snapshot ids have the same name |
| Rollback.ResolveName | app/git_intel.py:193-199 | a name leads into a directory, a dot stays, two dots go up |
| Rollback.ResolveJoin | app/git_intel.py:193-199 | a path with a slash is followed part by part |
| Rollback.ResolveAbsolute | app/git_intel.py:193-199 | an absolute path starts from the top wherever it is resolved |
| Rollback.ClimbingBackupIsLost | app/git_intel.py:197 | two snapshots of "../f" share one backup, and restoring the first brings back the second content |
| Rollback.ChosenIsAskedForIff | app/git_intel.py:239-241 | the snapshot restored has the id asked for if and only if some snapshot has it |
| Rollback.UnknownIdRestoresLatest | app/git_intel.py:239-241 | an unknown id restores the latest snapshot |

## Left out

- Planner.GeneratePlan: a fresh graph only; merging new steps into an existing plan, the plan cache and the model call are not part of this model.
- Planner.HeuristicPlan: the regular expression for numbered items and the keyword tables that classify a title are parameters.
- Planner.RepairPlan: what each entry of depends_on reads as is a parameter, worked out only for dashes and the digits 0 to 9 (DepOf); the list of files itself is not modelled, only whether there is one.
- TaskGraphObject.TaskGraph.UpdateDependsOn: models the depends_on part of update_node; changes of title, notes, priority and files do not interact with the properties.
- TaskGraphObject.TaskGraph.AddNode: notes, files and the write to the database are not modelled; creation times are whole numbers.
- TaskGraphObject.TaskGraph.PrioritizedOrder: nodes restored by from_snapshot can hold any statuses and dependencies; the statements about runs start from the graphs their requires describe.
- Pipeline.TopologicalSort: a pipeline that names a role twice is left out by the precondition.
- PipelineStages.Step: models roles, database logging inside the protected block and events; stage hooks, the global timeout, the final verdict text, an exception from logging inside the handler or the skip branch, and the single-agent fallback are not modelled.
- ToolHistory.SanitizeToolHistory: to_dict, from_dict and the repair of argument strings would only add easy members.
- ContextMemory.Memory.Trim: the pinned system messages are told apart by position, not by object identity, so a memory holding the same message object twice is not captured.
- ContextMemory.EstimateShrinks: the factor 1.3 is read as the fraction 13/10.
- Compaction.CompactMessages: the text of the state message is a parameter; the pattern lists behind it are not modelled.
- AgentRegistry.AgentRegistry.EvictIdle: cleanup is a bag of agents handed over; exceptions raised inside a cleanup and cleanup_all are not modelled.
- AgentRegistry.GetAgent: route matching and the creation of agents are not modelled; the session key is a parameter.
- TaskQueue.TaskQueue.WorkOn: every save reads a later clock than the one before; one worker; the queue does not keep two workers from taking the same task between the query and the save.
- TaskQueue.TaskQueue.SubmitTask: deduplication of submissions, cancelling a running task and the removal of old tasks are not modelled.
- JournalFiles.Journal.RecordFileChange: the other columns of the journal are not modelled.
- Checkpoint.CheckpointIsLastOverwrite: the directory is not synced by the code, so a crash may undo renames, which the model allows; JSON encoding and the file name are not modelled.
- ConfigLayers.Config.LoadConfigFiles: environment variables, profiles as such and the parsers are not modelled; a candidate is what parsing gave.
- RunLoop.BaseAgent.Run: what comes before the first turn of the loop, long-term memory, session registry, nudges and the choice between failed and blocked after an error are not modelled; model calls of a turn outside the step itself count towards that step.
- Rollback.RestoreRoundTripIff: several paths of one snapshot whose backups fall on each other or on each other's files are left out by Apart and OneName; the agent itself takes snapshots of one file, where neither can happen.
- Rollback.SmartRollback.TakeSnapshot: symbolic links, missing directories on the way, copy errors and git state are not modelled, nor are edits, backups and restores that write the manifest file itself.
- Language-model calls, prompts, networking, SQLite, threads and signals as such are not modelled.
- Provider health averages, the cron guard, progress percentages and session states would only add easy members.
