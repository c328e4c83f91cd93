# Verified models of kubeswarm

kubeswarm runs teams of LLM agents on Kubernetes. This project models the parts of its operator that
carry the most state and proves what they keep over whole runs. Code that works by changing things step
by step is modelled by classes and methods with loops, each proved against a specification function; the
properties of those functions, and of every run made of them, are lemmas.

| files | what they model |
|---|---|
| `Search*.dfy` | the search orchestrator: a planner/executor/beam-search loop kept as a persisted tree |
| `Emitter*.dfy` | the bounded, drop-oldest audit emitter: as a protocol of interleaved atomic steps, and run by one goroutine |
| `Policy*.dfy` | merging policies, checking agents against the merge, clamping agents' values by it |
| `Pipeline*.dfy`, `Dag.dfy` | the pipeline step machine of a run, and validating a pipeline's dependency graph |
| `Overrides.dfy`, `PromptFragments.dfy` | lists of named entries in which the last value wins: environment variables and prompt fragments |
| `Cron.dfy`, `DailyBudget.dfy` | cron catch-up firing; the rolling 24-hour token budget |
| `Capability*.dfy`, `Registry.dfy` | the in-process capability index |
| `Options.dfy`, `Strings.dfy` | optional values; the order of strings and sorted lists |

How the models are built:

- One successful reconcile is one atomic step on the persisted state. Task results, planner output,
  validation verdicts, agent readiness, queue answers and clocks are inputs of that step, left arbitrary.
  A reconcile that returns an error, or whose status write fails, leaves the persisted state unchanged; what
  it has enqueued, asked, cancelled or fired by then stays done, and the histories keep it.
- The search tree's node list is a slice whose elements are changed through saved pointers. Appending may
  move the slice, and writes through the old pointers are then lost; the model keeps the spare capacity and
  does lose them.
- Emit, the background loop, SetMode and Close interleave at every channel operation and every counter
  update. Sending on the closed channel panics.
- Pattern matching of model names is an arbitrary function of pattern and name. A cron schedule is an
  arbitrary function from a time to the next instant, or to the zero time when none is left.

Where the code and its own comments disagree, the models follow the code:

- `applySearchActions` (`internal/controller/swarmrun_search.go:211`) is documented as atomic. It keeps what
  it applied before an error, and loses prune and converge writes that follow a reallocation. See
  `SearchBatches.BatchAsDocumentedIff`, `SearchBatches.PruneAfterExpandIsLost`, `SearchBatches.CutShortExactly`.
- An empty intersection of allowlists reads as no constraint. See `PolicyCompliance.AllowListSoundIff`.
- A run that times out is said to have its tasks cancelled. The timeout fails the Running steps first, and
  cancelling then skips them. See `PipelineProgress.TimeoutCancelsIff`, `PipelineProgress.LateTimeoutCancelsIff`,
  `PipelineProgress.TimeoutLeavesTask`.
- `mostRecentSchedule` does not end for a schedule that has no instant left, such as 30 February. See
  `Cron.SearchEndsIff`, `Cron.ThirtiethOfFebruaryNeverEnds`.
- `mostRecentSchedule` looks back from the later of the last firing and 24 hours ago, not from the earlier.
- `ValidateRunDAG` has no caller. A run whose pipeline is empty, or names a role twice, can never complete, and
  validation rejects neither. See `PipelineTermination.AcceptedButStuck`, `PipelineTermination.CanCompleteIff`,
  `PipelineTermination.ServedRunsEndIff`.
- A search without an iteration limit, which the schema allows, need not end. See `SearchLimits.SearchEndsIff`,
  `SearchLimits.GoesOnForever`.
- `FiredCount` counts firings that started nothing because a run was still active. See `Cron.FiredCounts`.

## Model

| member | source | states |
|---|---|---|
| SearchReconciler.Reconcile | internal/controller/swarmrun_search.go:374-547 | whatever the outside answers, and wherever it fails, one reconcile is a step of the relation all the run properties below are about; an error or a failed write leaves the stored run alone, and what was done outside by then is kept in the history |
| SearchRuns.ReachableInv | internal/controller/swarmrun_search.go:374-547 | every persisted state: node i has id i, the root has depth 0 and no parent, every other parent id is smaller and the depth one more; at most min(maxNodes, 200) nodes; a node holds a task id exactly when Running; no more than maxParallel run; depth at most MaxDepth, and below it while the search goes on; at most beamWidth scored nodes a depth |
| SearchOutcomes.DefaultBounds | internal/controller/swarmrun_search.go:211-547 | the same bounds in numbers: what is not set is 50 nodes, 3 tasks at a time and 3 scored nodes a depth, and there are never more than 200 nodes |
| SearchInvariants.StepKeepsInv | internal/controller/swarmrun_search.go:374-547 | one step of that induction; a stored reconcile submits exactly the nodes that are no longer Pending after it, and iterations count its planner calls |
| SearchInvariants.StepAttempts | internal/controller/swarmrun_search.go:374-547 | stored or not, a reconcile asks the planner only within the iteration limit, and enqueues only nodes that are Pending or new, each once |
| SearchInvariants.StepProgress | internal/controller/swarmrun_search.go:374-547 | a reconcile after which the search goes on changes nothing, counts one more iteration, or lowers 2·Pending + Running |
| SearchRuns.PhasesNeverFall | internal/controller/swarmrun_search.go:558-618 | over any run nodes are never removed, re-parented or moved, and no phase falls in rank |
| SearchRetries.SubmittedAtMostOnce | internal/controller/swarmrun_search.go:789-844 | once a submission is stored, the node is never enqueued again |
| SearchRetries.EnqueuedExactly | internal/controller/swarmrun_search.go:789-844 | over any run a node is enqueued once if the stored tree shows it submitted, and once more for each reconcile that enqueued it and was not stored |
| SearchRetries.EnqueuedAgainIff | internal/controller/swarmrun_search.go:789-844 | a submitted node was enqueued more than once if and only if some reconcile that enqueued it was not stored |
| SearchRetries.RootEnqueuedAgain | internal/controller/swarmrun_search.go:456-470 | for every n, a run that enqueues its root n times while status writes fail |
| SearchRuns.TimeoutCancelsInFlight | internal/controller/swarmrun_search.go:1016-1055 | a timeout cancels exactly the tasks in flight and keeps the tree, and fails the run exactly when its status is written |
| SearchRetries.PlannerCallsExactly | internal/controller/swarmrun_search.go:474-547 | over any run, planner calls = iterations + the call that ended the search + the calls of reconciles that were not stored |
| SearchRetries.PlannerCallsBounded | internal/controller/swarmrun_search.go:309-313 | so the planner is called at most MaxIterations times, and once more for each call whose reconcile was not stored |
| SearchRetries.PlannerAskedAgain | internal/controller/swarmrun_search.go:474-547 | for every n, a run with a limit of one iteration that asks the planner n times while status writes fail |
| SearchRuns.ChangeLowersPotential | internal/controller/swarmrun_search.go:374-547 | every change to a search that goes on lowers one non-negative number |
| SearchRuns.ChangesBounded | internal/controller/swarmrun_search.go:374-547 | so only a bounded number of reconciles of any run change it |
| SearchRuns.GoodStepsBounded | internal/controller/swarmrun_search.go:374-547 | in any run with an iteration limit, however slow and whatever fails in between, the reconciles that go through and bring an answer, if one is awaited, are bounded by the search's limits: so if there are enough of them the search has ended |
| SearchRuns.SearchTerminates | internal/controller/swarmrun_search.go:374-547 | in particular a search with an iteration limit whose every reconcile is such a one ends within that bound |
| SearchLimits.MustEndIff | internal/controller/swarmrun_search.go:269-316 | those reconciles are bounded while the search is unfinished if and only if it has an iteration limit or its node limit leaves room for the root only |
| SearchLimits.SearchEndsIff | internal/controller/swarmrun_search.go:269-316 | and a search whose every reconcile is such a one ends in bounded time under exactly the same condition |
| SearchLimits.GoesOnForever | api/v1alpha1/swarmteam_types.go:409-413 | for every n, a run with no iteration limit and room for a second node that goes on through more than n such reconciles, the planner answering with an empty batch |
| SearchRuns.TasksStayDistinct | internal/controller/swarmrun_search.go:781-847 | with a queue that issues no id twice, tasks in flight stay told apart over whole runs |
| SearchRuns.AnswerFindsItsNode | internal/controller/swarmrun_search.go:550-620 | then a node in flight is settled if and only if its own task is answered |
| SearchStages.CollectFinishes | internal/controller/swarmrun_search.go:549-620 | collecting settles exactly the Running nodes an answer reaches, and changes nothing else |
| SearchStages.EvaluatorIsNeverAsked | internal/controller/swarmrun_search.go:622-702 | no node ever waits for an evaluator: collecting evaluations changes no reachable tree |
| SearchStages.SubmitAdvances | internal/controller/swarmrun_search.go:780-847 | submitting launches Pending nodes only, never runs past the limit, and leaves none Pending unless some run |
| SearchOutcomes.SubmitTakesTheFirst | internal/controller/swarmrun_search.go:780-847 | Pending nodes are submitted in the order of the list, each under the id the queue answers for it, and only a Pending node the queue refuses is an error |
| SearchOutcomes.LimitIsUsed | internal/controller/swarmrun_search.go:780-847 | a search that goes on leaves a node Pending only if maxParallel run, 3 where nothing is set |
| SearchOutcomes.GoesOnWithItsQueue | internal/controller/swarmrun_search.go:797-811 | it goes on only if the queue could be opened, and again after the planner was asked |
| SearchStages.BeamKeepsTheBest | internal/controller/swarmrun_search.go:334-361 | after beam pruning no depth exceeds the width, only scored nodes were pruned, and none pruned outscores one kept at its depth |
| SearchStages.BeamPruneIdempotent | internal/controller/swarmrun_search.go:334-361 | a tree within the width is left alone, so a second call does nothing |
| SearchOutcomes.BeamKeepsItsWidth | internal/controller/swarmrun_search.go:334-361 | a depth keeps exactly the lesser of the beam width, 3 where nothing is set, and what it had |
| SearchStages.ApplyAdvances | internal/controller/swarmrun_search.go:211-267 | a validated batch, wherever it stops, adds only Pending children of nodes it was validated against and otherwise only prunes or chooses; the node limit holds |
| SearchStages.TruncateTwice | internal/controller/swarmrun_search.go:318-332 | truncating a truncated tree changes nothing, although the mark makes a text longer than the limit |
| SearchOutcomes.RoundsTruncate | internal/controller/swarmrun_search.go:318-332 | after a planning round that goes on no text is longer than the limit, 4096 where nothing is set, and the mark |
| SearchTrees.SearchTree.BeamPrune | internal/controller/swarmrun_search.go:335-361 | grouping, sorting and cutting keep min(width, count) of the scored nodes of each depth, none below a pruned one, and change nothing but the pruned nodes' phases |
| SearchTrees.SearchTree.CollectResults | internal/controller/swarmrun_search.go:549-702 | the in-place loops over a task map compute the collecting stage of either queue, and settle a node by the last answer to its task: a task's error fails it and is its output, otherwise it is scored with the task's output, or with the evaluator's score, which must parse |
| SearchSpec.CollectSettles | internal/controller/swarmrun_search.go:549-702 | the same of any poll; nothing but phase, output or score, and task id changes, and nodes no answer is for are unchanged |
| SearchSpec.IsForTheLast | internal/controller/swarmrun_search.go:552-566 | an answer is for the last node that holds its task: a Running one on the executor queue, a scored one with an output and no score on the evaluator's |
| SearchOutcomes.VerdictsByAnswer | internal/controller/swarmrun_search.go:589-618 | in every state of any run, a node is scored only if some stored reconcile brought an answer without an error to its task, and failed only if one brought an error; its output is that of that answer, perhaps truncated |
| SearchOutcomes.TasksAreKept | internal/controller/swarmrun_search.go:318-332 | over any run a node's task never changes but by truncation, to 4096 bytes where nothing is set; the root's is the prompt of the search |
| SearchTrees.SearchTree.SubmitPending | internal/controller/swarmrun_search.go:780-847 | the in-place loop computes the submitting stage, refusals of the queue included |
| SearchTrees.SearchTree.ApplyBatch | internal/controller/swarmrun_search.go:211-267 | the loop, with its saved pointers and reallocations, computes the applying stage |
| SearchTrees.SearchTree.ValidateActions | internal/controller/swarmrun_search.go:166-209 | lists every problem of every action, in order, and none if and only if every action is acceptable |
| SearchSpec.AcceptedIff | internal/controller/swarmrun_search.go:166-209 | a batch is accepted if and only if each action expands a node of the tree by a task that is not empty, prunes one or converges on one, expansions and convergences with a score unless there is an evaluator |
| SearchOutcomes.PlannerFailsIff | internal/controller/swarmrun_search.go:474-515 | a stored reconcile that asks the planner ends the search as its failure if and only if the planner fails or one of its actions is not acceptable |
| SearchTrees.SearchTree.CheckConvergence | internal/controller/swarmrun_search.go:269-316 | the first reason that applies, in this order: a solution, a node with a score of at least ten times the percentage, a node not pruned at the depth limit, as many nodes as the limit or 50, as many iterations as a positive limit |
| SearchTrees.SearchTree.ChooseOutput | internal/controller/swarmrun_search.go:849-882 | the output is the solution's, else that of the first node with the highest score, else unchanged |
| SearchOutcomes.StatesAreDecided | internal/controller/swarmrun_search.go:849-925 | over any run: while it goes on a search has no solution, no node that reaches score or depth limit, room for a node and no output; ended, it has timed out, or records the first reason that applies to its tree, or a planner failure, and has failed exactly in the first case and the last; its output is that of its solution, which is a node, else of the first node with the highest score, else empty |
| SearchSpec.Best | internal/controller/swarmrun_search.go:867-881 | the first of the nodes with the highest score |
| SearchSpec.NoProblemsMeansComplete | internal/controller/swarmrun_search.go:166-209 | a batch without problems never dereferences an absent id, task or node |
| SearchStages.ValidatedTargets | internal/controller/swarmrun_search.go:166-209 | in a batch without problems every id named is that of a node of the tree |
| SearchBatches.BatchAsDocumentedIff | internal/controller/swarmrun_search.go:211-267 | action for action, a validated batch does what it says if and only if no prune or converge that would change its node comes after more expands than the slice has spare room for |
| SearchBatches.RoomIsEnough | internal/controller/swarmrun_search.go:211-267 | room for all its expands is enough |
| SearchBatches.PruneAfterExpandIsLost | internal/controller/swarmrun_search.go:211-267 | a concrete two-action batch whose prune is lost |
| SearchBatches.CutShortExactly | internal/controller/swarmrun_search.go:226-231 | a batch is cut short exactly when its expands exceed the room under the limit, and then fills it |
| SearchBatches.CutShortKeepsPrefix | internal/controller/swarmrun_search.go:226-231 | wherever a batch stops, what it has done is what its longest prefix that finds room does as a whole |
| SearchBatches.SecondExpandDoesNotFit | internal/controller/swarmrun_search.go:226-231 | a concrete batch of two expands that fails at the node limit and leaves its first child in the tree |
| SearchPaths.AncestorsAreThePath | internal/controller/swarmrun_search.go:147-164 | the path of a node has exactly depth-many nodes, from the root down, each the parent of the next |
| SearchPaths.BuildPathFromRoot | internal/controller/swarmrun_search.go:147-164 | following parent ids terminates, and reversing in place gives that path |
| SearchPaths.PlannerSeesNoFrontier | internal/controller/swarmrun_search.go:456-474 | the planner is only ever asked about a tree with no Pending and no Running node, so the frontier built for it is empty |
| EmitterProtocol.NextKeepsInv | pkg/audit/emitter.go:82-174 | every atomic step of any goroutine keeps conservation, counting, order and bounds |
| EmitterRuns.EveryCallAccountedFor | pkg/audit/emitter.go:82-105 | over every interleaving: calls begun = handed + batch + buffered + dropped + in flight; capacity and batch sizes hold; what is kept is an in-order part of what was sent |
| EmitterRuns.AtMostTwoDropsInACall | pkg/audit/emitter.go:87-114 | no single call, however it is interleaved, counts more than two drops |
| EmitterRuns.AtMostTwoDropsPerCall | pkg/audit/emitter.go:87-114 | so the counter never exceeds twice the calls begun |
| EmitterRuns.AfterCloseAllSettled | pkg/audit/emitter.go:134-174 | when the loop ends after a Close no call raced with, begun = handed + dropped, event by event |
| EmitterRuns.CloseDrains | pkg/audit/emitter.go:149-174 | the loop, left alone on a closed channel, ends and has handed over everything in order |
| EmitterRuns.SlidingWindow | pkg/audit/emitter.go:82-105 | unless it races with Close, a single producer's new event is never the one dropped, the buffer is always the end of what it emitted, and while nothing is taken it is the last cap of it |
| EmitterRuns.EmitAloneSlides | pkg/audit/emitter.go:82-105 | the atomic steps of an uninterrupted Emit add up to sliding a window by one |
| EmitterRuns.ModeDecides | pkg/audit/emitter.go:82-85 | a call that begins with the mode off does nothing; with it on its event is under way |
| EmitterRuns.FullOrAllThereIs | pkg/audit/emitter.go:149-166 | a batch is handed over if and only if it holds 64 events or nothing more is buffered |
| Emitters.Emitter.Emit | pkg/audit/emitter.go:82-105 | the channel becomes the last cap events of it and the new one; a full channel counts one drop |
| Emitters.Emitter.EmitSeries | pkg/audit/emitter.go:82-105 | so after any series it holds the last cap events, and the rest are counted |
| Emitters.Emitter.NextBatch | pkg/audit/emitter.go:153-166 | a batch is the oldest min(64, buffered) events |
| Emitters.Emitter.Loop | pkg/audit/emitter.go:149-174 | every event is handed over once, in order, in batches of 1 to 64, all full but the last |
| PolicyMerge.MergePolicies | internal/controller/swarmpolicy_merge.go:75-225 | the result is the merge of the set of specs, each field characterised on its own and without a rank: strictest, least, greatest, union, intersection; a conflict is reported exactly when the merged limits conflict |
| PolicySpec.MergeHasMeaning | internal/controller/swarmpolicy_merge.go:36-203 | in the policies' own values: Enforce if and only if one enforces and Audit if and only if all audit; the trust forced is Sandbox, External or Internal as some policy forces it and none forces less; validation likewise, Semantic first; each ceiling the least and the floor the greatest; denied is what some policy denies, allowed what all allowlists hold |
| PolicySpec.MergeIsDetermined | internal/controller/swarmpolicy_merge.go:97-224 | the merge depends on the set of specs alone: order and repetition of policies do not matter |
| PolicyMerge.IntersectAllowLists | internal/controller/swarmpolicy_merge.go:276-302 | by counting, the sorted list of exactly the patterns on every list |
| PolicyMerge.MergeLimits | internal/controller/swarmpolicy_merge.go:229-240 | of every ceiling the lower, of the timeout floor the higher, an absent one not counting |
| PolicyMerge.MinOf | internal/controller/swarmpolicy_merge.go:244-253 | one of the two, no higher than either that is present |
| PolicyMerge.ConflictMeans | internal/controller/swarmpolicy_merge.go:204-224 | a timeout conflict is reported if and only if some policy's minimum exceeds some policy's maximum |
| PolicyMerge.FindTimeoutPolicies | internal/controller/swarmpolicy_merge.go:306-328 | names the policies with the highest floor and the lowest ceiling |
| PolicyMerge.NamedPoliciesClash | internal/controller/swarmpolicy_merge.go:306-328 | in a conflict the two policies named are such a pair |
| PolicyCompliance.EvaluateAgentCompliance | internal/controller/swarmpolicy_merge.go:342-354 | no policy, no violation; otherwise every constraint the agent breaks is reported, once, and nothing else |
| PolicyCompliance.ReportIsExact | internal/controller/swarmpolicy_merge.go:357-525 | a violation is in the report of the three checks if and only if its constraint is set and broken |
| PolicyCompliance.CheckModels | internal/controller/swarmpolicy_merge.go:479-525 | scanning patterns yields at most one violation a list: a denied match, no allowed match |
| PolicyCompliance.RequirementsEquivalent | internal/controller/swarmpolicy_merge.go:357-402 | the merged requirements are met if and only if every policy's own are |
| PolicyCompliance.LimitsEquivalent | internal/controller/swarmpolicy_merge.go:405-476 | the merged limits are met if and only if every policy's own are |
| PolicyCompliance.DeniedEquivalent | internal/controller/swarmpolicy_merge.go:479-497 | a model is denied by the merge if and only if some policy denies it |
| PolicyCompliance.AllowListSoundIff | internal/controller/swarmpolicy_merge.go:498-525 | the merged allowlist protects every policy's, for every model, if and only if the lists share a pattern or each matches everything anyway |
| PolicyCompliance.DisjointAllowListsProtectNobody | internal/controller/swarmpolicy_merge.go:498-525 | for any two policies that allow one model each, the merge lets through a third model that both refuse |
| PolicyCompliance.MergeIsSound | internal/controller/swarmpolicy_merge.go:342-525 | when the allowlists share a pattern, or there are none, an agent with no violation against the merge has none against any policy |
| PolicyCompliance.CeilingBindsIff | internal/controller/swarmpolicy_merge.go:405-476 | converted to 32 bits, a value is held to every ceiling exactly when it fits into 32 bits, or falls below them onto the least integer |
| PolicyCompliance.HugeValueComplies | internal/controller/swarmpolicy_merge.go:405-476 | an agent that may use 2^31 tokens a call breaks no ceiling on them, whatever it is |
| PolicyClamp.ApplyPolicyLimits | internal/controller/swarmpolicy_effective.go:30-60 | clamps in place in the order of the code: timeout ceiling before floor, 0 daily tokens as no limit, retries untouched |
| PolicyClamp.ClampIdempotent | internal/controller/swarmpolicy_effective.go:30-94 | clamping twice is clamping once, conflict or not |
| PolicyClamp.CeilingsHold | internal/controller/swarmpolicy_effective.go:30-94 | every ceiling present holds afterwards; the timeout ceiling does if and only if minimum and maximum do not conflict |
| PolicyClamp.ClampLeavesIff | internal/controller/swarmpolicy_effective.go:30-94 | each value is left alone if and only if it keeps the limits on it |
| PolicyClamp.ChangedToALimit | internal/controller/swarmpolicy_effective.go:30-94 | and what is changed becomes one of those limits |
| PolicyClamp.ClampOptional | internal/controller/swarmpolicy_effective.go:81-94 | an absent cap acts as infinity |
| PolicyClamp.ClampByMerge | internal/controller/swarmpolicy_effective.go:30-94 | without a conflict, clamping by the merge is clamping by each policy in turn |
| PolicyClamp.MergeAllIsMerged | internal/controller/swarmpolicy_merge.go:229-240 | merging limits one after the other gives the merge of the set |
| PolicyClamp.AnyOrderIff | internal/controller/swarmpolicy_effective.go:30-94 | policies clamp every agent alike in every order, and as their merge does, if and only if the merge has no timeout conflict |
| Pipelines.Reconcile | internal/controller/swarmrun_controller.go:236-328 | start, timeout, collect, submit, roll up and cancel are one step of the relation the run properties below are about; what a reconcile that is not stored has done outside is kept in the history |
| Pipelines.Pipeline.CollectResults | internal/controller/swarmrun_controller.go:917-1043 | the pass over a map of waiting steps computes the collecting stage, and each answer to a task waited for decides its step: an error fails it, an output that passes or has no rules completes it, one that does not counts an attempt; no other step changes |
| Pipelines.Pipeline.Waiting | internal/controller/swarmrun_controller.go:928-957 | polls exactly the Running steps with a task id, and maps each id to a step that holds it |
| PipelineSpec.AfterFailedValidation | internal/controller/swarmrun_controller.go:1275-1302 | a failed validation counts one attempt; the step is open again, with its task id cleared, exactly while attempts are left, and has failed otherwise |
| Pipelines.Pipeline.SubmitPending | internal/controller/swarmrun_controller.go:759-915 | the loop computes the submitting stage and stops at the first queue error |
| PipelineSpec.Visit | internal/controller/swarmrun_controller.go:815-912 | a step is enqueued if and only if its condition, asked only before it warmed up, and its inputs agree, an agent is found and ready, the budget is left and the queue takes it; then it is Running under the queue's id, and nothing else touches its id, its attempts or its agent; unresolved inputs and a used-up budget fail it, an agent that is not ready has it warm up |
| Pipelines.Pipeline.DepsSucceeded | pkg/flow/dag.go:47-60 | true exactly when every dependency is a known step that succeeded or was skipped |
| Pipelines.Pipeline.UpdateRunPhase | pkg/flow/phase.go:84-133 | failed if and only if late, over budget or a step has failed; complete if and only if not failed and there are steps, all succeeded or skipped; steps change only when late |
| Pipelines.Pipeline.EnforceTimeout | pkg/flow/phase.go:61-81 | a timeout fails exactly the Running and the Pending steps |
| PipelineSpec.Owner | pkg/flow/dag.go:38-45 | the status a role stands for is that of the last step of that role |
| PipelineInvariants.CollectDecides | internal/controller/swarmrun_controller.go:1000-1024 | the same of any poll: with an error Failed, without one and valid or without rules Succeeded, all else kept; invalid, one attempt more and Pending without a task id or Failed with it; a step that is not answered is unchanged |
| PipelineInvariants.RulesAreTheLast | internal/controller/swarmrun_controller.go:960-966 | the rules a role is validated by are those of the last step of that role that has any |
| PipelineOutcomes.SucceededIff | internal/controller/swarmrun_controller.go:917-1024 | in every state of any run, a step has succeeded if and only if some stored reconcile brought an answer without an error to the task it held, and a valid one where rules apply |
| PipelineOutcomes.RunEndsIff | pkg/flow/phase.go:84-133 | a stored reconcile ends the run as failed if and only if its inputs are refused, it is late, over its tokens or a step has failed, and as complete if and only if none of that holds and there are steps, all succeeded or skipped |
| PipelineOutcomes.FailedPollDoesNothing | internal/controller/swarmrun_controller.go:258-300 | a reconcile that cannot poll stores, enqueues, resets and cancels nothing; one that is not stored leaves the run as it was |
| PipelineInvariants.StepKeepsInv | internal/controller/swarmrun_controller.go:236-328 | every reconcile keeps the invariant and never touches a step that succeeded, failed or was skipped |
| PipelineRuns.FinalStepsStay | internal/controller/swarmrun_controller.go:772-1024 | over any run, done and failed steps are never left |
| PipelineRuns.StartedIsDependencyClosed | internal/controller/swarmrun_controller.go:772-792 | in every state of any run the started steps include all their dependencies, and those are done |
| PipelineRuns.SubmittedAfterDependencies | internal/controller/swarmrun_controller.go:790-912 | whenever a task is enqueued, stored or not, the step's dependencies are done in the state worked out by then; once that is stored, ever after |
| PipelineRuns.BlockedNeverSubmitted | internal/controller/swarmrun_controller.go:790-792 | steps that wait for each other, for such steps or for an unknown one are never enqueued |
| PipelineProgress.CycleNeverSubmitted | internal/controller/swarmrun_controller.go:790-792 | no step on a dependency cycle is ever enqueued |
| PipelineRuns.SubmissionsBounded | internal/controller/swarmrun_controller.go:1284-1301 | over a whole run a step is enqueued at most max(1, maxRetries) times, once more for each lost task id, and once more each time by a reconcile that was not stored |
| PipelineRuns.EnqueuedAgainIff | internal/controller/swarmrun_controller.go:882-912 | a step still open was enqueued for each failed attempt, each lost id and the task in flight, and again if and only if some reconcile that enqueued it was not stored |
| PipelineProgress.EnqueuedAnyNumberOfTimes | internal/controller/swarmrun_controller.go:882-912 | for every n, a run that enqueues its only step n times while status writes fail |
| PipelineCounts.StepKeepsBooks | internal/controller/swarmrun_controller.go:772-1301 | every task sent for an unfinished step is in flight, was a counted attempt, or was lost; for a finished one, at most one more was sent than that |
| PipelineAttempts.UsedUpIff | internal/controller/swarmrun_controller.go:1275-1302 | in every state of any run, a step has used up its attempts if and only if some stored reconcile has failed it by validation |
| PipelineAttempts.TriedExactly | internal/controller/swarmrun_controller.go:1275-1302 | a step failed by validation stays failed, and over the whole run stored reconciles enqueued it exactly max(1, maxRetries) times, once when it is not retried, and once more for each lost task id |
| PipelineRuns.CompleteMeansDone | pkg/flow/phase.go:104-131 | a run is complete only when every step succeeded or was skipped |
| PipelineRuns.RepeatedRoleNeverCompletes | pkg/flow/dag.go:38-45 | a pipeline that names a role twice never completes |
| PipelineTermination.CanCompleteIff | pkg/flow/dag.go:129-146 | a pipeline has a run that completes if and only if it has a step, validation accepts it and no role is named twice |
| PipelineTermination.AcceptedButStuck | pkg/flow/dag.go:129-146 | the empty pipeline, and one of two steps of the same role, which validation accepts and no run completes |
| PipelineProgress.EndCancelsInFlight | internal/controller/swarmrun_controller.go:311-313 | a run that ends by its steps or its token limit cancels exactly the tasks in flight |
| PipelineProgress.TimeoutCancelsIff | internal/controller/swarmrun_controller.go:242-257 | a timeout noticed at the start cancels nothing: the tasks in flight are cancelled if and only if there are none |
| PipelineProgress.LateTimeoutCancelsIff | pkg/flow/phase.go:84-89 | nor does one noticed after collecting and submitting, not even the tasks just enqueued |
| PipelineProgress.TimeoutLeavesTask | internal/controller/swarmrun_controller.go:242-257 | a concrete two-reconcile run that leaves its task in the queue |
| PipelineTermination.GetsStuckIff | pkg/flow/dag.go:129-146 | a run can come to a state with no task in flight and no step that can be visited if and only if its pipeline is empty, names a role twice or is rejected by validation |
| PipelineTermination.GoodStepsBounded | internal/controller/swarmrun_controller.go:236-328 | in any run of any pipeline, however slow and whatever fails in between, at most two reconciles for each attempt the steps are allowed are stored and responded to: one task answered if any is in flight, else one step helped that can be visited |
| PipelineTermination.PipelineTerminates | internal/controller/swarmrun_controller.go:236-328 | so while the outside serves it, a run of a non-empty valid pipeline without a repeated role ends within that many reconciles |
| PipelineTermination.ServedRunsEndIff | internal/controller/swarmrun_controller.go:236-328 | for every pipeline, all its served runs end within that many reconciles if and only if it has a step, is valid and names no role twice |
| PipelineTermination.ServedForever | pkg/flow/phase.go:102-131 | for every other pipeline and every n, a served run that goes on after n reconciles |
| Dag.DetectCycle | pkg/flow/dag.go:150-177 | reports a cycle if and only if there is one; otherwise the order of finishing is a schedule |
| Dag.Search.Visit | pkg/flow/dag.go:153-168 | the depth-first search keeps the gray names a path and the black ones in dependency order |
| Dag.ValidatePipeline | pkg/flow/dag.go:129-146 | accepts a pipeline if and only if every dependency is a step of it and none is circular |
| Dag.OrderedIsAcyclic | pkg/flow/dag.go:150-177 | names that can be put in dependency order form no cycle |
| Dag.WaitingInACircle | pkg/flow/dag.go:150-177 | names each of which waits for one of them form a cycle |
| Overrides.DedupInPlace | internal/controller/swarmagent_controller.go:1484-1496 | writing onto the front of the array it reads, it leaves each name once, in the order of first occurrences, with its last value; nothing unread is overwritten |
| Overrides.MergeIsUnique | internal/controller/swarmagent_controller.go:1484-1496 | that describes one list only, so the in-place pass and the map with its order list compute the same |
| Overrides.LastOrderIff | internal/controller/swarmagent_controller.go:1484-1496 | for every list, the result goes by last occurrences as well if and only if first and last occurrences are ordered alike |
| PromptFragments.ComposeFragments | internal/controller/swarmagent_controller.go:940-984 | map and order list give each fragment once, at its first place, with its last text and prepend/append field; blank ones are left out |
| PromptFragments.PlacedAsTheLast | internal/controller/swarmagent_controller.go:943-951 | a merged fragment has the text of the last one of its name, and goes before the base if and only if that one says prepend |
| PromptFragments.TextsInOrder | internal/controller/swarmagent_controller.go:968-979 | the texts before, and those behind, are those of the fragments that are not blank, each once and in order |
| PromptFragments.FragmentsHideTheDeprecated | internal/controller/swarmagent_controller.go:953-966 | fragments of one's own hide the deprecated fields |
| PromptFragments.OverriddenKeepsItsPlace | internal/controller/swarmagent_controller.go:943-951 | a concrete list, whatever its texts, in which an overridden fragment keeps its first place and first and last occurrences differ in order |
| PromptFragments.AssembleSystemPrompt | internal/controller/swarmagent_controller.go:934-1003 | the prompt joins the prepended fragments, the base, the appended ones and the tool guidance, and whatever they are ends with the defence against injected instructions |
| PromptFragments.PartsSurround | internal/controller/swarmagent_controller.go:981-1003 | text by text with an empty line after each: the prepended fragments, the base unless blank, the appended ones, the tool guidance, the defence |
| PromptFragments.StandsInLines | internal/controller/swarmagent_controller.go:968-1003 | each text of such a list stands in the prompt, in full, within the lines of its list |
| PromptFragments.PersonaBeforeRulesAfter | internal/controller/swarmagent_controller.go:958-966 | for all texts: the deprecated persona comes before the base and the output rules after it |
| PromptFragments.HeadingsInOrder | internal/controller/swarmagent_controller.go:982-990 | the guidance has one heading for each server with instructions, in order, and no other |
| Cron.MostRecentSchedule | internal/controller/swarmevent_controller.go:530-549 | for every schedule: where the search would go on for ever it says so; otherwise it finds the greatest instant due in (max(last firing, now − 24h), now], or none exactly when none is due there |
| Cron.SearchEndsIff | internal/controller/swarmevent_controller.go:537-547 | the search ends if and only if the schedule has an instant left after now |
| Cron.ThirtiethOfFebruaryNeverEnds | internal/controller/swarmevent_controller.go:537-547 | for a schedule with no instant at all it ends at no time |
| Cron.RunsOut | internal/controller/swarmevent_controller.go:537-547 | for a schedule with one instant it ends exactly before that instant |
| Cron.LatestIsInside | internal/controller/swarmevent_controller.go:530-549 | what is found is a whole second not after now, and later than the lookback time unless the clock has gone back behind that |
| Cron.ReconcileCron | internal/controller/swarmevent_controller.go:154-184 | one reconcile is a step of the relation the firing properties are about: it stores what it did exactly if its search ends, its firing does not fail and its status is written |
| Cron.NoInstantFiresTwice | internal/controller/swarmevent_controller.go:160-175 | after a stored firing, whatever the clock does, every attempt is for a later instant |
| Cron.FiresAgainIff | internal/controller/swarmevent_controller.go:160-175 | an instant fired for that is still the latest due of the past day is fired for again if and only if no firing since, its own included, was stored at a time from it on |
| Cron.FiresAgainAtOnceIff | internal/controller/swarmevent_controller.go:110-126 | at the very next reconcile, if and only if the status write after it failed |
| Cron.FiredAnyNumberOfTimes | internal/controller/swarmevent_controller.go:110-126 | for every n, a run that fires for one instant n times while status writes fail |
| Cron.FiresIffWaiting | internal/controller/swarmevent_controller.go:160-175 | a reconcile attempts to fire if and only if its search ends and an instant of the past day later than the last stored firing is due, and then for the latest |
| Cron.NothingLeftWaiting | internal/controller/swarmevent_controller.go:160-175 | a stored reconcile leaves no instant waiting |
| Cron.StoredTimes | internal/controller/swarmevent_controller.go:160-184 | a stored reconcile stores the next instant after now, and if it has fired the current time in whole seconds and one firing more |
| Cron.FiredCounts | internal/controller/swarmevent_controller.go:164-175 | the stored count is that of the stored firings: runs created, and skipped because one was active, less those of reconciles that were not stored |
| DailyBudget.ReconcileDailyBudget | internal/controller/swarmagent_controller.go:1759-1848 | usage sums exactly the completed steps of the last 24 hours charged to the agent: resolved to it, or not resolved and its by role; the wake-up is a minute after the oldest has left; the one-hour fallback is never taken |
| DailyBudget.SpendsAreCharges | internal/controller/swarmagent_controller.go:1786-1806 | what counts for an agent is the usage of the completed steps resolved to it, and of those resolved to none whose role maps to it, each as often as there are such steps |
| DailyBudget.UsageSums | internal/controller/swarmagent_controller.go:1807-1809 | input, output and total tokens are each summed on their own |
| DailyBudget.VerdictMeans | internal/controller/swarmagent_controller.go:1813-1840 | the limit is exceeded if and only if it is positive and reached; usage is recorded unless there is none; the wake-up is a day and a minute after the oldest entry |
| DailyBudget.InWindowIff | internal/controller/swarmagent_controller.go:1803-1806 | a step is counted if and only if it completed no earlier than 24 hours ago |
| DailyBudget.WakeUpMakesProgress | internal/controller/swarmagent_controller.go:1831-1840 | the wake-up is at least a minute off and then finds strictly fewer entries, if none is new |
| DailyBudget.WakeUpIsNotLate | internal/controller/swarmagent_controller.go:1831-1840 | a minute before it every entry is still counted |
| DailyBudget.ClearsWithinEntries | internal/controller/swarmagent_controller.go:1759-1848 | with nothing new completing, the condition clears within as many wake-ups as entries were counted |
| Registries.Registry.RebuildKey | internal/registry/registry.go:42-63 | replaces one owner's entries by the sorted agents that have capabilities, and no other owner's |
| Registries.Registry.RemoveKey | internal/registry/registry.go:66-70 | removes one owner's entries and no other's |
| Registries.Registry.Candidates | internal/registry/registry.go:152-175 | after any history, the sorted names of exactly the agents indexed with the capability and all tags, whatever the order of buckets |
| CapabilityIndex.CandidateMeans | internal/registry/registry.go:152-191 | a candidate is an agent of any owner that has one capability of that name with all the tags |
| Strings.LeqByFirstDifference | internal/registry/registry.go:173 | sorted means by the first character that differs, a beginning before what goes on |
| Registries.Registry.Resolve | internal/registry/registry.go:80-97 | picks from that list by strategy |
| Registries.Registry.Snapshot | internal/registry/registry.go:100-139 | one line per capability anyone has, sorted, with exactly its agents and their tags |
| CapabilitySnapshot.InUseMeans | internal/registry/registry.go:100-139 | a line has a tag if and only if some agent has that capability with it |
| Registries.HasAllTags | internal/registry/registry.go:177-191 | every required tag is there |
| Registries.NoneIffNoneQualifies | internal/registry/registry.go:80-97 | the answer is "" if and only if no agent qualifies, and otherwise one that does |
| Registries.DefaultIsSmallest | internal/registry/registry.go:94-96 | by default it is the smallest name that qualifies |
| Registries.RandomDrawsAny | internal/registry/registry.go:87-90 | every candidate can be drawn at random, and no one else |
| Registries.RoundRobinIsFixed | internal/registry/registry.go:91-93 | the round-robin choice is at the hash's size modulo the number of candidates, whatever is drawn |
| Registries.OutOfRangeIff | internal/registry/registry.go:91-93 | the round-robin index is out of range if and only if the 64-bit hash is the least integer and the number of candidates does not divide it |
| Registries.OutOfRangeExample | internal/registry/registry.go:91-93 | a capability name and a number of candidates for which it is |
| Registries.SameCandidatesSameAnswer | internal/registry/registry.go:152-175 | only who qualifies matters, not buckets, their order or their owners |
| Registries.SnapshotAgrees | internal/registry/registry.go:100-139 | the snapshot lists an agent under a capability if and only if it is a candidate for it without tags |
| CapabilityIndex.OthersDoNotMatter | internal/registry/registry.go:42-70 | a key's agents depend only on the last change made to that key |
| CapabilityIndex.StableHash | internal/registry/registry.go:193-202 | the wrapping loop computes the 64-bit value of the string's base-31 digits, without its sign |
| CapabilityIndex.HashIsNegativeOnce | internal/registry/registry.go:193-202 | the hash is negative for exactly one 64-bit value |

## Left out

- SearchReconciler.Reconcile: a queue call that enqueues and then reports an error counts as not enqueued.
- SearchTrees.SearchTree.CheckConvergence: the 32-bit product of the minimum score and the increment of the iteration counter are unbounded; their schema limits keep them in range.
- SearchTrees.SearchTree.ApplyBatch: what a write through a pointer into an abandoned array does to that array is not kept, since nothing reads it again.
- SearchTrees.SearchTree.BeamPrune: nodes with equal scores may be cut in any order, as with the unstable library sort.
- SearchRuns.ReachableInv: the limits of a search stay the same over a run here; the run controller copies the team's search settings again at every reconcile of a run with no pipeline, routing or entry (internal/controller/swarmrun_controller.go:146-175), so a change to the team can change them under way.
- SearchRuns.SearchTerminates: needs an iteration limit, as does SearchRuns.GoodStepsBounded; SearchLimits.MustEndIff and SearchLimits.SearchEndsIff say exactly when a search must end, without giving the bound.
- EmitterRuns.AfterCloseAllSettled: says nothing about calls that race with Close; such a call can panic, which the protocol models.
- Emitters.Emitter.Loop: the sink's errors and timeouts, and a sink that keeps the reused batch slice, are not modelled; nor is Close giving up at its deadline.
- PolicyMerge.MergePolicies: enumerations are datatypes, so strings outside them, which the schema rejects, are not modelled.
- PolicyMerge.NamedPoliciesClash: takes policy names to be non-empty, as Kubernetes requires.
- PolicyClamp.ClampByMerge: takes daily ceilings to be at least 1 and no single policy to be at odds with itself, as the schema in api/v1alpha1/swarmpolicy_types.go demands.
- Pipelines.Reconcile: loop steps, routed and dynamic runs, templates, context policies, outputs and token usage are left out; conditions, inputs and budgets are inputs of the model. Tasks are taken to be on one queue, and an answer to be given at most once a poll, as the Redis queue does.
- Pipelines.Pipeline.UpdateRunPhase: the token limit is an input; clearing usage on a retry makes the sum something other than lifetime spend.
- PipelineTermination.PipelineTerminates: takes the ids the queue hands out to be non-empty, as does PipelineTermination.GoodStepsBounded; an empty id is a lost one, and its step is enqueued again.
- Cron.MostRecentSchedule: a schedule is taken to answer the zero time when no instant is left at all; the five years the cron library, which is not part of this model, looks ahead are not modelled.
- Cron.FiresIffWaiting: needs the schedule to stop at a fixed set of instants, as do Cron.FiresAgainIff and Cron.FiresAgainAtOnceIff; `@every` schedules, whose instants depend on the starting time, are covered by Cron.NoInstantFiresTwice.
- Cron.ReconcileCron: creating the runs of one firing is atomic here; if it fails half way, the runs already created are created again by the next firing.
- DailyBudget.SpendsAreCharges: takes the agent's name to be non-empty, as Kubernetes requires.
- DailyBudget.ReconcileDailyBudget: token sums do not wrap at 64 bits; notifications and conditions are left out.
- PromptFragments.ComposeFragments: which texts are blank is an arbitrary predicate.
- CapabilityIndex.StableHash: characters stand for the bytes of the string.
- Registries.Registry.Resolve: the random draw is an input; each operation runs under the registry's lock, so concurrency adds nothing.
- Registries.NoneIffNoneQualifies: takes agent names to be non-empty, as Kubernetes requires.
- Kubernetes reads and writes, finalizers, conditions, events, metrics and audit payloads; queue transports, LLM calls and parsing of planner output.
- HTTP servers, admission webhooks, deployments, scaling, network policies and generated code: input, output or data only.
- The policy controller's batching of agent updates, run pruning, replica arithmetic, tool names and the reasoning cascade: only easier members.
