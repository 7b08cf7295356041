# KubeTask: a verified model

KubeTask is a Kubernetes operator. A Task runs Jobs (once, delayed or on a cron schedule); a Workflow is a DAG of
nodes, each executed as a child Task; a dispatcher sends a notification for every finished execution; an HTTP handler
streams Pod logs as server-sent events to a browser. This project models the parts whose correctness is not visible
from any single function and proves what they promise.

| files | component | what is proved |
|---|---|---|
| `Names`, `DagTheory`, `Dag` | graph construction | Build accepts exactly the well-formed acyclic specs, names the first fault otherwise, and computes one canonical order and its layers, whatever the listing or map order |
| `Scheduler`, `ChildTasks`, `WorkflowObject`, `SchedulerInvariants`, `SchedulerRuns`, `SchedulerProgress`, `SchedulerLiveness`, `SchedulerLaws` | Workflow reconciler | every run agrees with one recursive denotation of the DAG; bounds, absence of deadlock, termination, idempotence, one-shot execution, and what each written status says |
| `TaskStatus`, `JobAccounting`, `OneTime`, `Cron`, `Causality`, `Cleanup` | Task reconciler, alone and with the Workflow reconciler | exact law of the Job counters, exactly when one-time and cron Tasks create a Job, exact condition of the cron firing bound, end-to-end order of Jobs, finalizer-ordered deletion and its end |
| `Dispatcher`, `DispatcherRuns`, `DispatcherTheorems`, `DispatcherOverflow`, `DispatcherExpiry`, `DispatcherRetries` | notification dispatcher | exclusion, exact bounds, conservation, order, exact pruning, exactly when an id is accepted, and the retry law in every interleaving |
| `Sse`, `SseGrammar`, `SseRoundTrip` | log streaming | lines and events as the grammar has them; printer and incremental parser agree under every chunking; exactly which lines survive |
| `SurfaceCache` | pixel-budget LRU cache | Map order is recency order; survivors are the longest fitting suffix |

## How the model is built

Code that updates things in place is a class or a method with loops (`Dag.Graph`, `Dag.Kahn`,
`WorkflowObject.Workflow`, `Dispatcher.DispatcherObject`, `TaskStatus.TaskObject`, `Cron.CronObject`, `Sse.Reader`,
`SurfaceCache.Cache`). Each such method is proved equal to a specification function or relation, and the theorems are
about those.

A reconcile reads a *context*: whether listing its children succeeds, the child Tasks it lists, and the answer the API
server gives to each create (created, already there and ours, already there and foreign, or failed, with or without
having taken effect). `ChildTasks` computes listing and answers from the labels and owners of the Tasks on the server. A *run* is any
sequence of steps in which reconciles, aborted reconciles, lost status writes, finishing, deleted and foreign Tasks
interleave. The API server is linearizable and reconciles of one object do not overlap; listing children returns the
child Tasks controlled by the Workflow. In `SchedulerRuns` the set `good` fixes which nodes succeed if they run;
`Den` is the reference meaning of a plan, a recursion over the DAG that knows nothing of the two passes of the
controller.

The dispatcher is a state machine over the atomic steps of the code: enqueue, take from the channel, check for
cancellation, mark as sending, one send attempt, give up, finish, leave, cancel and stop. Taking an event and marking
it are separate steps.

## Findings

* **Records after cancellation.** The record map is bounded by queue, workers and completed list, 128 + 2 + 4096, only
  until cancellation. A worker whose delivery was interrupted loops, may still receive another event because both cases
  of its `select` are ready, and leaves with it, so each worker can abandon two events. `RecordBoundExact` proves that
  the bound holds of all reachable states before cancellation and fails of some after it, where 128 + 4 + 4096 is the
  least bound; `FourAbandoned` is a run that reaches it.
* **Log lines with CR.** The scanner splits at LF and strips one CR before it, so a line may still contain a CR (a
  progress bar). Such a line does not survive: `RoundTripExact` proves that lines come back unchanged if and only if
  none contains CR or LF.
* **Job counters.** The history keeps ten records and is also the memory of what was counted. `CountersExact` gives the
  exact condition for correct counters, and `ElevenFinishedJobsRecount` proves that with more than ten finished Jobs
  listed every repeated sync raises the counters again.
* **Cron schedules that fall silent.** The schedule library reports the zero time when it finds no tick within its
  search horizon of five years, and `handleCron` treats that as due. `FiringBoundExact` proves that Jobs are bounded by
  ticks, triggers and lost status writes in every run if and only if from every instant since creation the library
  finds a further tick.
* **Validation retry.** `canRetryAfterValidationFailure` assumes that no child Task was ever created.
  `RetryIsCleanExact` proves that this is so if and only if no earlier reconcile created a child and then failed to
  write its status, by aborting or by losing the write. `LostCreateThenRetry` gives the run for either way.
* **Dirty flag.** `syncJobStatus` writes if and only if the status changes or a finished listed Job has another
  completion time than the one recorded before (`SyncJobStatus`). `UnchangedStatusWritten` is a status that every sync
  writes back as it was: two recorded Jobs completed at different times and overwrite each other's time.
* **Triggers.** A manual trigger of a cron Task takes effect if and only if a tick has passed since the
  creation, or the library finds none (`TriggerFiresExactly`, `EarlyTriggerIgnored`), and one of a one-time Task only
  once its Job is gone (`CreatesExactly` is the exact condition, `ListedJobsAreSynced` what happens instead).
* **Running again.** Without suspension and trigger a finished one-time Task never runs again (`FinishedNeverReruns`).
  Suspending and resuming replaces the outcome by Pending, so it runs again once its Job is gone (`ResumeReruns`). A
  trigger is compared with the last completion, which a failed Job does not have, so after a triggered run that fails
  the Task runs again every time the failed Job is gone (`FailedRerunRepeats`). `CreatesExactly` is the exact condition
  at each reconcile.

## Model

| member | source | states |
|---|---|---|
| Names.SortIsListing | internal/workflow/dag.go:148-160 | sorting a repetition-free list gives the one ascending listing of its set, so map iteration order leaves no trace |
| Names.BeforeIsLexicographic | internal/workflow/dag.go:148-160 | the order sorted by is lexicographic: at the first difference one name ends or has the smaller character |
| DagTheory.BatchIsLongestChain | internal/workflow/dag.go:163-178 | a node is in Kahn batch k exactly when its longest dependency chain has k edges |
| DagTheory.StuckIffCyclicAncestry | internal/workflow/dag.go:180-191 | the nodes never released are exactly those from which a dependency walk reaches a cycle; the cycle is extracted by pigeonhole |
| DagTheory.AcyclicIffAllDone | internal/workflow/dag.go:180-193 | everything is released exactly when no cycle exists |
| DagTheory.CanonicalOrderIsTopological | internal/workflow/dag.go:132-194 | the order is a permutation of the nodes with every dependency first |
| DagTheory.LayerIsLongestChain | internal/workflow/dag.go:196-204 | a node's level is the length of its longest dependency chain |
| DagTheory.FlattenLevels | internal/workflow/dag_test.go:245-248 | flattening the levels gives back the order |
| DagTheory.LevelsUnique | internal/workflow/dag.go:196-204 | a relation has only one list of canonical levels |
| Dag.Build | internal/workflow/dag.go:66-130 | succeeds iff the spec is well formed and acyclic; on success tasks, deps, order and levels are those of the spec; on failure the reason says what is wrong with the spec and is that of the first fault, tasks before dependencies before cycles, with the sorted set of nodes behind a cycle |
| Dag.WellFormedIffClean | internal/workflow/dag.go:76-122 | the step-by-step checks find nothing exactly when the declarative well-formedness of a spec holds |
| Dag.ReasonsMean | internal/workflow/dag.go:76-122 | every reported reason describes the spec (a repeated name, an unknown template, ...), and for the first bad task or dependency it is chosen in the documented order |
| Dag.LoadTasks | internal/workflow/dag.go:76-99 | loads every task, or returns the reason of the first bad one |
| Dag.LoadDependencies | internal/workflow/dag.go:101-122 | loads every dependency list, or returns the reason of the first bad dependency |
| Dag.Graph.ComputeOrder | internal/workflow/dag.go:133-194 | fails iff the relation is cyclic, naming the stuck nodes in order; otherwise the order is canonical |
| Dag.Kahn | internal/workflow/dag.go:133-194 | batched Kahn with in-degree counting computes the canonical order or reports exactly the nodes with a cycle in their ancestry |
| Dag.ReleaseBatch | internal/workflow/dag.go:163-178 | one round turns the sorted batch k into the sorted batch k + 1 and keeps each in-degree equal to the number of dependencies not yet released |
| Dag.ReverseEdges | internal/workflow/dag.go:140-150 | the reverse adjacency lists the users of every node, sorted |
| Dag.Graph.ComputeLevels | internal/workflow/dag.go:205-228 | the levels are the canonical ones |
| Dag.LongestPathLevels | internal/workflow/dag.go:205-228 | the longest-path programme agrees with the batches of Kahn's algorithm, layer by layer |
| Dag.LevelAfter | internal/workflow/dag.go:209-216 | one more than the highest level of the dependencies is the node's batch number |
| Dag.BuildIgnoresListing | internal/workflow/dag.go:101-122 | order and levels do not depend on declaration order or dependsOn order |
| Dag.ChildTaskNameInjective | internal/workflow/dag.go:260-266 | distinct nodes of a Workflow never share a child Task name |
| Dag.ValidateChildTaskNames | internal/workflow/dag.go:268-285 | reports exactly the child names over 46 characters, in order; passes iff there is none |
| Dag.TooLongFinds | internal/naming/naming.go:8-13 | a name is reported iff it belongs to a node and exceeds the limit |
| Dag.FittingNamesDerive | internal/naming/naming.go:8-13 | a child name fits iff the Pod name derived from it has at most 63 characters |
| Scheduler.DecideNode | internal/controller/workflow_controller.go:553-592 | the counting scan decides by the documented rule: runOnFailure waits for all and runs iff some dependency is blocked; normal nodes skip on the first blocked dependency and run iff all succeeded |
| ChildTasks.ListChildTasks | internal/controller/workflow_controller.go:475-495 | finds the selected Tasks this Workflow owns, and when owned Tasks carry its label, exactly the owned ones |
| ChildTasks.CreateChildTask | internal/controller/workflow_controller.go:497-534 | a child returned to the caller exists and is owned by this Workflow, a conflict is a foreign Task of that name, no other Task changes, labels stay in order, and without faults the answer is that of a linearizable server |
| WorkflowObject.Workflow.InitializeStatus | internal/controller/workflow_controller.go:263-313 | enters Running, lists nodes in topological order keeping existing ones, and reports a change iff the status changed |
| WorkflowObject.Workflow.SyncRunning | internal/controller/workflow_controller.go:336-364 | the in-place first pass equals its specification from any starting counters |
| WorkflowObject.Workflow.SchedulePending | internal/controller/workflow_controller.go:366-406 | the in-place second pass equals its specification |
| WorkflowObject.Workflow.AdvanceNodes | internal/controller/workflow_controller.go:318-409 | both passes; a failed listing or API error aborts without a write, a name conflict fails the Workflow |
| WorkflowObject.Workflow.Summarize | internal/controller/workflow_controller.go:412-445 | concludes only when every node is terminal, Failed with the list of failed nodes or Succeeded |
| WorkflowObject.Workflow.FailWorkflow | internal/controller/workflow_controller.go:663-676 | a final failure, reported as a change unless it was there already |
| WorkflowObject.Workflow.MarkFailed | internal/controller/workflow_controller.go:195-219 | writes a validation failure, but not twice for the same message and generation |
| WorkflowObject.Workflow.ReconcileSpec | internal/controller/workflow_controller.go:234-259 | one graph reconcile: final status, write decision, created children, abort |
| WorkflowObject.Workflow.CheckSpec | internal/controller/workflow_controller.go:121-129 | a plan of the spec iff it is well formed, acyclic and its child names fit; otherwise the reason of the first fault |
| WorkflowObject.Workflow.Reconcile | internal/controller/workflow_controller.go:102-132 | terminal short cut, validation retry, spec checks, failure and scheduling, as one effect on the status |
| SchedulerInvariants.BuiltPlanIsValid | internal/workflow/dag.go:124-129 | every graph that Build returns satisfies what the scheduler assumes: repetition-free, dependencies first |
| SchedulerInvariants.SyncStep | internal/controller/workflow_controller.go:336-364 | a first-pass step keeps phase map and running counter in agreement with the nodes, moves at most one node and only forward |
| SchedulerInvariants.ScheduleStep | internal/controller/workflow_controller.go:367-406 | a second-pass step does the same and raises the counter only below maxParallel |
| SchedulerInvariants.AdvanceKeeps | internal/controller/workflow_controller.go:326-406 | after both passes the counter is the number of Running nodes, phases moved only forward, and Running is at most the larger of before and maxParallel |
| SchedulerInvariants.MovesUseMeasure | internal/controller/workflow_controller.go:336-406 | 2·Pending + Running falls by at least one for every node phase change |
| SchedulerInvariants.DecisionJustified | internal/controller/workflow_controller.go:553-592 | skip and ready are right for every set of verdicts closed under the documented rule |
| SchedulerInvariants.AdvanceJustified | internal/controller/workflow_controller.go:318-409 | both passes only write justified phases and only create runnable children, whatever is observed |
| SchedulerInvariants.AdvanceHolds | internal/controller/workflow_controller.go:366-406 | after a completed advance every Pending node waits for a dependency or for a slot |
| SchedulerInvariants.NoDeadlock | internal/controller/workflow_controller.go:366-406 | if nothing is Running after a completed advance, everything is terminal |
| SchedulerRuns.DenClosed | internal/controller/workflow_controller.go:549-552 | the recursive denotation satisfies the documented rule at every node |
| SchedulerRuns.StepConfluent | internal/controller/workflow_controller.go:234-259 | every step of controller or environment keeps the status in agreement with the denotation |
| SchedulerRuns.RunConfluent | internal/controller/workflow_controller.go:318-445 | confluence: every reachable world of every run agrees with the denotation |
| SchedulerRuns.VerdictsAreDenoted | internal/controller/workflow_controller.go:366-406 | every terminal node phase is the denoted one, and a node denoted Skipped never has a child Task |
| SchedulerRuns.ConclusionIsDenoted | internal/controller/workflow_controller.go:412-445 | a concluded conflict-free Workflow succeeded iff the denotation has no Failed node, and every node has its denoted phase |
| SchedulerRuns.StepForward | internal/controller/workflow_controller.go:318-409 | in every run node phases only move forward |
| SchedulerRuns.TransitionBound | internal/controller/workflow_controller.go:318-409 | a run over N nodes writes at most 2N node transitions |
| SchedulerRuns.MaxParallelSafe | internal/controller/workflow_controller.go:379-382 | with maxParallel > 0 no reachable status has more Running nodes than that |
| SchedulerProgress.NeverStuck | internal/controller/workflow_controller.go:234-259 | whatever happens meanwhile, after a conflict-free reconcile the Workflow is concluded or some Running node has a child that was unfinished, or newly created, when last looked at |
| SchedulerProgress.NeverStuckUndisturbed | internal/controller/workflow_controller.go:234-259 | if nothing interferes, that child exists on the server and is unfinished |
| SchedulerProgress.OnePassFixpoint | internal/controller/workflow_controller.go:366-406 | after a completed reconcile every Pending node waits for an unfinished dependency earlier in the list, or is ready while no slot is free |
| SchedulerProgress.SecondReconcileIdle | internal/controller/workflow_controller.go:102-132 | after any completed reconcile, of any status and also of a rejected spec, a second one on unchanged children creates nothing and writes nothing |
| SchedulerProgress.LifeStepOneShot | internal/controller/workflow_controller.go:102-132 | under spec edits, aborts and lost writes a terminal Workflow keeps its status and children unless it failed with no nodes and a new generation |
| SchedulerProgress.RetryIsCleanExact | internal/controller/workflow_controller.go:683-689 | in every run a validation retry starts with no child ever created iff no earlier reconcile created a child and then failed to write its status |
| SchedulerProgress.OneShot | internal/controller/workflow_controller.go:101-117 | a concluded Workflow that listed its nodes is frozen for ever, whatever is edited, aborted or lost |
| SchedulerProgress.LostCreateThenRetry | internal/controller/workflow_controller.go:239-256 | a run in which a create precedes an abort, or a lost write, and then a validation retry |
| SchedulerLaws.OpenIsActedOn | internal/controller/workflow_controller.go:102-131 | a Workflow without a conclusion, or rejected with no nodes and edited since, is scheduled by its current spec (nodes listed, generation noted, old conclusion cleared) or failed with the reason of its rejection |
| SchedulerLaws.ClosedIsKept | internal/controller/workflow_controller.go:102-116 | any other concluded Workflow at most notes the new generation |
| SchedulerLaws.StatusIsStamped | internal/controller/workflow_controller.go:263-287 | in every life the completion time is set exactly while there is a conclusion, and the start time before any node is listed |
| SchedulerLaws.EditKeepsNodes | internal/controller/workflow_controller.go:289-310 | whatever the edit, listed nodes stay as they were, new ones are Pending, others go, in the order of the new plan |
| SchedulerLaws.StartedNodesAreNamed | internal/controller/workflow_controller.go:594-609 | in every run exactly the started nodes name their child Task |
| SchedulerLaws.SkipNamesFirst | internal/controller/workflow_controller.go:559-586 | a skipped normal node names the first dependency in its list that ended badly |
| SchedulerLaws.ConflictFails | internal/controller/workflow_controller.go:345-389 | a name conflict fails the Workflow with a message naming the child, and only happens when a Task of that name is somebody else's |
| SchedulerLaws.FailureIsExplained | internal/controller/workflow_controller.go:632-660 | a failed node carries its child's message, or names the child |
| SchedulerLaws.ConclusionListsFailed | internal/controller/workflow_controller.go:417-440 | the failed nodes are listed once each, in order, separated by commas |
| SchedulerLiveness.SyncPassMoves | internal/controller/workflow_controller.go:336-364 | a Running node whose child is listed finished is terminal after the first pass |
| SchedulerLiveness.ProductiveStep | internal/controller/workflow_controller.go:336-406 | a completed reconcile that finds nothing Running, or lists the finished child of some Running node, concludes the Workflow or uses up part of the measure, whatever else it reads |
| SchedulerLiveness.ConcludedIsFinal | internal/controller/workflow_controller.go:101-117 | in every run a concluded Workflow keeps its phase |
| SchedulerLiveness.Concludes | internal/controller/workflow_controller.go:318-445 | termination: more than 2N such reconciles, however parallel branches end and however interleaved with aborts, deletions and lost writes, conclude a Workflow of N nodes, with the denoted phases when conflict-free |
| TaskStatus.TaskObject.CountJob | internal/controller/task_controller.go:460-482 | counts a terminal Job iff the history has no terminal record of it, and keeps the index exact |
| TaskStatus.TaskObject.NoteCompletion | internal/controller/task_controller.go:484-490 | takes over a completion time and reports a change iff it differs |
| TaskStatus.TaskObject.VisitJobs | internal/controller/task_controller.go:452-491 | the in-place loop equals its specification, and is dirty iff a Job was counted or brings another completion time |
| TaskStatus.TaskObject.SyncJobStatus | internal/controller/task_controller.go:436-517 | the whole in-place sync equals its specification and writes iff the status changes or a finished listed Job has another completion time than the recorded one |
| TaskStatus.UnchangedStatusWritten | internal/controller/task_controller.go:484-490 | a status and a listing for which the sync writes the status it read |
| JobAccounting.VisitAllForm | internal/controller/task_controller.go:452-491 | closed form of the loop: the history gains exactly the unrecorded terminal Jobs, the counters their outcomes |
| JobAccounting.SyncBalances | internal/controller/task_controller.go:467-496 | one sync keeps: counter = distinct Jobs seen + repeated counts of Jobs dropped by the trim |
| JobAccounting.CountersExact | internal/controller/task_controller.go:467-496 | in every run of syncs and other status writes the counters equal the numbers of distinct Jobs seen Complete and Failed iff the trim never dropped a Job listed again; history has at most ten records, no Job twice |
| JobAccounting.PhaseOfTask | internal/controller/task_controller.go:549-563 | after a sync the Task is Running while a listed Job is unfinished, else Succeeded if any Job was ever seen Complete, else Failed if any was seen Failed, else Pending from the start and otherwise unchanged |
| JobAccounting.HistoryKeepsNewest | internal/controller/task_controller.go:493-496 | the history is the newest ten of the old records followed by the new ones |
| JobAccounting.SyncIdempotent | internal/controller/task_retry_test.go:102-104 | repeating a sync changes nothing iff every listed finished Job is among the last ten of the old and new records; otherwise it raises the counters |
| JobAccounting.ElevenFinishedJobsRecount | internal/controller/task_controller.go:493-496 | with more than ten finished Jobs listed a repeated sync always raises the counters |
| Cron.ConcurrencyAllowed | internal/controller/task_controller.go:392-430 | refuses iff some listed Job is active under Forbid; deletes exactly the active Jobs under Replace |
| Cron.CronObject.Handle | internal/controller/task_controller.go:235-264 | fails on a bad expression, waits for the next tick or a refusal, else creates one Job and stamps the schedule time |
| Cron.CronObject.Trigger | internal/api/handler/task_handler.go:247-260 | a manual trigger notes its time and clears the schedule time and the active Jobs |
| Cron.FiresExactly | internal/controller/task_controller.go:235-264 | a reconcile creates at most one Job, and one iff the expression is valid, a tick has passed since the stored schedule time or the creation, the policy allows it and the API server takes it |
| Cron.TriggerFiresExactly | internal/api/handler/task_handler.go:247-260 | after a trigger the next reconcile creates a Job iff some tick has passed since the creation |
| Cron.EarlyTriggerIgnored | internal/api/handler/task_handler.go:247-260 | a trigger before the first tick that creates no Job |
| OneTime.CreatesExactly | internal/controller/task_controller.go:208-222 | a one-time Task gets a Job iff it has none and has not finished, or its trigger is later than its last completion, or than its last start if it never completed |
| OneTime.ListedJobsAreSynced | internal/controller/task_controller.go:211-214 | while it has a Job, triggered or not, a reconcile only syncs: Running if a Job is unfinished, an outcome otherwise |
| OneTime.FinishedNeverReruns | internal/controller/task_controller.go:216-219 | in every run a finished Task that is neither triggered nor suspended never creates another Job, also when its Jobs are gone |
| OneTime.ResumeReruns | internal/controller/task_controller.go:80-88 | a run in which suspending and resuming a finished Task creates another Job |
| OneTime.FailedRerunRepeats | internal/controller/task_controller.go:565-592 | a run in which one trigger makes a Task run, fail, and run again once the failed Job is gone |
| Cron.StepBounded | internal/controller/task_controller.go:246-264 | with a schedule that keeps ticking every step keeps: Jobs plus unused trigger credit ≤ ticks up to the last stored firing plus triggers plus lost status writes |
| Cron.FiringBound | internal/controller/task_controller.go:224-264 | for a schedule that keeps ticking the Jobs created number at most ticks since creation plus triggers plus status writes lost after a create, whatever the pattern of reconciles, syncs, suspensions and refusals |
| Cron.FiringBoundExact | internal/controller/task_controller.go:246-263 | that bound holds in every run iff from every instant since creation the library finds a further tick within its horizon |
| Causality.PossibleClosed | internal/controller/workflow_controller.go:549-552 | the verdicts that finished Jobs justify satisfy the documented rule |
| Causality.PossibleGrows | internal/controller/workflow_controller.go:553-592 | what Jobs justified stays justified as more Jobs finish |
| Causality.SyncNeedsConditions | internal/controller/task_controller.go:519-533 | a Task becomes Succeeded or Failed in a sync only through a true Job condition |
| Causality.PodRetriesInvisible | internal/controller/task_controller.go:452-475 | listings that differ only in Pod counters lead to the same Task status |
| Causality.StepKeeps | internal/controller/task_controller.go:208-222 | every single effect of either controller, from reads of any age, and every step of the environment keeps Workflow and Task statuses justified by Job conditions |
| Causality.JobCausality | internal/controller/workflow_controller.go:373-403 | however the reads, creates and writes of both controllers interleave, a Job of a normal node is created only after every dependency had a Complete Job; of a runOnFailure node only after every dependency ended, at least one badly |
| Causality.DoneNeedsCondition | internal/controller/task_controller.go:521-533 | a node counts as done or broken only through a Job of its own that shows the condition |
| Cleanup.StepKeeps | internal/controller/task_controller.go:122-161 | every step of users, both controllers (with reconciles in flight) and the server keeps the finalizer invariant, for child Tasks and standalone Tasks |
| Cleanup.NothingOutlivesItsOwner | internal/controller/workflow_controller.go:148-188 | a Job exists only while its Task, of a Workflow or standalone, holds its finalizer, and a child Task only while the Workflow does; when the Workflow is gone so are its children and their Jobs |
| Cleanup.RemovedExactly | internal/controller/workflow_controller.go:173-185 | a cleaning reconcile removes the Workflow iff each child it listed is gone |
| Cleanup.TaskDeletionEnds | internal/controller/task_controller.go:144-160 | from every reachable state the deletion of a Task can be brought to its end, without Jobs left |
| Cleanup.WorkflowDeletionEnds | internal/controller/workflow_controller.go:148-188 | from every reachable state the deletion of a Workflow can be brought to its end, without children or their Jobs left |
| Cleanup.DeleteChildren | internal/controller/workflow_controller.go:156-171 | counts exactly the children not found gone, and fails iff a delete is refused |
| Dispatcher.DispatcherObject.Enqueue | internal/notification/dispatcher.go:79-101 | accepts iff not stopped, the id unrecorded after pruning and the queue not full; changes nothing else |
| Dispatcher.DispatcherObject.Prune | internal/notification/dispatcher.go:104-113 | the in-place front scan equals its specification |
| Dispatcher.DispatcherObject.Finish | internal/notification/dispatcher.go:115-125 | evicts to below capacity, closes the record and lists it last |
| Dispatcher.CountUnfinished | internal/notification/dispatcher.go:156-164 | the number logged at stop is the size of the set of unfinished records |
| Dispatcher.Deliver | internal/notification/dispatcher.go:167-205 | at most maxRetries + 1 sends of one body; Exhausted iff all attempts failed retryably, Rejected iff encoding or the last attempt failed finally, Delivered iff an attempt got through; the waits are those between the sends |
| Dispatcher.RetryDelayIsCappedPower | internal/notification/webhook.go:72-75 | the int64 shift is 2^retry seconds capped at 30, up to the retry count where it would overflow |
| Dispatcher.BackoffBound | internal/config/config.go:236-238 | with the permitted at most five retries all waits together take at most 31 seconds |
| DispatcherRuns.StepKeeps | internal/notification/dispatcher.go:127-165 | every atomic step keeps the invariant: each recorded id is in exactly one place, states match places, lists are bounded and oldest first |
| DispatcherTheorems.Exclusion | internal/notification/dispatcher.go:79-101 | in every interleaving no id is queued twice, held by two workers, or both queued and held |
| DispatcherTheorems.AcceptsAreSeparated | internal/notification/dispatcher.go:86-94 | two accepted enqueues of one id are separated by the eviction of its record |
| DispatcherExpiry.FinishedIdReturns | internal/notification/dispatcher.go:79-125 | in every run an id that finished and was not accepted since is accepted iff the dispatcher is not stopped, fewer than 128 are queued, and 86400 seconds have passed or 4096 later events have finished |
| DispatcherExpiry.AcceptsAreADayApart | internal/notification/dispatcher.go:14-18 | two accepts of an id that finished in between are a day apart unless 4096 later events have finished |
| DispatcherExpiry.NewIdAccepted | internal/notification/dispatcher.go:79-101 | an id never accepted before is accepted iff the dispatcher is not stopped and fewer than 128 are queued |
| DispatcherExpiry.OpenIdRefused | internal/notification/dispatcher.go:86-89 | an id that is queued or held is refused |
| DispatcherExpiry.FirstInFirstOut | internal/notification/dispatcher.go:90-139 | events are taken in the order in which they were accepted, unchanged and none left out |
| DispatcherTheorems.Bounds | internal/notification/dispatcher.go:14-24 | queue ≤ 128, completed ≤ 4096, records ≤ 128 + 2 + 4096 until cancellation and ≤ 128 + 4 + 4096 always |
| DispatcherOverflow.FourAbandoned | internal/notification/dispatcher.go:132-147 | a run with a full completed list and a full queue in which two workers abandon four events: 128 + 4 + 4096 records |
| DispatcherOverflow.RecordBoundExact | internal/notification/dispatcher.go:14-24 | 128 + 2 + 4096 records bound all reachable states before cancellation and not all after it; there the least bound is 128 + 4 + 4096 |
| DispatcherRetries.RetryLaw | internal/notification/dispatcher.go:167-205 | in every run each worker makes at most maxRetries + 1 sends of one event, and ends it Exhausted, Rejected or Delivered iff the results say so |
| DispatcherRetries.RunEndsAsLoop | internal/notification/dispatcher.go:177-204 | what a worker of a run reports is what the delivery loop returns for the results it saw |
| DispatcherTheorems.Conservation | internal/notification/dispatcher.go:156-164 | accepted enqueues = finished events + the unfinished count logged at stop, at every step |
| DispatcherTheorems.OnlyCompletedEvicted | internal/notification/dispatcher.go:103-125 | only completed records are ever removed |
| DispatcherTheorems.PruneIsFilter | internal/notification/dispatcher.go:104-113 | on an oldest-first list the front scan removes exactly what filtering the whole list by age removes |
| DispatcherTheorems.PruneIsExact | internal/notification/dispatcher.go:104-113 | with a non-decreasing clock that is so in every reachable state |
| Sse.PrintLines | internal/api/handler/log_handler.go:120-133 | prints one event per line up to the first failed write |
| Sse.Reader.Line | web/src/api/logs.js:50-63 | the effect of one line on data, event and delivered messages |
| Sse.Reader.Drain | web/src/api/logs.js:65-77 | one scan hands over exactly the complete lines of the buffer and keeps the rest, holding back a trailing CR |
| Sse.Reader.ReadAll | web/src/api/logs.js:79-87 | the delivered messages depend only on the concatenated text, and the loop is the fold over its chunks |
| Sse.LinesInTwo | web/src/api/logs.js:65-77 | the lines of a prefix, then of its remainder with the rest, are the lines of the whole, also when CRLF straddles the cut |
| Sse.ChunkingIrrelevant | web/src/api/logs.js:79-87 | folding over any chunks gives the lines of the whole text |
| SseGrammar.LinesAreSplit | web/src/api/logs.js:65-77 | the lines of a text are those between LFs once every CRLF and every other CR counts as one LF |
| SseGrammar.EndingsIrrelevant | web/src/api/logs.js:65-77 | streams that differ only in LF, CR or CRLF as line ends carry the same messages |
| SseGrammar.RowsComeBack | web/src/api/logs.js:65-77 | plain lines written with any mixture of endings come back, unless an empty LF line follows a CR line |
| SseGrammar.EventsComeBack | web/src/api/logs.js:50-63 | written events with comments, names and several data lines deliver exactly the messages of the unnamed ones and those named message, their lines joined by LF, in order |
| SseGrammar.CrLfEvent | web/tests/authentication.test.js:99-100 | an event of two data lines with CRLF endings delivers them as one message |
| SseRoundTrip.RoundTripExact | internal/api/handler/log_handler.go:120-129 | printed lines come back unchanged iff none contains CR or LF |
| SseRoundTrip.RoundTripChunked | web/src/api/logs.js:41-92 | for every chunking of the printed stream the fold that ReadAll computes delivers exactly the lines |
| SseRoundTrip.CarriageReturnTruncates | internal/api/handler/log_handler.go:122-124 | a concrete line with CR that does not come back |
| SseRoundTrip.UnterminatedEventDropped | web/src/api/logs.js:86 | after any text that ends its last line, a trailing event without its blank line delivers nothing |
| SurfaceCache.Cache.Get | web/src/components/surface-cache.js:11-18 | returns the entry of the key iff there is one and moves it to the newest end; pixels stays the sum of the entries |
| SurfaceCache.Cache.Set | web/src/components/surface-cache.js:19-29 | replaces or adds as newest, then evicts from the oldest end; pixels stays the sum |
| SurfaceCache.Cache.Clear | web/src/components/surface-cache.js:30-33 | empties the cache and brings pixels back to zero |
| SurfaceCache.EvictionKeepsLongestSuffix | web/src/components/surface-cache.js:24-28 | the survivors are the longest suffix that fits the budget, or the newest entry alone |
| SurfaceCache.MapOrderIsRecency | web/src/components/surface-cache.js:11-29 | after any history Map order is the order of last use |
| SurfaceCache.SetKeepsMostRecent | web/src/components/surface-cache.js:19-29 | after a set the survivors are the most recently used entries that fit, the new one last |

## Left out

- HTTP routing, authentication, authorisation, audit, configuration loading, Helm and Kustomize manifests, front-end components: plumbing with little logic of its own.
- SMTP, HTTP and TLS transport, templates and MIME encoding, enrichment of events: a send is a nondeterministic attempt result, encoding succeeds or fails as a parameter.
- Informer caches, resourceVersion conflicts and leader election: reads are linearizable, one reconcile per object at a time.
- Timestamps and log text: of the Workflow and node times only presence at the Workflow level is kept; messages appear where a decision reads them.
- Text of validation errors: the reason and the names listed by the cycle report are modelled, the sentence around them is not.
- Names are sequences of characters ordered by code; Go compares and measures UTF-8 bytes, which is the same on the ASCII names that Kubernetes admits.
- The contents of a TaskSpec and `childTaskSpec`: carried through unchanged.
- `handleDelay` and `handleNameTooLong` are not modelled; suspension and resumption are steps that set the phase; the Jobs that the Replace policy deletes are named but their removal is an environment step.
- Live child Tasks after aborted reconciles: the bound of `MaxParallelSafe` is about Running nodes in status, which is what the code counts.
- Scanner limits and read errors of the log stream, the abort signal and the incremental text decoder: the printer gets lines, the reader gets decoded chunks.
- The canvases that the cache releases: an entry is a key with its pixel count, and keys are names.
- Parsing of cron expressions is not part of this model: a schedule is a set of instants in seconds with a search horizon that never moves back.
- JobAccounting.CountersExact: a Job counts as seen in a sync whose status was written; assumes that a finished Job keeps its outcome and that Job names within one Task are not reused, as Kubernetes and the time stamp in the name provide.
- Causality.JobCausality: child Tasks are identified by their node, and they are one-time Tasks (which is what a Workflow creates).
- WorkflowObject.Workflow.Reconcile: reads of the Workflow itself, its finalizer and its deletion are in `Cleanup`, not here.
- Cleanup.WorkflowDeletionEnds: says that the controllers can finish, not that their work queue schedules them.
- Cleanup.NothingOutlivesItsOwner: assumes successful listings and unchanged labels and owner references; a create is atomic.
- SchedulerLiveness.Concludes: counts completed reconciles that find nothing Running or list a finished child of some Running node; that Jobs finish and reconciles happen is an assumption about the environment.
- Dispatcher.RetryDelayIsCappedPower: says nothing beyond 33 retries, where the shift overflows; the configuration permits five.
