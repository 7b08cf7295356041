/** The Workflow reconciler (internal/controller/workflow_controller.go) as a function of what it observes. */
module Scheduler {
  import opened Names
  import Dag

  datatype NodePhase = Unset | Pending | Running | Succeeded | Failed | Skipped

  datatype NodeStatus = NodeStatus(name: Name, phase: NodePhase, taskName: Name, message: string)

  datatype WorkflowPhase = WfUnset | WfPending | WfRunning | WfSucceeded | WfFailed

  /** status of a Workflow; of the timestamps only their presence is kept. */
  datatype Status = Status(
    phase: WorkflowPhase, message: string, started: bool, completed: bool,
    observedGeneration: int, nodes: seq<NodeStatus>)

  datatype TaskPhase = TaskUnset | TaskPending | TaskRunning | TaskSucceeded | TaskFailed | TaskSuspended

  /** What the reconciler reads off a child Task. */
  datatype TaskView = TaskView(phase: TaskPhase, message: string)

  const FRESH_TASK := TaskView(TaskUnset, "")

  /** A validated graph as the scheduler uses it. */
  datatype Plan = Plan(order: seq<Name>, deps: map<Name, seq<Name>>, runOnFailure: set<Name>, maxParallel: int)

  function DepsOf(plan: Plan, n: Name): seq<Name> {
    Dag.Lookup(plan.deps, n)
  }

  /** How the API server answers the creation of a child Task. */
  datatype CreateAnswer =
    | Created
    | Adopted(task: TaskView)        // exists already and is controlled by this Workflow
    | Conflict                       // exists and belongs to someone else
    | ApiError(applied: bool)        // the request failed; it may nevertheless have taken effect

  /** Everything one reconcile reads: its name, the graph, whether listing its children succeeded, the listed
      children and the answers to its creates. */
  datatype Context = Context(
    workflow: Name, plan: Plan, listed: bool, children: map<Name, TaskView>, answers: map<Name, CreateAnswer>)

  function ChildOf(ctx: Context, node: Name): Name {
    Dag.ChildTaskName(ctx.workflow, node)
  }

  function AnswerFor(ctx: Context, child: Name): CreateAnswer {
    if child in ctx.answers then ctx.answers[child] else ApiError(false)
  }

  predicate IsTerminal(p: NodePhase) {
    p.Succeeded? || p.Failed? || p.Skipped?
  }

  predicate IsWorkflowTerminal(p: WorkflowPhase) {
    p.WfSucceeded? || p.WfFailed?
  }

  // ---- deciding a Pending node ---------------------------------------------------

  datatype Action = Wait | Ready | Skip(reason: string)

  function PhaseIn(phases: map<Name, NodePhase>, n: Name): NodePhase {
    if n in phases then phases[n] else Unset
  }

  predicate Blocked(p: NodePhase) {
    p.Failed? || p.Skipped?
  }

  function FirstBlocked(deps: seq<Name>, phases: map<Name, NodePhase>): Dag.Option<Name> {
    if deps == [] then Dag.None
    else if Blocked(PhaseIn(phases, deps[0])) then Dag.Some(deps[0])
    else FirstBlocked(deps[1..], phases)
  }

  predicate SomeBlocked(deps: seq<Name>, phases: map<Name, NodePhase>) {
    exists d :: d in deps && Blocked(PhaseIn(phases, d))
  }

  predicate SomeUnfinished(deps: seq<Name>, phases: map<Name, NodePhase>) {
    exists d :: d in deps && !IsTerminal(PhaseIn(phases, d))
  }

  function Decide(plan: Plan, phases: map<Name, NodePhase>, n: Name): Action {
    var deps := DepsOf(plan, n);
    if n in plan.runOnFailure then
      if SomeUnfinished(deps, phases) then Wait
      else if !SomeBlocked(deps, phases) then Skip("all dependencies succeeded")
      else Ready
    else
      if SomeBlocked(deps, phases) then Skip(BlockedReason(FirstBlocked(deps, phases)))
      else if SomeUnfinished(deps, phases) then Wait
      else Ready
  }

  function BlockedReason(dep: Dag.Option<Name>): string {
    if dep.Some? then "dependency \"" + dep.value.text + "\" did not succeed" else ""
  }

  lemma {:induction false} FirstBlockedFinds(deps: seq<Name>, phases: map<Name, NodePhase>)
    ensures FirstBlocked(deps, phases).Some? <==> SomeBlocked(deps, phases)
  {
    if deps != [] {
      FirstBlockedFinds(deps[1..], phases);
      if SomeBlocked(deps, phases) && !Blocked(PhaseIn(phases, deps[0])) {
        var d :| d in deps && Blocked(PhaseIn(phases, d));
        assert d in deps[1..];
      }
    }
  }

  lemma {:induction false} FirstBlockedAppend(deps: seq<Name>, d: Name, phases: map<Name, NodePhase>)
    ensures FirstBlocked(deps + [d], phases) ==
            if FirstBlocked(deps, phases).Some? then FirstBlocked(deps, phases)
            else if Blocked(PhaseIn(phases, d)) then Dag.Some(d) else Dag.None
  {
    if deps != [] {
      assert (deps + [d])[1..] == deps[1..] + [d];
      FirstBlockedAppend(deps[1..], d, phases);
    }
  }

  /** decideNode: one scan that remembers the first blocked dependency and counts the unfinished ones. */
  method DecideNode(plan: Plan, phases: map<Name, NodePhase>, n: Name) returns (action: Action)
    ensures action == Decide(plan, phases, n)
  {
    var deps := DepsOf(plan, n);
    var blockedBy: Dag.Option<Name> := Dag.None;
    var waiting := 0;
    for j := 0 to |deps|
      invariant blockedBy == FirstBlocked(deps[..j], phases)
      invariant waiting >= 0 && (waiting > 0 <==> SomeUnfinished(deps[..j], phases))
    {
      var dep := deps[j];
      assert deps[..j + 1] == deps[..j] + [dep];
      FirstBlockedAppend(deps[..j], dep, phases);
      match PhaseIn(phases, dep) {
        case Succeeded =>
        case Failed | Skipped =>
          if blockedBy.None? {
            blockedBy := Dag.Some(dep);
          }
        case _ =>
          assert dep in deps[..j + 1];
          waiting := waiting + 1;
      }
    }
    assert deps[..|deps|] == deps;
    FirstBlockedFinds(deps, phases);
    if n in plan.runOnFailure {
      if waiting > 0 {
        return Wait;
      }
      if blockedBy.None? {
        return Skip("all dependencies succeeded");
      }
      return Ready;
    }
    if blockedBy.Some? {
      return Skip(BlockedReason(blockedBy));
    }
    if waiting > 0 {
      return Wait;
    }
    return Ready;
  }

  // ---- node updates -----------------------------------------------------------------

  function FailureMessage(child: Name, task: TaskView): string {
    if task.message != "" then task.message else "task " + child.text + " failed"
  }

  /** syncNodeFromTask: the new node, and whether it changed. */
  function Synced(node: NodeStatus, child: Name, task: TaskView): (NodeStatus, bool) {
    match task.phase
    case TaskSucceeded =>
      if node.phase.Succeeded? then (node, false)
      else (node.(phase := Succeeded, message := ""), true)
    case TaskFailed =>
      var message := FailureMessage(child, task);
      if node.phase.Failed? && node.message == message then (node, false)
      else (node.(phase := Failed, message := message), true)
    case _ => (node, false)
  }

  function Started(node: NodeStatus, child: Name): NodeStatus {
    node.(phase := Running, taskName := child, message := "")
  }

  function SkippedNode(node: NodeStatus, reason: string): NodeStatus {
    node.(phase := Skipped, message := reason)
  }

  // ---- the two passes -----------------------------------------------------------------

  datatype Halt = Going | NameConflict(child: Name) | Aborted

  /** Local state of advanceNodes: node list, phase map, running counter and the creates that took effect. */
  datatype Progress = Progress(
    nodes: seq<NodeStatus>, phases: map<Name, NodePhase>, running: int, changed: bool,
    created: seq<Name>, halt: Halt)

  function SetNode(p: Progress, i: nat, node: NodeStatus, running: int): Progress
    requires i < |p.nodes|
  {
    p.(nodes := p.nodes[i := node], phases := p.phases[node.name := node.phase], running := running, changed := true)
  }

  /** First pass, one Running node: write back the child's phase, or create a missing child again. */
  function SyncAt(ctx: Context, p: Progress, i: nat): Progress
    requires i < |p.nodes|
  {
    var node := p.nodes[i];
    var child := ChildOf(ctx, node.name);
    if !node.phase.Running? then p
    else if child !in ctx.children then
      match AnswerFor(ctx, child)
      case Created => p.(created := p.created + [node.name])
      case Adopted(_) => p
      case Conflict => p.(halt := NameConflict(child))
      case ApiError(applied) => p.(halt := Aborted, created := if applied then p.created + [node.name] else p.created)
    else
      var (next, changed) := Synced(node, child, ctx.children[child]);
      if changed then SetNode(p, i, next, if next.phase.Running? then p.running else p.running - 1) else p
  }

  function SyncPass(ctx: Context, p: Progress, i: nat): Progress
    decreases |p.nodes| - i
  {
    if p.halt.Going? && i < |p.nodes| then SyncPass(ctx, SyncAt(ctx, p, i), i + 1) else p
  }

  predicate NoSlot(plan: Plan, running: int) {
    plan.maxParallel > 0 && running >= plan.maxParallel
  }

  /** Node i starts with the given child Task, which may already have finished. */
  function StartAt(ctx: Context, p: Progress, i: nat, task: TaskView): Progress
    requires i < |p.nodes|
  {
    var child := ChildOf(ctx, p.nodes[i].name);
    var (next, finished) := Synced(Started(p.nodes[i], child), child, task);
    SetNode(p, i, next, if finished then p.running else p.running + 1)
  }

  /** Second pass, one Pending node: skip it, start it, or leave it. */
  function ScheduleAt(ctx: Context, p: Progress, i: nat): Progress
    requires i < |p.nodes|
  {
    var node := p.nodes[i];
    if !node.phase.Pending? then p
    else
      match Decide(ctx.plan, p.phases, node.name)
      case Wait => p
      case Skip(reason) => SetNode(p, i, SkippedNode(node, reason), p.running)
      case Ready =>
        if NoSlot(ctx.plan, p.running) then p
        else
          var child := ChildOf(ctx, node.name);
          match AnswerFor(ctx, child)
          case Created => StartAt(ctx, p, i, FRESH_TASK).(created := p.created + [node.name])
          case Adopted(task) => StartAt(ctx, p, i, task)
          case Conflict => p.(halt := NameConflict(child))
          case ApiError(applied) => p.(halt := Aborted, created := if applied then p.created + [node.name] else p.created)
  }

  function SchedulePass(ctx: Context, p: Progress, i: nat): Progress
    decreases |p.nodes| - i
  {
    if p.halt.Going? && i < |p.nodes| then SchedulePass(ctx, ScheduleAt(ctx, p, i), i + 1) else p
  }

  function PhaseMap(nodes: seq<NodeStatus>): map<Name, NodePhase> {
    if nodes == [] then map[]
    else var n := |nodes| - 1; PhaseMap(nodes[..n])[nodes[n].name := nodes[n].phase]
  }

  function IsRunning(p: NodePhase): nat {
    if p.Running? then 1 else 0
  }

  /** Sum of a weight over the node phases. */
  function Total(nodes: seq<NodeStatus>, weight: NodePhase -> nat): nat {
    if nodes == [] then 0
    else var n := |nodes| - 1; Total(nodes[..n], weight) + weight(nodes[n].phase)
  }

  /** A failed listing of the children aborts before the first pass. */
  function Begin(ctx: Context, nodes: seq<NodeStatus>): Progress {
    Progress(nodes, PhaseMap(nodes), Total(nodes, IsRunning), false, [], if ctx.listed then Going else Aborted)
  }

  function Advance(ctx: Context, nodes: seq<NodeStatus>): Progress {
    SchedulePass(ctx, SyncPass(ctx, Begin(ctx, nodes), 0), 0)
  }

  // ---- status as a whole -----------------------------------------------------------------

  function ExistingNodes(nodes: seq<NodeStatus>): map<Name, NodeStatus> {
    if nodes == [] then map[]
    else var n := |nodes| - 1; ExistingNodes(nodes[..n])[nodes[n].name := nodes[n]]
  }

  function InitialNode(existing: map<Name, NodeStatus>, n: Name): NodeStatus {
    if n !in existing then NodeStatus(n, Pending, Name(""), "")
    else if existing[n].phase.Unset? then existing[n].(phase := Pending)
    else existing[n]
  }

  function InitialNodes(existing: map<Name, NodeStatus>, order: seq<Name>): seq<NodeStatus> {
    seq(|order|, i requires 0 <= i < |order| => InitialNode(existing, order[i]))
  }

  function Initialized(s: Status, generation: int, order: seq<Name>): Status {
    var entering := !s.phase.WfRunning?;
    Status(WfRunning, if entering then "" else s.message, true, if entering then false else s.completed,
           generation, InitialNodes(ExistingNodes(s.nodes), order))
  }

  function FailedNames(nodes: seq<NodeStatus>): seq<Name> {
    if nodes == [] then []
    else
      var n := |nodes| - 1;
      FailedNames(nodes[..n]) + if nodes[n].phase.Failed? then [nodes[n].name] else []
  }

  predicate AllTerminal(nodes: seq<NodeStatus>) {
    forall i :: 0 <= i < |nodes| ==> IsTerminal(nodes[i].phase)
  }

  function Join(names: seq<Name>): string {
    if names == [] then ""
    else if |names| == 1 then names[0].text
    else names[0].text + ", " + Join(names[1..])
  }

  function Summarized(s: Status): Status {
    if IsWorkflowTerminal(s.phase) || !AllTerminal(s.nodes) then s
    else if FailedNames(s.nodes) != [] then
      s.(phase := WfFailed, message := "nodes failed: " + Join(FailedNames(s.nodes)), completed := true)
    else s.(phase := WfSucceeded, message := "", completed := true)
  }

  function ConflictMessage(workflow: Name, child: Name): string {
    "child task name conflict: task \"" + child.text + "\" already exists and is not controlled by workflow \""
    + workflow.text + "\""
  }

  function FailedStatus(s: Status, message: string): Status {
    if s.phase.WfFailed? && s.message == message then s
    else s.(phase := WfFailed, message := message, completed := true)
  }

  /** The effect of a reconcile: the status it would write, whether it writes, what it created. */
  datatype Effect = Effect(status: Status, write: bool, created: seq<Name>, halt: Halt)

  /** The status before summarize. */
  function Advanced(ctx: Context, s: Status, p: Progress): Status {
    if p.halt.NameConflict? then FailedStatus(s.(nodes := p.nodes), ConflictMessage(ctx.workflow, p.halt.child))
    else s.(nodes := p.nodes)
  }

  function ReconcileGraph(ctx: Context, s: Status, generation: int): Effect {
    var init := Initialized(s, generation, ctx.plan.order);
    var p := Advance(ctx, init.nodes);
    if p.halt.Aborted? then Effect(s, false, p.created, p.halt)
    else
      var advanced := Advanced(ctx, init, p);
      var final := Summarized(advanced);
      Effect(final, init != s || p.changed || advanced.phase != init.phase || final.phase != advanced.phase,
             p.created, p.halt)
  }

  predicate CanRetryAfterValidationFailure(s: Status) {
    s.phase.WfFailed? && s.nodes == []
  }

  datatype BuildResult = Invalid(message: string) | Valid(plan: Plan)

  function MarkedFailed(s: Status, generation: int, message: string): Status {
    s.(phase := WfFailed, message := message, completed := true, observedGeneration := generation)
  }

  /** One reconcile of a Workflow that holds its finalizer and is not being deleted. */
  function Reconcile(ctx: Context, s: Status, generation: int, build: BuildResult): Effect {
    if IsWorkflowTerminal(s.phase) && s.observedGeneration == generation then Effect(s, false, [], Going)
    else if IsWorkflowTerminal(s.phase) && !CanRetryAfterValidationFailure(s) then
      Effect(s.(observedGeneration := generation), true, [], Going)
    else
      match build
      case Invalid(message) =>
        if s.phase.WfFailed? && s.message == message && s.observedGeneration == generation
        then Effect(s, false, [], Going)
        else Effect(MarkedFailed(s, generation, message), true, [], Going)
      case Valid(plan) => ReconcileGraph(ctx.(plan := plan), s, generation)
  }
}
