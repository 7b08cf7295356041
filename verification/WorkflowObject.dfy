/** The Workflow object as the reconciler updates it in place. */
module WorkflowObject {
  import opened Names
  import opened Scheduler
  import Dag
  import DagTheory
  import SchedulerInvariants

  class Workflow {
    const name: Name
    var generation: int
    var phase: WorkflowPhase
    var message: string
    var started: bool
    var completed: bool
    var observedGeneration: int
    var nodes: seq<NodeStatus>

    constructor (name: Name, generation: int, s: Status)
      ensures View() == s && this.name == name && this.generation == generation
    {
      this.name, this.generation := name, generation;
      phase, message, started, completed := s.phase, s.message, s.started, s.completed;
      observedGeneration, nodes := s.observedGeneration, s.nodes;
    }

    function View(): Status
      reads this
    {
      Status(phase, message, started, completed, observedGeneration, nodes)
    }

    /** Enter Running, record generation and start, and list the nodes in topological order. */
    method InitializeStatus(order: seq<Name>) returns (changed: bool)
      modifies this
      ensures View() == Initialized(old(View()), generation, order)
      ensures changed <==> View() != old(View())
      ensures generation == old(generation)
    {
      changed := false;
      if !phase.WfRunning? {
        phase, message, completed := WfRunning, "", false;
        changed := true;
      }
      if !started {
        started := true;
        changed := true;
      }
      if observedGeneration != generation {
        observedGeneration := generation;
        changed := true;
      }
      var existing: map<Name, NodeStatus> := map[];
      for i := 0 to |nodes|
        invariant existing == ExistingNodes(nodes[..i])
      {
        assert nodes[..i + 1][..i] == nodes[..i];
        existing := existing[nodes[i].name := nodes[i]];
      }
      assert nodes[..|nodes|] == nodes;
      var listed: seq<NodeStatus> := [];
      for i := 0 to |order|
        invariant listed == InitialNodes(existing, order[..i])
      {
        var name := order[i];
        if name !in existing {
          listed := listed + [NodeStatus(name, Pending, Name(""), "")];
        } else if existing[name].phase.Unset? {
          listed := listed + [existing[name].(phase := Pending)];
        } else {
          listed := listed + [existing[name]];
        }
      }
      assert order[..|order|] == order;
      if listed != nodes {
        nodes := listed;
        changed := true;
      }
    }

    method CountPhases() returns (phases: map<Name, NodePhase>, running: int)
      ensures phases == PhaseMap(nodes) && running == Total(nodes, IsRunning)
    {
      phases, running := map[], 0;
      for i := 0 to |nodes|
        invariant phases == PhaseMap(nodes[..i]) && running == Total(nodes[..i], IsRunning)
      {
        assert nodes[..i + 1][..i] == nodes[..i];
        phases := phases[nodes[i].name := nodes[i].phase];
        if nodes[i].phase.Running? {
          running := running + 1;
        }
      }
      assert nodes[..|nodes|] == nodes;
    }

    /** createChildTask, given how the API server answers; ChildTasks.CreateChildTask computes that answer. */
    method CreateChild(ctx: Context, node: Name, before: seq<Name>)
      returns (task: TaskView, created: seq<Name>, halt: Halt)
      requires ctx.workflow == name
      ensures match AnswerFor(ctx, ChildOf(ctx, node))
              case Created => task == FRESH_TASK && created == before + [node] && halt.Going?
              case Adopted(existing) => task == existing && created == before && halt.Going?
              case Conflict => created == before && halt == NameConflict(ChildOf(ctx, node))
              case ApiError(applied) => created == (if applied then before + [node] else before) && halt.Aborted?
    {
      task, created, halt := FRESH_TASK, before, Going;
      var child := Dag.ChildTaskName(name, node);
      match AnswerFor(ctx, child) {
        case Created => created := created + [node];
        case Adopted(existing) => task := existing;
        case Conflict => halt := NameConflict(child);
        case ApiError(applied) =>
          halt := Aborted;
          if applied {
            created := created + [node];
          }
      }
    }

    /** First pass over the Running nodes. */
    method SyncRunning(ctx: Context, start: Progress) returns (p: Progress)
      requires ctx.workflow == name && start.nodes == nodes && start.halt.Going?
      modifies this`nodes
      ensures p == SyncPass(ctx, start, 0) && nodes == p.nodes
    {
      var phases, running, changed, created := start.phases, start.running, start.changed, start.created;
      var i := 0;
      while i < |nodes|
        invariant 0 <= i <= |nodes| == |start.nodes|
        invariant SyncPass(ctx, Progress(nodes, phases, running, changed, created, Going), i) == SyncPass(ctx, start, 0)
      {
        var node := nodes[i];
        if node.phase.Running? {
          var child := Dag.ChildTaskName(name, node.name);
          if child !in ctx.children {
            var again, halt;
            again, created, halt := CreateChild(ctx, node.name, created);
            if !halt.Going? {
              return Progress(nodes, phases, running, changed, created, halt);
            }
          } else {
            var (next, moved) := Synced(node, child, ctx.children[child]);
            if moved {
              nodes := nodes[i := next];
              if !next.phase.Running? {
                running := running - 1;
              }
              phases := phases[next.name := next.phase];
              changed := true;
            }
          }
        }
        i := i + 1;
      }
      p := Progress(nodes, phases, running, changed, created, Going);
    }

    /** Second pass over the Pending nodes, in topological order and within maxParallel. */
    method SchedulePending(ctx: Context, start: Progress) returns (p: Progress)
      requires ctx.workflow == name && start.nodes == nodes && start.halt.Going?
      modifies this`nodes
      ensures p == SchedulePass(ctx, start, 0) && nodes == p.nodes
    {
      var phases, running, changed, created := start.phases, start.running, start.changed, start.created;
      var i := 0;
      while i < |nodes|
        invariant 0 <= i <= |nodes| == |start.nodes|
        invariant SchedulePass(ctx, Progress(nodes, phases, running, changed, created, Going), i)
               == SchedulePass(ctx, start, 0)
      {
        var node := nodes[i];
        if node.phase.Pending? {
          var action := DecideNode(ctx.plan, phases, node.name);
          match action {
            case Wait =>
            case Skip(reason) =>
              nodes := nodes[i := SkippedNode(node, reason)];
              phases := phases[node.name := Skipped];
              changed := true;
            case Ready =>
              if !(ctx.plan.maxParallel > 0 && running >= ctx.plan.maxParallel) {
                var task, halt;
                task, created, halt := CreateChild(ctx, node.name, created);
                if !halt.Going? {
                  return Progress(nodes, phases, running, changed, created, halt);
                }
                var child := Dag.ChildTaskName(name, node.name);
                var (next, finished) := Synced(Started(node, child), child, task);
                if !finished {
                  running := running + 1;
                }
                nodes := nodes[i := next];
                phases := phases[next.name := next.phase];
                changed := true;
              }
          }
        }
        i := i + 1;
      }
      p := Progress(nodes, phases, running, changed, created, Going);
    }

    method FailWorkflow(reason: string) returns (changed: bool)
      modifies this
      ensures View() == FailedStatus(old(View()), reason)
      ensures changed <==> !(old(phase).WfFailed? && old(message) == reason)
      ensures generation == old(generation)
    {
      if phase.WfFailed? && message == reason {
        return false;
      }
      phase, message, completed := WfFailed, reason, true;
      return true;
    }

    /** Both passes; a name conflict fails the Workflow, any other API error aborts. */
    method AdvanceNodes(ctx: Context) returns (changed: bool, created: seq<Name>, halt: Halt)
      requires ctx.workflow == name
      modifies this
      ensures generation == old(generation)
      ensures var p := Advance(ctx, old(nodes));
              View() == Advanced(ctx, old(View()), p) && created == p.created && halt == p.halt &&
              (changed <==> p.changed || (halt.NameConflict? && View() != old(View()).(nodes := p.nodes)))
    {
      if !ctx.listed {
        return false, [], Aborted;
      }
      var phases, running := CountPhases();
      var p := SyncRunning(ctx, Progress(nodes, phases, running, false, [], Going));
      if p.halt.Going? {
        p := SchedulePending(ctx, p);
      }
      changed, created, halt := p.changed, p.created, p.halt;
      if halt.NameConflict? {
        var failed := FailWorkflow(ConflictMessage(name, halt.child));
        changed := failed || changed;
      }
    }

    /** Draw the overall conclusion once every node is terminal. */
    method Summarize() returns (changed: bool)
      modifies this
      ensures View() == Summarized(old(View()))
      ensures changed <==> phase != old(phase)
      ensures generation == old(generation)
    {
      if IsWorkflowTerminal(phase) {
        return false;
      }
      var failed: seq<Name> := [];
      var pending := 0;
      for i := 0 to |nodes|
        invariant failed == FailedNames(nodes[..i])
        invariant pending >= 0 && (pending == 0 <==> AllTerminal(nodes[..i]))
      {
        assert nodes[..i + 1][..i] == nodes[..i];
        match nodes[i].phase {
          case Failed => failed := failed + [nodes[i].name];
          case Succeeded | Skipped =>
          case _ =>
            pending := pending + 1;
            assert nodes[..i + 1][i] == nodes[i];
        }
      }
      assert nodes[..|nodes|] == nodes;
      if pending > 0 {
        return false;
      }
      completed := true;
      if |failed| > 0 {
        phase, message := WfFailed, "nodes failed: " + Join(failed);
        return true;
      }
      phase, message := WfSucceeded, "";
      return true;
    }

    /** reconcileGraph: initialise, advance, summarise, and say whether the status must be written. */
    method ReconcileSpec(ctx: Context) returns (write: bool, created: seq<Name>, halt: Halt)
      requires ctx.workflow == name
      modifies this
      ensures var e := ReconcileGraph(ctx, old(View()), old(generation));
              created == e.created && halt == e.halt && write == e.write &&
              (!halt.Aborted? ==> View() == e.status)
    {
      ghost var init := Initialized(View(), generation, ctx.plan.order);
      var changed := InitializeStatus(ctx.plan.order);
      var advanced;
      advanced, created, halt := AdvanceNodes(ctx);
      if halt.Aborted? {
        return false, created, halt;
      }
      changed := advanced || changed;
      var summarized := Summarize();
      if summarized {
        changed := true;
      }
      write := changed;
    }

    /** markWorkflowFailed: the same rejection of the same generation is not written again. */
    method MarkFailed(reason: string) returns (write: bool)
      modifies this
      ensures write <==> !(old(phase).WfFailed? && old(message) == reason && old(observedGeneration) == old(generation))
      ensures View() == if write then MarkedFailed(old(View()), old(generation), reason) else old(View())
      ensures generation == old(generation)
    {
      if phase.WfFailed? && message == reason && observedGeneration == generation {
        return false;
      }
      phase, message, observedGeneration := WfFailed, reason, generation;
      if !completed {
        completed := true;
      }
      return true;
    }

    /** Build and ValidateChildTaskNames; detail stands for the sentence after the stable reason. */
    method CheckSpec(spec: Dag.WorkflowSpec, detail: string) returns (build: BuildResult)
      ensures Judges(name, spec, detail, build)
    {
      var built := Dag.Build(spec);
      match built {
        case Err(error) => return Invalid(RejectionMessage(error.reason, detail));
        case Ok(graph) =>
          SchedulerInvariants.BuiltPlanIsValid(graph, spec);
          var offending := Dag.ValidateChildTaskNames(name, graph.order);
          BuiltOrder(graph, spec);
          if |offending| > 0 {
            return Invalid(RejectionMessage(Dag.InvalidTask, detail));
          }
          var runOnFailure := set t | t in spec.tasks && t.runOnFailure :: t.name;
          build := Valid(Plan(graph.order, graph.deps, runOnFailure, spec.maxParallel));
          PlanRepresents(graph, spec);
      }
    }

    /** Reconcile of a Workflow that holds its finalizer and is not being deleted. */
    method Reconcile(ctx: Context, spec: Dag.WorkflowSpec, detail: string)
      returns (write: bool, created: seq<Name>, halt: Halt, ghost build: BuildResult)
      requires ctx.workflow == name
      modifies this
      ensures !old(phase).WfSucceeded? && !old(phase).WfFailed? ==> Judges(name, spec, detail, build)
      ensures old(phase).WfFailed? && old(nodes) == [] && old(observedGeneration) != old(generation) ==>
                Judges(name, spec, detail, build)
      ensures var e := Scheduler.Reconcile(ctx, old(View()), old(generation), build);
              write == e.write && created == e.created && halt == e.halt && (!halt.Aborted? ==> View() == e.status)
    {
      build := Invalid("");
      if IsWorkflowTerminal(phase) {
        if observedGeneration == generation {
          return false, [], Going, build;
        }
        if !(phase.WfFailed? && |nodes| == 0) {
          observedGeneration := generation;
          return true, [], Going, build;
        }
      }
      var checked := CheckSpec(spec, detail);
      build := checked;
      match checked {
        case Invalid(reason) =>
          write := MarkFailed(reason);
          created, halt := [], Going;
        case Valid(plan) =>
          write, created, halt := ReconcileSpec(ctx.(plan := plan));
      }
    }
  }

  function ReasonText(reason: Dag.Reason): string {
    match reason
    case NoTasks => "NoTasks"
    case DuplicateTaskName => "DuplicateTaskName"
    case InvalidTask => "InvalidTask"
    case EmptyDependency => "EmptyDependency"
    case SelfDependency => "SelfDependency"
    case UnknownDependency => "UnknownDependency"
    case DuplicateDependency => "DuplicateDependency"
    case MissingTemplate => "MissingTemplate"
    case CyclicDependency => "CyclicDependency"
  }

  function RejectionMessage(reason: Dag.Reason, detail: string): string {
    ReasonText(reason) + ": " + detail
  }

  /** A spec the controller will schedule: well formed, acyclic, and with child names that fit. */
  ghost predicate Schedulable(workflow: Name, spec: Dag.WorkflowSpec) {
    && Dag.WellFormed(spec) && DagTheory.Acyclic(Dag.RelOf(spec))
    && forall t :: t in spec.tasks ==> !Dag.IsTooLong(workflow, t.name)
  }

  /** The plan of a spec, in terms of the spec alone. */
  ghost predicate PlanFor(plan: Plan, spec: Dag.WorkflowSpec) {
    && SchedulerInvariants.ValidPlan(plan)
    && plan.order == DagTheory.CanonicalOrder(Dag.RelOf(spec))
    && plan.maxParallel == spec.maxParallel
    && forall t :: t in spec.tasks ==> NodePlanned(plan, t)
  }

  ghost predicate NodePlanned(plan: Plan, t: Dag.WorkflowTask) {
    DepsOf(plan, t.name) == t.dependsOn && (t.name in plan.runOnFailure <==> t.runOnFailure)
  }

  /** The verdict on a spec: a plan for it exactly when it is schedulable, else the first fault. */
  ghost predicate Judges(workflow: Name, spec: Dag.WorkflowSpec, detail: string, build: BuildResult) {
    match build
    case Valid(plan) => Schedulable(workflow, spec) && PlanFor(plan, spec)
    case Invalid(message) =>
      && !Schedulable(workflow, spec)
      && if Dag.WellFormed(spec) && DagTheory.Acyclic(Dag.RelOf(spec))
         then message == RejectionMessage(Dag.InvalidTask, detail)
         else exists e :: Dag.Explains(spec, e) && message == RejectionMessage(e.reason, detail)
  }

  /** The order of a built graph lists exactly the declared names. */
  lemma BuiltOrder(g: Dag.Graph, spec: Dag.WorkflowSpec)
    requires Dag.WellFormed(spec) && DagTheory.Acyclic(Dag.RelOf(spec)) && Dag.Represents(g, spec)
    ensures forall n :: n in g.order <==> exists t :: t in spec.tasks && t.name == n
  {
    var r := Dag.RelOf(spec);
    forall n | n in r
      ensures r[n] <= r.Keys
    {
      SchedulerInvariants.DeclaredDependencies(spec, n);
    }
    DagTheory.CanonicalOrderIsTopological(r);
    assert forall n :: n in g.order <==> n in Elements(g.order);
  }

  lemma PlanRepresents(g: Dag.Graph, spec: Dag.WorkflowSpec)
    requires Dag.WellFormed(spec) && DagTheory.Acyclic(Dag.RelOf(spec)) && Dag.Represents(g, spec)
    ensures PlanFor(SchedulerInvariants.PlanOf(g, spec), spec)
  {
    var plan := SchedulerInvariants.PlanOf(g, spec);
    SchedulerInvariants.BuiltPlanIsValid(g, spec);
    forall t | t in spec.tasks
      ensures NodePlanned(plan, t)
    {
      assert DepsOf(plan, t.name) == g.Deps(t.name) == t.dependsOn;
      SameTask(spec, t);
    }
  }

  lemma SameTask(spec: Dag.WorkflowSpec, t: Dag.WorkflowTask)
    requires Dag.WellFormed(spec) && t in spec.tasks
    ensures forall u :: u in spec.tasks && u.name == t.name ==> u == t
  {
    forall u | u in spec.tasks && u.name == t.name
      ensures u == t
    {
      var i :| 0 <= i < |spec.tasks| && spec.tasks[i] == t;
      var j :| 0 <= j < |spec.tasks| && spec.tasks[j] == u;
    }
  }
}
