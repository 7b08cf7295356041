/** Runs of the Workflow reconciler against an API server and an arbitrary environment. */
module SchedulerRuns {
  import opened Names
  import opened Scheduler
  import opened SchedulerInvariants
  import Dag

  // ---- the denotation of a plan -------------------------------------------------------

  ghost function Pos(plan: Plan, n: Name): (i: nat)
    requires n in plan.order
    ensures i < |plan.order| && plan.order[i] == n
  {
    var i :| 0 <= i < |plan.order| && plan.order[i] == n;
    i
  }

  lemma DepsEarlierPos(plan: Plan, n: Name)
    requires ValidPlan(plan) && n in plan.order
    ensures forall d :: d in DepsOf(plan, n) ==> d in plan.order && Pos(plan, d) < Pos(plan, n)
  {
    forall d | d in DepsOf(plan, n)
      ensures d in plan.order && Pos(plan, d) < Pos(plan, n)
    {
      var j := DepIndex(plan, Pos(plan, n), d);
      assert Pos(plan, d) == j;
    }
  }

  /** The phase node n must end in, when good is the set of nodes whose execution succeeds. */
  ghost function Den(plan: Plan, good: set<Name>, n: Name): NodePhase
    requires ValidPlan(plan) && n in plan.order
    decreases Pos(plan, n)
  {
    DepsEarlierPos(plan, n);
    var allSucceeded := forall d :: d in DepsOf(plan, n) ==> Den(plan, good, d).Succeeded?;
    var runs := if n in plan.runOnFailure then !allSucceeded else allSucceeded;
    if !runs then Skipped else if n in good then Succeeded else Failed
  }

  ghost function DenVerdicts(plan: Plan, good: set<Name>): Verdicts
    requires ValidPlan(plan)
  {
    Verdicts(set n | n in plan.order :: (n, Den(plan, good, n)),
             set n | n in plan.order && !Den(plan, good, n).Skipped?)
  }

  lemma JudgedIsDen(plan: Plan, good: set<Name>, n: Name, p: NodePhase)
    requires ValidPlan(plan) && (n, p) in DenVerdicts(plan, good).judged
    ensures n in plan.order && p == Den(plan, good, n)
  {
  }

  lemma DenJudged(plan: Plan, good: set<Name>, n: Name)
    requires ValidPlan(plan) && n in plan.order
    ensures (n, Den(plan, good, n)) in DenVerdicts(plan, good).judged
    ensures HasSucceeded(DenVerdicts(plan, good), n) <==> Den(plan, good, n).Succeeded?
    ensures IsBlocked(DenVerdicts(plan, good), n) <==> !Den(plan, good, n).Succeeded?
  {
  }

  /** The denotation satisfies the documented rule at every node. */
  lemma DenClosed(plan: Plan, good: set<Name>)
    requires ValidPlan(plan)
    ensures Closed(plan, DenVerdicts(plan, good))
  {
    forall n | n in plan.order
      ensures ClosedAt(plan, DenVerdicts(plan, good), n)
    {
      DepsEarlierPos(plan, n);
      forall d | d in DepsOf(plan, n)
        ensures HasSucceeded(DenVerdicts(plan, good), d) <==> Den(plan, good, d).Succeeded?
        ensures IsBlocked(DenVerdicts(plan, good), d) <==> !Den(plan, good, d).Succeeded?
      {
        DenJudged(plan, good, d);
      }
      DenJudged(plan, good, n);
    }
  }

  // ---- worlds and steps ----------------------------------------------------------------------

  /** A Task stored on the API server; mine means controlled by the Workflow under study. */
  datatype TaskObject = TaskObject(mine: bool, view: TaskView)

  datatype World = World(tasks: map<Name, TaskObject>, status: Status, conflicted: bool)

  /** The fixed part of a run: the Workflow's name, its built spec and the generation of that spec. */
  datatype System = System(workflow: Name, plan: Plan, generation: int)

  ghost function Mine(tasks: map<Name, TaskObject>): set<Name> {
    set c | c in tasks && tasks[c].mine
  }

  ghost function ChildNames(workflow: Name, nodes: set<Name>): set<Name> {
    set n | n in nodes :: Dag.ChildTaskName(workflow, n)
  }

  lemma ChildNamesMember(workflow: Name, nodes: set<Name>, n: Name)
    ensures Dag.ChildTaskName(workflow, n) in ChildNames(workflow, nodes) <==> n in nodes
  {
    if Dag.ChildTaskName(workflow, n) in ChildNames(workflow, nodes) {
      var m :| m in nodes && Dag.ChildTaskName(workflow, m) == Dag.ChildTaskName(workflow, n);
      Dag.ChildTaskNameInjective(workflow, m, n);
    }
  }

  /** A finished child of node n reports the outcome of n. */
  ghost predicate ViewTrue(good: set<Name>, n: Name, view: TaskView) {
    (view.phase.TaskSucceeded? ==> n in good) && (view.phase.TaskFailed? ==> n !in good)
  }

  ghost predicate Truthful(sys: System, good: set<Name>, tasks: map<Name, TaskObject>) {
    forall n :: n in sys.plan.order && Dag.ChildTaskName(sys.workflow, n) in Mine(tasks) ==>
      ViewTrue(good, n, tasks[Dag.ChildTaskName(sys.workflow, n)].view)
  }

  /** The environment: children progress, finish, disappear; foreign Tasks come and go. */
  ghost predicate EnvironmentStep(sys: System, good: set<Name>, w: World, w': World) {
    && w'.status == w.status && w'.conflicted == w.conflicted
    && Mine(w'.tasks) <= Mine(w.tasks)
    && Truthful(sys, good, w'.tasks)
  }

  /** What a reconcile reads about node n existed when it started, in some state of its progress. */
  ghost predicate Observable(sys: System, good: set<Name>, w: World, ctx: Context, n: Name) {
    var child := ChildOf(ctx, n);
    && (child in ctx.children ==> child in Mine(w.tasks) && ViewTrue(good, n, ctx.children[child]))
    && (AnswerFor(ctx, child).Adopted? ==>
          child in Mine(w.tasks) && ViewTrue(good, n, AnswerFor(ctx, child).task))
  }

  ghost predicate Observation(sys: System, good: set<Name>, w: World, ctx: Context) {
    && ctx.workflow == sys.workflow && ctx.plan == sys.plan
    && forall n :: n in sys.plan.order ==> Observable(sys, good, w, ctx, n)
  }

  function EffectOf(sys: System, w: World, ctx: Context): Effect {
    Reconcile(ctx, w.status, sys.generation, Valid(sys.plan))
  }

  /** One reconcile, interleaved with the environment; it may abort anywhere and its status write may fail. */
  ghost predicate ReconcileStep(sys: System, good: set<Name>, w: World, w': World, ctx: Context, written: bool) {
    && Observation(sys, good, w, ctx)
    && var e := EffectOf(sys, w, ctx);
    && Mine(w'.tasks) <= Mine(w.tasks) + ChildNames(sys.workflow, Elements(e.created))
    && Truthful(sys, good, w'.tasks)
    && (written ==> e.write && !e.halt.Aborted?)
    && w'.status == (if written then e.status else w.status)
    && w'.conflicted == (w.conflicted || (written && e.halt.NameConflict?))
  }

  datatype Event = Environment | Controller(ctx: Context, written: bool)

  ghost predicate Step(sys: System, good: set<Name>, w: World, event: Event, w': World) {
    match event
    case Environment => EnvironmentStep(sys, good, w, w')
    case Controller(ctx, written) => ReconcileStep(sys, good, w, w', ctx, written)
  }

  ghost predicate Initial(w: World) {
    && Mine(w.tasks) == {} && !w.conflicted
    && w.status.nodes == [] && !IsWorkflowTerminal(w.status.phase)
  }

  ghost predicate Run(sys: System, good: set<Name>, worlds: seq<World>, events: seq<Event>) {
    && |worlds| == |events| + 1
    && Initial(worlds[0])
    && forall i :: 0 <= i < |events| ==> StepAt(sys, good, worlds, events, i)
  }

  ghost predicate StepAt(sys: System, good: set<Name>, worlds: seq<World>, events: seq<Event>, i: nat)
    requires i < |events| < |worlds|
  {
    Step(sys, good, worlds[i], events[i], worlds[i + 1])
  }

  // ---- the node list of a status -----------------------------------------------------------------

  ghost predicate EmptyOrListed(plan: Plan, nodes: seq<NodeStatus>) {
    nodes == [] || Lists(plan, nodes)
  }

  lemma {:induction false} ExistingLooksUp(plan: Plan, nodes: seq<NodeStatus>, n: nat)
    requires NoRepeats(plan.order) && n <= |nodes| == |plan.order|
    requires forall i :: 0 <= i < |nodes| ==> nodes[i].name == plan.order[i]
    ensures forall i :: 0 <= i < n ==>
              plan.order[i] in ExistingNodes(nodes[..n]) && ExistingNodes(nodes[..n])[plan.order[i]] == nodes[i]
  {
    if n > 0 {
      ExistingLooksUp(plan, nodes, n - 1);
      assert nodes[..n][..n - 1] == nodes[..n - 1];
    }
  }

  function Listed(plan: Plan, nodes: seq<NodeStatus>): seq<NodeStatus> {
    InitialNodes(ExistingNodes(nodes), plan.order)
  }

  lemma {:induction false} ExistingNamed(nodes: seq<NodeStatus>)
    ensures forall n :: n in ExistingNodes(nodes) ==> ExistingNodes(nodes)[n].name == n
  {
    if nodes != [] {
      ExistingNamed(nodes[..|nodes| - 1]);
    }
  }

  /** Whatever the status listed before, initialisation lists exactly the nodes of the plan. */
  lemma AlwaysListed(plan: Plan, nodes: seq<NodeStatus>)
    ensures Lists(plan, Listed(plan, nodes))
  {
    ExistingNamed(nodes);
  }

  /** Initialisation keeps a complete node list and otherwise makes every node Pending. */
  lemma ListedNodes(plan: Plan, nodes: seq<NodeStatus>)
    requires ValidPlan(plan) && EmptyOrListed(plan, nodes)
    ensures Lists(plan, Listed(plan, nodes))
    ensures nodes != [] ==> Listed(plan, nodes) == nodes
    ensures nodes == [] ==> forall i :: 0 <= i < |plan.order| ==> Listed(plan, nodes)[i].phase.Pending?
  {
    AlwaysListed(plan, nodes);
    if nodes != [] {
      ExistingLooksUp(plan, nodes, |nodes|);
      assert nodes[..|nodes|] == nodes;
    }
  }

  lemma {:induction false} FailedNamesFinds(nodes: seq<NodeStatus>)
    ensures FailedNames(nodes) == [] <==> forall i :: 0 <= i < |nodes| ==> !nodes[i].phase.Failed?
  {
    if nodes != [] {
      var n := |nodes| - 1;
      FailedNamesFinds(nodes[..n]);
      assert forall i :: 0 <= i < n ==> nodes[..n][i] == nodes[i];
    }
  }

  // ---- confluence --------------------------------------------------------------------------------

  ghost predicate SomeFailed(nodes: seq<NodeStatus>) {
    exists i :: 0 <= i < |nodes| && nodes[i].phase.Failed?
  }

  /** The overall phase is a summary of the nodes, unless a name conflict decided it. */
  ghost predicate Concluded(plan: Plan, w: World) {
    && (w.status.phase.WfSucceeded? ==>
          Lists(plan, w.status.nodes) && AllTerminal(w.status.nodes) && !SomeFailed(w.status.nodes))
    && (w.status.phase.WfFailed? && !w.conflicted ==>
          Lists(plan, w.status.nodes) && AllTerminal(w.status.nodes) && SomeFailed(w.status.nodes))
  }

  ghost predicate Confluent(sys: System, good: set<Name>, w: World)
    requires ValidPlan(sys.plan)
  {
    var v := DenVerdicts(sys.plan, good);
    && EmptyOrListed(sys.plan, w.status.nodes)
    && Justified(v, w.status.nodes)
    && Mine(w.tasks) <= ChildNames(sys.workflow, v.runnable)
    && Truthful(sys, good, w.tasks)
    && Concluded(sys.plan, w)
  }

  lemma RunnableOutcome(sys: System, good: set<Name>, n: Name, view: TaskView)
    requires ValidPlan(sys.plan) && n in DenVerdicts(sys.plan, good).runnable && ViewTrue(good, n, view)
    ensures ViewSound(DenVerdicts(sys.plan, good), n, view)
  {
    DenJudged(sys.plan, good, n);
  }

  lemma ObservationSound(sys: System, good: set<Name>, w: World, ctx: Context)
    requires ValidPlan(sys.plan) && Confluent(sys, good, w) && Observation(sys, good, w, ctx)
    ensures ContextSound(DenVerdicts(sys.plan, good), ctx)
  {
    var v := DenVerdicts(sys.plan, good);
    forall n | n in ctx.plan.order
      ensures NodeViewsSound(v, ctx, n)
    {
      assert Observable(sys, good, w, ctx, n);
      ChildNamesMember(sys.workflow, v.runnable, n);
      var child := ChildOf(ctx, n);
      if child in ctx.children {
        RunnableOutcome(sys, good, n, ctx.children[child]);
      }
      if AnswerFor(ctx, child).Adopted? {
        RunnableOutcome(sys, good, n, AnswerFor(ctx, child).task);
      }
    }
  }

  /** The parts of the effect of a graph reconcile. */
  lemma GraphStatus(ctx: Context, s: Status, generation: int, p: Progress)
    requires p == Advance(ctx, Listed(ctx.plan, s.nodes))
    ensures var e := ReconcileGraph(ctx, s, generation);
            && e.created == p.created && e.halt == p.halt
            && (!e.halt.Aborted? ==> e.status.nodes == p.nodes && e.status.observedGeneration == generation)
            && (e.halt.NameConflict? ==> e.status.phase.WfFailed?)
            && (e.halt.Going? && AllTerminal(p.nodes) ==> IsWorkflowTerminal(e.status.phase))
            && (e.halt.Going? && IsWorkflowTerminal(e.status.phase) ==>
                  AllTerminal(p.nodes) && (e.status.phase.WfSucceeded? <==> FailedNames(p.nodes) == []))
  {
  }

  /** A reconcile of the graph writes justified nodes and creates only runnable ones. */
  lemma GraphEffect(ctx: Context, v: Verdicts, s: Status, p: Progress)
    requires ValidPlan(ctx.plan) && EmptyOrListed(ctx.plan, s.nodes) && Justified(v, s.nodes)
    requires Closed(ctx.plan, v) && ContextSound(v, ctx)
    requires p == Advance(ctx, Listed(ctx.plan, s.nodes))
    ensures ProgressJustified(v, p) && Lists(ctx.plan, p.nodes)
    ensures FailedNames(p.nodes) == [] <==> !SomeFailed(p.nodes)
  {
    var nodes := Listed(ctx.plan, s.nodes);
    ListedNodes(ctx.plan, s.nodes);
    assert Justified(v, nodes);
    AdvanceJustified(ctx, v, nodes);
    AdvanceKeeps(ctx, nodes);
    GoodLists(ctx.plan, p);
    FailedNamesFinds(p.nodes);
  }

  lemma GoodLists(plan: Plan, p: Progress)
    requires Good(plan, p)
    ensures Lists(plan, p.nodes)
  {
    forall i | 0 <= i < |p.nodes|
      ensures p.nodes[i].name == plan.order[i] && !p.nodes[i].phase.Unset?
    {
      assert NodeGood(plan, p.nodes, p.phases, i);
    }
  }

  /** The status a reconcile would write agrees with the denotation. */
  lemma EffectConfluent(sys: System, good: set<Name>, w: World, ctx: Context)
    requires ValidPlan(sys.plan) && Confluent(sys, good, w) && Observation(sys, good, w, ctx)
    ensures var e := EffectOf(sys, w, ctx);
            && Elements(e.created) <= DenVerdicts(sys.plan, good).runnable
            && (!e.halt.Aborted? ==>
                  && EmptyOrListed(sys.plan, e.status.nodes)
                  && Justified(DenVerdicts(sys.plan, good), e.status.nodes)
                  && Concluded(sys.plan, w.(status := e.status, conflicted := w.conflicted || e.halt.NameConflict?)))
  {
    var e := EffectOf(sys, w, ctx);
    if IsWorkflowTerminal(w.status.phase) && (w.status.observedGeneration == sys.generation || w.status.nodes != []) {
      assert e.created == [];
    } else {
      ObservationSound(sys, good, w, ctx);
      DenClosed(sys.plan, good);
      assert ctx.(plan := sys.plan) == ctx;
      var p := Advance(ctx, Listed(sys.plan, w.status.nodes));
      GraphEffect(ctx, DenVerdicts(sys.plan, good), w.status, p);
      GraphStatus(ctx, w.status, sys.generation, p);
    }
  }

  lemma StepConfluent(sys: System, good: set<Name>, w: World, event: Event, w': World)
    requires ValidPlan(sys.plan) && Confluent(sys, good, w) && Step(sys, good, w, event, w')
    ensures Confluent(sys, good, w')
    ensures event.Controller? ==>
              Elements(EffectOf(sys, w, event.ctx).created) <= DenVerdicts(sys.plan, good).runnable
  {
    match event
    case Environment =>
    case Controller(ctx, _) =>
      EffectConfluent(sys, good, w, ctx);
      ChildNamesMonotone(sys.workflow, Elements(EffectOf(sys, w, ctx).created), DenVerdicts(sys.plan, good).runnable);
  }

  lemma ChildNamesMonotone(workflow: Name, a: set<Name>, b: set<Name>)
    requires a <= b
    ensures ChildNames(workflow, a) <= ChildNames(workflow, b)
  {
  }

  /** Confluence: every reachable world of every run agrees with the denotation. */
  lemma {:induction false} RunConfluent(sys: System, good: set<Name>, worlds: seq<World>, events: seq<Event>, i: nat)
    requires ValidPlan(sys.plan) && Run(sys, good, worlds, events) && i < |worlds|
    ensures Confluent(sys, good, worlds[i])
  {
    if i == 0 {
      assert Mine(worlds[0].tasks) == {};
    } else {
      RunConfluent(sys, good, worlds, events, i - 1);
      assert StepAt(sys, good, worlds, events, i - 1);
      StepConfluent(sys, good, worlds[i - 1], events[i - 1], worlds[i]);
    }
  }

  /** Every terminal node phase is the denoted one; skipped nodes never have a child Task. */
  lemma VerdictsAreDenoted(sys: System, good: set<Name>, worlds: seq<World>, events: seq<Event>, i: nat)
    requires ValidPlan(sys.plan) && Run(sys, good, worlds, events) && i < |worlds|
    ensures forall node :: node in worlds[i].status.nodes && IsTerminal(node.phase) ==>
              node.name in sys.plan.order && node.phase == Den(sys.plan, good, node.name)
    ensures forall n :: n in sys.plan.order && Den(sys.plan, good, n).Skipped? ==>
              Dag.ChildTaskName(sys.workflow, n) !in Mine(worlds[i].tasks)
  {
    var v := DenVerdicts(sys.plan, good);
    var w := worlds[i];
    RunConfluent(sys, good, worlds, events, i);
    forall node | node in w.status.nodes && IsTerminal(node.phase)
      ensures node.name in sys.plan.order && node.phase == Den(sys.plan, good, node.name)
    {
      assert NodeJustified(v, node);
      JudgedIsDen(sys.plan, good, node.name, node.phase);
    }
    forall n | n in sys.plan.order && Den(sys.plan, good, n).Skipped?
      ensures Dag.ChildTaskName(sys.workflow, n) !in Mine(w.tasks)
    {
      ChildNamesMember(sys.workflow, v.runnable, n);
    }
  }

  /** Node j of the order has the denoted phase. */
  ghost predicate DenotedAt(sys: System, good: set<Name>, w: World, j: nat)
    requires ValidPlan(sys.plan) && j < |sys.plan.order|
  {
    j < |w.status.nodes| && w.status.nodes[j].phase == Den(sys.plan, good, sys.plan.order[j])
  }

  /** A concluded, conflict-free Workflow succeeded exactly when the denotation has no failed node. */
  lemma ConclusionIsDenoted(sys: System, good: set<Name>, worlds: seq<World>, events: seq<Event>, i: nat)
    requires ValidPlan(sys.plan) && Run(sys, good, worlds, events) && i < |worlds|
    requires IsWorkflowTerminal(worlds[i].status.phase) && !worlds[i].conflicted
    ensures worlds[i].status.phase.WfSucceeded? <==>
              forall n :: n in sys.plan.order ==> !Den(sys.plan, good, n).Failed?
    ensures forall j :: 0 <= j < |sys.plan.order| ==> DenotedAt(sys, good, worlds[i], j)
  {
    var nodes := worlds[i].status.nodes;
    RunConfluent(sys, good, worlds, events, i);
    forall j | 0 <= j < |sys.plan.order|
      ensures DenotedAt(sys, good, worlds[i], j)
    {
      assert NodeJustified(DenVerdicts(sys.plan, good), nodes[j]);
      JudgedIsDen(sys.plan, good, nodes[j].name, nodes[j].phase);
    }
    if worlds[i].status.phase.WfSucceeded? {
      forall n | n in sys.plan.order
        ensures !Den(sys.plan, good, n).Failed?
      {
        assert DenotedAt(sys, good, worlds[i], Pos(sys.plan, n));
      }
    } else {
      var j :| 0 <= j < |nodes| && nodes[j].phase.Failed?;
      assert DenotedAt(sys, good, worlds[i], j);
    }
  }

  // ---- monotone phases, the transition bound and maxParallel over runs -------------------------

  lemma StepForward(sys: System, good: set<Name>, w: World, event: Event, w': World)
    requires ValidPlan(sys.plan) && Confluent(sys, good, w) && Step(sys, good, w, event, w')
    ensures Forward(Listed(sys.plan, w.status.nodes), Listed(sys.plan, w'.status.nodes))
    ensures sys.plan.maxParallel > 0 ==>
              Total(w'.status.nodes, IsRunning) <= Max(Total(w.status.nodes, IsRunning), sys.plan.maxParallel)
  {
    var plan := sys.plan;
    ListedNodes(plan, w.status.nodes);
    var before := Listed(plan, w.status.nodes);
    if event.Controller? && event.written {
      var ctx := event.ctx;
      assert ctx.(plan := plan) == ctx;
      if IsWorkflowTerminal(w.status.phase) && (w.status.observedGeneration == sys.generation || w.status.nodes != []) {
        assert w'.status.nodes == w.status.nodes;
      } else {
        GraphStatus(ctx, w.status, sys.generation, Advance(ctx, before));
        GraphForward(ctx, w.status.nodes, w'.status.nodes);
      }
    }
  }

  lemma GraphForward(ctx: Context, nodes: seq<NodeStatus>, next: seq<NodeStatus>)
    requires ValidPlan(ctx.plan) && EmptyOrListed(ctx.plan, nodes)
    requires next == Advance(ctx, Listed(ctx.plan, nodes)).nodes
    ensures Forward(Listed(ctx.plan, nodes), Listed(ctx.plan, next))
    ensures ctx.plan.maxParallel > 0 ==>
              Total(next, IsRunning) <= Max(Total(nodes, IsRunning), ctx.plan.maxParallel)
  {
    var before := Listed(ctx.plan, nodes);
    ListedNodes(ctx.plan, nodes);
    AdvanceKeeps(ctx, before);
    GoodLists(ctx.plan, Advance(ctx, before));
    ListedNodes(ctx.plan, next);
    if nodes == [] {
      NoneRunning(before);
    }
  }

  /** Node transitions written by the first k steps of a run. */
  ghost function RunMoves(plan: Plan, worlds: seq<World>, k: nat): nat
    requires k < |worlds|
  {
    if k == 0 then 0
    else RunMoves(plan, worlds, k - 1) + WorldMoves(plan, worlds[k - 1], worlds[k])
  }

  ghost function WorldMoves(plan: Plan, w: World, w': World): nat {
    Moves(Listed(plan, w.status.nodes), Listed(plan, w'.status.nodes))
  }

  ghost function Left(plan: Plan, w: World): nat {
    Total(Listed(plan, w.status.nodes), Remaining)
  }

  lemma StepMoves(sys: System, good: set<Name>, w: World, event: Event, w': World)
    requires ValidPlan(sys.plan) && Confluent(sys, good, w) && Step(sys, good, w, event, w')
    ensures Left(sys.plan, w') + WorldMoves(sys.plan, w, w') <= Left(sys.plan, w)
  {
    StepForward(sys, good, w, event, w');
    MovesUseMeasure(Listed(sys.plan, w.status.nodes), Listed(sys.plan, w'.status.nodes));
  }

  lemma LeftBound(plan: Plan, w: World)
    ensures Left(plan, w) <= 2 * |plan.order|
  {
    MeasureBound(Listed(plan, w.status.nodes));
  }

  lemma RunStepMoves(sys: System, good: set<Name>, worlds: seq<World>, events: seq<Event>, k: nat)
    requires ValidPlan(sys.plan) && Run(sys, good, worlds, events) && k < |events|
    ensures Left(sys.plan, worlds[k + 1]) + WorldMoves(sys.plan, worlds[k], worlds[k + 1]) <= Left(sys.plan, worlds[k])
  {
    RunConfluent(sys, good, worlds, events, k);
    assert StepAt(sys, good, worlds, events, k);
    StepMoves(sys, good, worlds[k], events[k], worlds[k + 1]);
  }

  /** A run over N nodes writes at most 2N node transitions. */
  lemma {:induction false} TransitionBound(sys: System, good: set<Name>, worlds: seq<World>, events: seq<Event>, k: nat)
    requires ValidPlan(sys.plan) && Run(sys, good, worlds, events) && k < |worlds|
    ensures RunMoves(sys.plan, worlds, k) + Left(sys.plan, worlds[k]) <= 2 * |sys.plan.order|
  {
    if k == 0 {
      LeftBound(sys.plan, worlds[0]);
    } else {
      TransitionBound(sys, good, worlds, events, k - 1);
      RunStepMoves(sys, good, worlds, events, k - 1);
    }
  }

  /** No reachable status has more than maxParallel Running nodes. */
  lemma {:induction false} MaxParallelSafe(sys: System, good: set<Name>, worlds: seq<World>, events: seq<Event>, i: nat)
    requires ValidPlan(sys.plan) && sys.plan.maxParallel > 0
    requires Run(sys, good, worlds, events) && i < |worlds|
    ensures Total(worlds[i].status.nodes, IsRunning) <= sys.plan.maxParallel
  {
    if i > 0 {
      MaxParallelSafe(sys, good, worlds, events, i - 1);
      RunConfluent(sys, good, worlds, events, i - 1);
      assert StepAt(sys, good, worlds, events, i - 1);
      StepForward(sys, good, worlds[i - 1], events[i - 1], worlds[i]);
    }
  }
}
