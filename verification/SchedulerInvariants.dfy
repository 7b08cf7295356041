/** What the two scheduling passes keep, whatever the API server answers. */
module SchedulerInvariants {
  import opened Names
  import opened Scheduler
  import Dag
  import DagTheory

  // ---- valid plans ------------------------------------------------------------------

  ghost predicate DepsEarlier(plan: Plan, i: nat)
    requires i < |plan.order|
  {
    forall d :: d in DepsOf(plan, plan.order[i]) ==> d in plan.order[..i]
  }

  /** A topological order without repetitions. */
  ghost predicate ValidPlan(plan: Plan) {
    && plan.order != []
    && NoRepeats(plan.order)
    && forall i :: 0 <= i < |plan.order| ==> DepsEarlier(plan, i)
  }

  function PlanOf(g: Dag.Graph, spec: Dag.WorkflowSpec): Plan
    reads g
  {
    Plan(g.order, g.deps, set t | t in spec.tasks && t.runOnFailure :: t.name, spec.maxParallel)
  }

  lemma DeclaredDependencies(spec: Dag.WorkflowSpec, n: Name)
    requires Dag.WellFormed(spec) && n in Dag.RelOf(spec)
    ensures Dag.RelOf(spec)[n] <= Dag.RelOf(spec).Keys
  {
    var t :| t in spec.tasks && t.name == n;
    Dag.RelOfWellFormed(spec, t);
    assert Dag.GoodDependencies(spec, t);
  }

  lemma BuiltDeps(g: Dag.Graph, spec: Dag.WorkflowSpec, n: Name)
    requires Dag.WellFormed(spec) && Dag.Represents(g, spec) && n in Dag.RelOf(spec)
    ensures Elements(DepsOf(PlanOf(g, spec), n)) == Dag.RelOf(spec)[n]
  {
    var t :| t in spec.tasks && t.name == n;
    Dag.RelOfWellFormed(spec, t);
    assert DepsOf(PlanOf(g, spec), n) == g.Deps(n) == t.dependsOn;
  }

  lemma BuiltDepsEarlier(g: Dag.Graph, spec: Dag.WorkflowSpec, i: nat)
    requires Dag.WellFormed(spec) && Dag.Represents(g, spec) && i < |g.order|
    requires Elements(g.order) == Dag.RelOf(spec).Keys && DagTheory.DepsFirst(Dag.RelOf(spec), g.order)
    ensures DepsEarlier(PlanOf(g, spec), i)
  {
    var plan := PlanOf(g, spec);
    assert plan.order[i] in Elements(g.order);
    BuiltDeps(g, spec, plan.order[i]);
    forall d | d in DepsOf(plan, plan.order[i])
      ensures d in plan.order[..i]
    {
      assert d in Elements(DepsOf(plan, plan.order[i]));
    }
  }

  /** Every graph that Build returns is a valid plan. */
  lemma BuiltPlanIsValid(g: Dag.Graph, spec: Dag.WorkflowSpec)
    requires Dag.WellFormed(spec) && DagTheory.Acyclic(Dag.RelOf(spec)) && Dag.Represents(g, spec)
    ensures ValidPlan(PlanOf(g, spec))
  {
    var r := Dag.RelOf(spec);
    forall n | n in r
      ensures r[n] <= r.Keys
    {
      DeclaredDependencies(spec, n);
    }
    DagTheory.CanonicalOrderIsTopological(r);
    assert spec.tasks[0].name in Elements(g.order);
    forall i | 0 <= i < |g.order|
      ensures DepsEarlier(PlanOf(g, spec), i)
    {
      BuiltDepsEarlier(g, spec, i);
    }
  }

  lemma DepIndex(plan: Plan, i: nat, d: Name) returns (j: nat)
    requires ValidPlan(plan) && i < |plan.order| && d in DepsOf(plan, plan.order[i])
    ensures j < i && plan.order[j] == d
  {
    assert DepsEarlier(plan, i);
    j :| 0 <= j < i && plan.order[..i][j] == d;
  }

  // ---- bookkeeping ----------------------------------------------------------------------

  ghost predicate NodeGood(plan: Plan, nodes: seq<NodeStatus>, phases: map<Name, NodePhase>, i: nat)
    requires i < |plan.order| == |nodes|
  {
    && nodes[i].name == plan.order[i]
    && PhaseIn(phases, plan.order[i]) == nodes[i].phase
    && !nodes[i].phase.Unset?
  }

  ghost predicate Lists(plan: Plan, nodes: seq<NodeStatus>) {
    && |nodes| == |plan.order|
    && forall i :: 0 <= i < |nodes| ==> nodes[i].name == plan.order[i] && !nodes[i].phase.Unset?
  }

  /** The phase map mirrors the node list and the counter counts the Running nodes. */
  ghost predicate Good(plan: Plan, p: Progress) {
    && |p.nodes| == |plan.order|
    && (forall i :: 0 <= i < |p.nodes| ==> NodeGood(plan, p.nodes, p.phases, i))
    && p.running == Total(p.nodes, IsRunning)
  }

  lemma {:induction false} TotalUpdate(nodes: seq<NodeStatus>, i: nat, node: NodeStatus, weight: NodePhase -> nat)
    requires i < |nodes|
    ensures Total(nodes[i := node], weight) == Total(nodes, weight) - weight(nodes[i].phase) + weight(node.phase)
    ensures Total(nodes, weight) >= weight(nodes[i].phase)
  {
    var n := |nodes| - 1;
    if i < n {
      TotalUpdate(nodes[..n], i, node, weight);
      assert nodes[i := node][..n] == nodes[..n][i := node];
    } else {
      assert nodes[i := node][..n] == nodes[..n];
    }
  }

  lemma {:induction false} PhaseMapLooksUp(plan: Plan, nodes: seq<NodeStatus>, n: nat)
    requires NoRepeats(plan.order) && n <= |nodes| == |plan.order|
    requires forall i :: 0 <= i < |nodes| ==> nodes[i].name == plan.order[i]
    ensures forall i :: 0 <= i < n ==> PhaseIn(PhaseMap(nodes[..n]), plan.order[i]) == nodes[i].phase
  {
    if n > 0 {
      PhaseMapLooksUp(plan, nodes, n - 1);
      assert nodes[..n][..n - 1] == nodes[..n - 1];
    }
  }

  lemma BeginGood(ctx: Context, nodes: seq<NodeStatus>)
    requires ValidPlan(ctx.plan) && Lists(ctx.plan, nodes)
    ensures Good(ctx.plan, Begin(ctx, nodes))
  {
    PhaseMapLooksUp(ctx.plan, nodes, |nodes|);
    assert nodes[..|nodes|] == nodes;
  }

  lemma SetNodeGood(plan: Plan, p: Progress, i: nat, node: NodeStatus, running: int)
    requires ValidPlan(plan) && Good(plan, p) && i < |p.nodes|
    requires node.name == p.nodes[i].name && !node.phase.Unset?
    requires running == p.running - IsRunning(p.nodes[i].phase) + IsRunning(node.phase)
    ensures Good(plan, SetNode(p, i, node, running))
  {
    var q := SetNode(p, i, node, running);
    TotalUpdate(p.nodes, i, node, IsRunning);
    assert NodeGood(plan, p.nodes, p.phases, i);
    forall j | 0 <= j < |q.nodes|
      ensures NodeGood(plan, q.nodes, q.phases, j)
    {
      assert NodeGood(plan, p.nodes, p.phases, j);
      assert j != i ==> plan.order[j] != plan.order[i];
    }
  }

  // ---- phases only move forward ------------------------------------------------------------

  predicate PhaseForward(a: NodePhase, b: NodePhase) {
    a == b || (a.Pending? && !b.Unset?) || (a.Running? && (b.Succeeded? || b.Failed?))
  }

  ghost predicate Forward(a: seq<NodeStatus>, b: seq<NodeStatus>) {
    && |a| == |b|
    && forall i :: 0 <= i < |a| ==> a[i].name == b[i].name && PhaseForward(a[i].phase, b[i].phase)
  }

  /** A step touches at most one node, moves it forward, and keeps the bookkeeping. */
  ghost predicate StepFrom(plan: Plan, p: Progress, q: Progress, i: nat) {
    && Good(plan, q) && Forward(p.nodes, q.nodes)
    && (forall j :: 0 <= j < |p.nodes| && j != i ==> q.nodes[j] == p.nodes[j])
    && (forall n :: i < |plan.order| && n != plan.order[i] ==> PhaseIn(q.phases, n) == PhaseIn(p.phases, n))
  }

  lemma SyncStep(ctx: Context, p: Progress, i: nat)
    requires ValidPlan(ctx.plan) && Good(ctx.plan, p) && i < |p.nodes|
    ensures StepFrom(ctx.plan, p, SyncAt(ctx, p, i), i)
    ensures SyncAt(ctx, p, i).running <= p.running
    ensures SyncAt(ctx, p, i).nodes[i].phase.Pending? <==> p.nodes[i].phase.Pending?
  {
    var node := p.nodes[i];
    var child := ChildOf(ctx, node.name);
    assert NodeGood(ctx.plan, p.nodes, p.phases, i);
    if node.phase.Running? && child in ctx.children {
      var (next, changed) := Synced(node, child, ctx.children[child]);
      if changed {
        SetNodeGood(ctx.plan, p, i, next, p.running - 1);
        assert SyncAt(ctx, p, i) == SetNode(p, i, next, p.running - 1);
      }
    }
  }

  lemma ScheduleStep(ctx: Context, p: Progress, i: nat)
    requires ValidPlan(ctx.plan) && Good(ctx.plan, p) && i < |p.nodes|
    ensures StepFrom(ctx.plan, p, ScheduleAt(ctx, p, i), i)
    ensures p.running <= ScheduleAt(ctx, p, i).running
    ensures ScheduleAt(ctx, p, i).running == p.running || !NoSlot(ctx.plan, ScheduleAt(ctx, p, i).running - 1)
    ensures ScheduleAt(ctx, p, i).running <= p.running + 1
  {
    var node := p.nodes[i];
    var child := ChildOf(ctx, node.name);
    assert NodeGood(ctx.plan, p.nodes, p.phases, i);
    if node.phase.Pending? {
      var action := Decide(ctx.plan, p.phases, node.name);
      if action.Skip? {
        SetNodeGood(ctx.plan, p, i, SkippedNode(node, action.reason), p.running);
      } else if action.Ready? && !NoSlot(ctx.plan, p.running) {
        var answer := AnswerFor(ctx, child);
        if answer.Created? {
          StartGood(ctx, p, i, FRESH_TASK);
        } else if answer.Adopted? {
          StartGood(ctx, p, i, answer.task);
        }
      }
    }
  }

  lemma StartGood(ctx: Context, p: Progress, i: nat, task: TaskView)
    requires ValidPlan(ctx.plan) && Good(ctx.plan, p) && i < |p.nodes| && p.nodes[i].phase.Pending?
    ensures Good(ctx.plan, StartAt(ctx, p, i, task))
  {
    var child := ChildOf(ctx, p.nodes[i].name);
    var (next, finished) := Synced(Started(p.nodes[i], child), child, task);
    SetNodeGood(ctx.plan, p, i, next, if finished then p.running else p.running + 1);
  }

  lemma ForwardTransitive(a: seq<NodeStatus>, b: seq<NodeStatus>, c: seq<NodeStatus>)
    requires Forward(a, b) && Forward(b, c)
    ensures Forward(a, c)
  {
  }

  lemma {:induction false} SyncPassKeeps(ctx: Context, p: Progress, i: nat)
    requires ValidPlan(ctx.plan) && Good(ctx.plan, p)
    ensures Good(ctx.plan, SyncPass(ctx, p, i)) && Forward(p.nodes, SyncPass(ctx, p, i).nodes)
    ensures SyncPass(ctx, p, i).running <= p.running
    decreases |p.nodes| - i
  {
    if p.halt.Going? && i < |p.nodes| {
      SyncStep(ctx, p, i);
      SyncPassKeeps(ctx, SyncAt(ctx, p, i), i + 1);
      ForwardTransitive(p.nodes, SyncAt(ctx, p, i).nodes, SyncPass(ctx, p, i).nodes);
    }
  }

  function Max(a: int, b: int): int {
    if a > b then a else b
  }

  lemma {:induction false} SchedulePassKeeps(ctx: Context, p: Progress, i: nat)
    requires ValidPlan(ctx.plan) && Good(ctx.plan, p)
    ensures Good(ctx.plan, SchedulePass(ctx, p, i)) && Forward(p.nodes, SchedulePass(ctx, p, i).nodes)
    ensures ctx.plan.maxParallel > 0 ==> SchedulePass(ctx, p, i).running <= Max(p.running, ctx.plan.maxParallel)
    decreases |p.nodes| - i
  {
    if p.halt.Going? && i < |p.nodes| {
      ScheduleStep(ctx, p, i);
      SchedulePassKeeps(ctx, ScheduleAt(ctx, p, i), i + 1);
      ForwardTransitive(p.nodes, ScheduleAt(ctx, p, i).nodes, SchedulePass(ctx, p, i).nodes);
    }
  }

  /** Both passes: bookkeeping, monotone phases, and the maxParallel bound. */
  lemma AdvanceKeeps(ctx: Context, nodes: seq<NodeStatus>)
    requires ValidPlan(ctx.plan) && Lists(ctx.plan, nodes)
    ensures Good(ctx.plan, Advance(ctx, nodes))
    ensures Forward(nodes, Advance(ctx, nodes).nodes)
    ensures ctx.plan.maxParallel > 0 ==>
              Total(Advance(ctx, nodes).nodes, IsRunning) <= Max(Total(nodes, IsRunning), ctx.plan.maxParallel)
  {
    BeginGood(ctx, nodes);
    var p := SyncPass(ctx, Begin(ctx, nodes), 0);
    SyncPassKeeps(ctx, Begin(ctx, nodes), 0);
    SchedulePassKeeps(ctx, p, 0);
    ForwardTransitive(nodes, p.nodes, Advance(ctx, nodes).nodes);
  }

  // ---- the measure 2*Pending + Running --------------------------------------------------------

  function Remaining(p: NodePhase): nat {
    match p
    case Unset => 2
    case Pending => 2
    case Running => 1
    case _ => 0
  }

  /** How many nodes changed phase. */
  function Moves(a: seq<NodeStatus>, b: seq<NodeStatus>): nat
    requires |a| == |b|
  {
    if a == [] then 0
    else
      var n := |a| - 1;
      Moves(a[..n], b[..n]) + if a[n].phase == b[n].phase then 0 else 1
  }

  lemma {:induction false} MovesUseMeasure(a: seq<NodeStatus>, b: seq<NodeStatus>)
    requires Forward(a, b)
    ensures Total(b, Remaining) + Moves(a, b) <= Total(a, Remaining)
  {
    if a != [] {
      var n := |a| - 1;
      MovesUseMeasure(a[..n], b[..n]);
    }
  }

  lemma {:induction false} MeasureBound(nodes: seq<NodeStatus>)
    ensures Total(nodes, Remaining) <= 2 * |nodes|
  {
    if nodes != [] {
      MeasureBound(nodes[..|nodes| - 1]);
    }
  }

  // ---- justified verdicts ------------------------------------------------------------------------

  /** Which terminal phases are justified for a node, and which nodes may run. */
  datatype Verdicts = Verdicts(judged: set<(Name, NodePhase)>, runnable: set<Name>)

  ghost predicate HasSucceeded(v: Verdicts, n: Name) {
    (n, Succeeded) in v.judged
  }

  ghost predicate IsBlocked(v: Verdicts, n: Name) {
    (n, Failed) in v.judged || (n, Skipped) in v.judged
  }

  ghost predicate AllSucceeded(v: Verdicts, deps: seq<Name>) {
    forall d :: d in deps ==> HasSucceeded(v, d)
  }

  ghost predicate AnyBlocked(v: Verdicts, deps: seq<Name>) {
    exists d :: d in deps && IsBlocked(v, d)
  }

  ghost predicate AllJudged(v: Verdicts, deps: seq<Name>) {
    forall d :: d in deps ==> HasSucceeded(v, d) || IsBlocked(v, d)
  }

  /** The rule of the documentation for one node, as a closure condition. */
  ghost predicate ClosedAt(plan: Plan, v: Verdicts, n: Name) {
    var deps := DepsOf(plan, n);
    if n in plan.runOnFailure then
      && (AllSucceeded(v, deps) ==> (n, Skipped) in v.judged)
      && (AllJudged(v, deps) && AnyBlocked(v, deps) ==> n in v.runnable)
    else
      && (AnyBlocked(v, deps) ==> (n, Skipped) in v.judged)
      && (AllSucceeded(v, deps) ==> n in v.runnable)
  }

  ghost predicate Closed(plan: Plan, v: Verdicts) {
    forall n :: n in plan.order ==> ClosedAt(plan, v, n)
  }

  ghost predicate NodeJustified(v: Verdicts, node: NodeStatus) {
    && (IsTerminal(node.phase) ==> (node.name, node.phase) in v.judged)
    && (node.phase.Running? ==> node.name in v.runnable)
  }

  ghost predicate Justified(v: Verdicts, nodes: seq<NodeStatus>) {
    forall i :: 0 <= i < |nodes| ==> NodeJustified(v, nodes[i])
  }

  /** A child Task reports Succeeded or Failed only when that verdict is justified. */
  ghost predicate ViewSound(v: Verdicts, n: Name, task: TaskView) {
    && (task.phase.TaskSucceeded? ==> (n, Succeeded) in v.judged)
    && (task.phase.TaskFailed? ==> (n, Failed) in v.judged)
  }

  ghost predicate NodeViewsSound(v: Verdicts, ctx: Context, n: Name) {
    var child := ChildOf(ctx, n);
    && (child in ctx.children ==> ViewSound(v, n, ctx.children[child]))
    && (AnswerFor(ctx, child).Adopted? ==> ViewSound(v, n, AnswerFor(ctx, child).task))
  }

  ghost predicate ContextSound(v: Verdicts, ctx: Context) {
    forall n :: n in ctx.plan.order ==> NodeViewsSound(v, ctx, n)
  }

  ghost predicate ProgressJustified(v: Verdicts, p: Progress) {
    Justified(v, p.nodes) && Elements(p.created) <= v.runnable
  }

  lemma DecisionJustified(plan: Plan, v: Verdicts, p: Progress, i: nat)
    requires ValidPlan(plan) && Good(plan, p) && i < |p.nodes|
    requires Closed(plan, v) && Justified(v, p.nodes)
    ensures Decide(plan, p.phases, plan.order[i]).Skip? ==> (plan.order[i], Skipped) in v.judged
    ensures Decide(plan, p.phases, plan.order[i]).Ready? ==> plan.order[i] in v.runnable
  {
    var n := plan.order[i];
    var deps := DepsOf(plan, n);
    assert ClosedAt(plan, v, n);
    forall d | d in deps
      ensures Blocked(PhaseIn(p.phases, d)) ==> IsBlocked(v, d)
      ensures PhaseIn(p.phases, d).Succeeded? ==> HasSucceeded(v, d)
    {
      var j := DepIndex(plan, i, d);
      assert NodeGood(plan, p.nodes, p.phases, j) && NodeJustified(v, p.nodes[j]);
    }
    if !SomeUnfinished(deps, p.phases) {
      forall d | d in deps
        ensures HasSucceeded(v, d) || IsBlocked(v, d)
        ensures !SomeBlocked(deps, p.phases) ==> HasSucceeded(v, d)
      {
        assert IsTerminal(PhaseIn(p.phases, d));
      }
    }
  }

  lemma CreatedOneMore(v: Verdicts, created: seq<Name>, n: Name)
    requires Elements(created) <= v.runnable && n in v.runnable
    ensures Elements(created + [n]) <= v.runnable
  {
    ElementsConcat(created, [n]);
  }

  lemma SyncStepJustified(ctx: Context, v: Verdicts, p: Progress, i: nat)
    requires Good(ctx.plan, p) && i < |p.nodes|
    requires ContextSound(v, ctx) && ProgressJustified(v, p)
    ensures ProgressJustified(v, SyncAt(ctx, p, i))
  {
    var node := p.nodes[i];
    assert NodeGood(ctx.plan, p.nodes, p.phases, i) && NodeJustified(v, node);
    assert NodeViewsSound(v, ctx, node.name);
    if node.phase.Running? {
      CreatedOneMore(v, p.created, node.name);
    }
  }

  lemma ScheduleStepJustified(ctx: Context, v: Verdicts, p: Progress, i: nat)
    requires ValidPlan(ctx.plan) && Good(ctx.plan, p) && i < |p.nodes|
    requires Closed(ctx.plan, v) && ContextSound(v, ctx) && ProgressJustified(v, p)
    ensures ProgressJustified(v, ScheduleAt(ctx, p, i))
  {
    var node := p.nodes[i];
    assert NodeGood(ctx.plan, p.nodes, p.phases, i);
    assert NodeViewsSound(v, ctx, node.name);
    DecisionJustified(ctx.plan, v, p, i);
    if node.name in v.runnable {
      CreatedOneMore(v, p.created, node.name);
    }
  }

  lemma {:induction false} SyncPassJustified(ctx: Context, v: Verdicts, p: Progress, i: nat)
    requires ValidPlan(ctx.plan) && Good(ctx.plan, p)
    requires ContextSound(v, ctx) && ProgressJustified(v, p)
    ensures ProgressJustified(v, SyncPass(ctx, p, i))
    decreases |p.nodes| - i
  {
    if p.halt.Going? && i < |p.nodes| {
      SyncStep(ctx, p, i);
      SyncStepJustified(ctx, v, p, i);
      SyncPassJustified(ctx, v, SyncAt(ctx, p, i), i + 1);
    }
  }

  lemma {:induction false} SchedulePassJustified(ctx: Context, v: Verdicts, p: Progress, i: nat)
    requires ValidPlan(ctx.plan) && Good(ctx.plan, p)
    requires Closed(ctx.plan, v) && ContextSound(v, ctx) && ProgressJustified(v, p)
    ensures ProgressJustified(v, SchedulePass(ctx, p, i))
    decreases |p.nodes| - i
  {
    if p.halt.Going? && i < |p.nodes| {
      ScheduleStep(ctx, p, i);
      ScheduleStepJustified(ctx, v, p, i);
      SchedulePassJustified(ctx, v, ScheduleAt(ctx, p, i), i + 1);
    }
  }

  /** Any closed notion of verdict that covers the observations covers everything the passes assign and create. */
  lemma AdvanceJustified(ctx: Context, v: Verdicts, nodes: seq<NodeStatus>)
    requires ValidPlan(ctx.plan) && Lists(ctx.plan, nodes)
    requires Closed(ctx.plan, v) && ContextSound(v, ctx) && Justified(v, nodes)
    ensures ProgressJustified(v, Advance(ctx, nodes))
  {
    BeginGood(ctx, nodes);
    var p := SyncPass(ctx, Begin(ctx, nodes), 0);
    SyncPassJustified(ctx, v, Begin(ctx, nodes), 0);
    SyncPassKeeps(ctx, Begin(ctx, nodes), 0);
    SchedulePassJustified(ctx, v, p, 0);
  }

  // ---- one pass is enough -----------------------------------------------------------------------

  /** A Pending node that a further pass would leave alone. */
  ghost predicate Held(plan: Plan, phases: map<Name, NodePhase>, running: int, node: NodeStatus) {
    node.phase.Pending? ==>
      var action := Decide(plan, phases, node.name);
      action.Wait? || (action.Ready? && NoSlot(plan, running))
  }

  lemma DecideFrame(plan: Plan, a: map<Name, NodePhase>, b: map<Name, NodePhase>, n: Name)
    requires forall d :: d in DepsOf(plan, n) ==> PhaseIn(a, d) == PhaseIn(b, d)
    ensures Decide(plan, a, n).Wait? <==> Decide(plan, b, n).Wait?
    ensures Decide(plan, a, n).Ready? <==> Decide(plan, b, n).Ready?
  {
    var deps := DepsOf(plan, n);
    assert SomeBlocked(deps, a) <==> SomeBlocked(deps, b);
    assert SomeUnfinished(deps, a) <==> SomeUnfinished(deps, b);
  }

  lemma HeldStays(ctx: Context, p: Progress, i: nat, j: nat)
    requires ValidPlan(ctx.plan) && Good(ctx.plan, p) && j < i < |p.nodes|
    requires Held(ctx.plan, p.phases, p.running, p.nodes[j])
    ensures var q := ScheduleAt(ctx, p, i); j < |q.nodes| && Held(ctx.plan, q.phases, q.running, q.nodes[j])
  {
    var q := ScheduleAt(ctx, p, i);
    ScheduleStep(ctx, p, i);
    assert NodeGood(ctx.plan, p.nodes, p.phases, j);
    forall d | d in DepsOf(ctx.plan, ctx.plan.order[j])
      ensures PhaseIn(p.phases, d) == PhaseIn(q.phases, d)
    {
      var k := DepIndex(ctx.plan, j, d);
      assert ctx.plan.order[k] != ctx.plan.order[i];
    }
    DecideFrame(ctx.plan, p.phases, q.phases, ctx.plan.order[j]);
  }

  lemma HeldNow(ctx: Context, p: Progress, i: nat)
    requires ValidPlan(ctx.plan) && Good(ctx.plan, p) && i < |p.nodes|
    requires ScheduleAt(ctx, p, i).halt.Going?
    ensures var q := ScheduleAt(ctx, p, i); i < |q.nodes| && Held(ctx.plan, q.phases, q.running, q.nodes[i])
  {
    assert NodeGood(ctx.plan, p.nodes, p.phases, i);
  }

  lemma {:induction false} SchedulePassHolds(ctx: Context, p: Progress, i: nat)
    requires ValidPlan(ctx.plan) && Good(ctx.plan, p) && i <= |p.nodes|
    requires forall j :: 0 <= j < i ==> Held(ctx.plan, p.phases, p.running, p.nodes[j])
    requires SchedulePass(ctx, p, i).halt.Going?
    ensures var q := SchedulePass(ctx, p, i);
            forall j :: 0 <= j < |q.nodes| ==> Held(ctx.plan, q.phases, q.running, q.nodes[j])
    decreases |p.nodes| - i
  {
    if p.halt.Going? && i < |p.nodes| {
      var q := ScheduleAt(ctx, p, i);
      ScheduleStep(ctx, p, i);
      StillGoing(ctx, q, i + 1);
      HeldNow(ctx, p, i);
      forall j | 0 <= j < i + 1
        ensures Held(ctx.plan, q.phases, q.running, q.nodes[j])
      {
        if j < i {
          HeldStays(ctx, p, i, j);
        }
      }
      SchedulePassHolds(ctx, q, i + 1);
    }
  }

  lemma StillGoing(ctx: Context, p: Progress, i: nat)
    ensures SchedulePass(ctx, p, i).halt.Going? ==> p.halt.Going?
    ensures SyncPass(ctx, p, i).halt.Going? ==> p.halt.Going?
  {
  }

  /** After a completed advance every Pending node waits for a dependency or for a slot. */
  lemma AdvanceHolds(ctx: Context, nodes: seq<NodeStatus>)
    requires ValidPlan(ctx.plan) && Lists(ctx.plan, nodes)
    requires Advance(ctx, nodes).halt.Going?
    ensures var q := Advance(ctx, nodes);
            forall j :: 0 <= j < |q.nodes| ==> Held(ctx.plan, q.phases, q.running, q.nodes[j])
  {
    BeginGood(ctx, nodes);
    SyncPassKeeps(ctx, Begin(ctx, nodes), 0);
    SchedulePassHolds(ctx, SyncPass(ctx, Begin(ctx, nodes), 0), 0);
  }

  /** With no Running node left, a held Pending node is impossible: the plan cannot deadlock. */
  lemma NoDeadlock(plan: Plan, p: Progress)
    requires ValidPlan(plan) && Good(plan, p)
    requires forall j :: 0 <= j < |p.nodes| ==> Held(plan, p.phases, p.running, p.nodes[j])
    ensures AllTerminal(p.nodes) || exists j :: 0 <= j < |p.nodes| && p.nodes[j].phase.Running?
  {
    if !AllTerminal(p.nodes) && !(exists j :: 0 <= j < |p.nodes| && p.nodes[j].phase.Running?) {
      NoneRunning(p.nodes);
      var k := FirstUnfinished(p.nodes);
      assert NodeGood(plan, p.nodes, p.phases, k);
      assert Held(plan, p.phases, p.running, p.nodes[k]);
      forall d | d in DepsOf(plan, plan.order[k])
        ensures IsTerminal(PhaseIn(p.phases, d))
      {
        var j := DepIndex(plan, k, d);
        assert NodeGood(plan, p.nodes, p.phases, j);
      }
      assert false;
    }
  }

  lemma {:induction false} NoneRunning(nodes: seq<NodeStatus>)
    requires forall j :: 0 <= j < |nodes| ==> !nodes[j].phase.Running?
    ensures Total(nodes, IsRunning) == 0
  {
    if nodes != [] {
      NoneRunning(nodes[..|nodes| - 1]);
    }
  }

  lemma {:induction false} FirstUnfinished(nodes: seq<NodeStatus>) returns (k: nat)
    requires !AllTerminal(nodes)
    ensures k < |nodes| && !IsTerminal(nodes[k].phase) && AllTerminal(nodes[..k])
    ensures forall j :: 0 <= j < k ==> IsTerminal(nodes[j].phase)
  {
    var n := |nodes| - 1;
    if AllTerminal(nodes[..n]) {
      k := n;
      assert forall j :: 0 <= j < n ==> IsTerminal(nodes[..n][j].phase);
    } else {
      k := FirstUnfinished(nodes[..n]);
      assert nodes[..n][..k] == nodes[..k];
      assert forall j :: 0 <= j < k ==> IsTerminal(nodes[..n][j].phase);
    }
  }
}
