/** Every run that keeps making observable progress concludes, and concludes with the denoted phases. */
module SchedulerLiveness {
  import opened Names
  import opened Scheduler
  import opened SchedulerInvariants
  import opened SchedulerRuns
  import opened SchedulerProgress
  import Dag

  /** A completed reconcile whose status is written, if it needs to be, and which finds nothing Running or lists a
      finished child of some Running node; whatever else it reads, and whatever happens meanwhile. */
  ghost predicate Productive(sys: System, w: World, event: Event) {
    && event.Controller?
    && !EffectOf(sys, w, event.ctx).halt.Aborted?
    && event.written == EffectOf(sys, w, event.ctx).write
    && Informed(event.ctx, w.status.nodes)
  }

  /** Nothing is Running, or some Running node's child is listed finished. */
  ghost predicate Informed(ctx: Context, nodes: seq<NodeStatus>) {
    (exists node :: node in nodes && node.phase.Running?) ==>
      exists node :: node in nodes && node.phase.Running? && ListedFinished(ctx, node)
  }

  ghost predicate ListedFinished(ctx: Context, node: NodeStatus) {
    var c := ChildOf(ctx, node.name);
    c in ctx.children && Finished(ctx.children[c])
  }

  /** How many of the first k events of a run are productive. */
  ghost function Rounds(sys: System, worlds: seq<World>, events: seq<Event>, k: nat): nat
    requires k <= |events| < |worlds|
  {
    if k == 0 then 0
    else Rounds(sys, worlds, events, k - 1) + Counted(sys, worlds[k - 1], events[k - 1])
  }

  // ---- a listed finished child moves its node ------------------------------------------------------

  lemma {:induction false} SyncPassMoves(ctx: Context, p: Progress, i: nat, j: nat)
    requires ValidPlan(ctx.plan) && Good(ctx.plan, p) && i <= j < |p.nodes|
    requires p.nodes[j].phase.Running? && ListedFinished(ctx, p.nodes[j])
    requires SyncPass(ctx, p, i).halt.Going?
    ensures var q := SyncPass(ctx, p, i);
            j < |q.nodes| && IsTerminal(q.nodes[j].phase)
    decreases |p.nodes| - i
  {
    var q := SyncAt(ctx, p, i);
    StillGoing(ctx, p, i);
    SyncStep(ctx, p, i);
    if i < j {
      SyncPassMoves(ctx, q, i + 1, j);
    } else {
      SyncPassKeeps(ctx, q, i + 1);
    }
  }

  lemma AdvanceMoves(ctx: Context, nodes: seq<NodeStatus>, j: nat)
    requires ValidPlan(ctx.plan) && SchedulerInvariants.Lists(ctx.plan, nodes) && j < |nodes|
    requires nodes[j].phase.Running? && ListedFinished(ctx, nodes[j])
    requires Advance(ctx, nodes).halt.Going?
    ensures var q := Advance(ctx, nodes);
            j < |q.nodes| && q.nodes[j].phase != nodes[j].phase
  {
    var p := SyncPass(ctx, Begin(ctx, nodes), 0);
    BeginGood(ctx, nodes);
    SyncPassKeeps(ctx, Begin(ctx, nodes), 0);
    StillGoing(ctx, p, 0);
    SyncPassMoves(ctx, Begin(ctx, nodes), 0, j);
    SchedulePassKeeps(ctx, p, 0);
  }

  lemma AdvanceNotSilent(ctx: Context, nodes: seq<NodeStatus>)
    ensures Advance(ctx, nodes).changed || Advance(ctx, nodes).nodes == nodes
  {
    SyncPassNotSilent(ctx, Begin(ctx, nodes), 0);
    SchedulePassNotSilent(ctx, SyncPass(ctx, Begin(ctx, nodes), 0), 0);
  }

  // ---- a productive reconcile concludes or moves a node -------------------------------------------

  lemma {:induction false} MovesPositive(a: seq<NodeStatus>, b: seq<NodeStatus>, j: nat)
    requires |a| == |b| && j < |a| && a[j].phase != b[j].phase
    ensures Moves(a, b) > 0
  {
    var n := |a| - 1;
    if j < n {
      MovesPositive(a[..n], b[..n], j);
    }
  }

  /** A graph reconcile that concludes must write. */
  lemma ConclusionWritten(ctx: Context, s: Status, generation: int)
    requires !ReconcileGraph(ctx, s, generation).halt.Aborted?
    ensures var e := ReconcileGraph(ctx, s, generation);
            && (IsWorkflowTerminal(e.status.phase) ==> e.write)
            && (Advance(ctx, Listed(ctx.plan, s.nodes)).changed ==> e.write)
  {
  }

  /** If the Workflow does not conclude, some node changes phase. */
  lemma SomeNodeMoves(sys: System, w: World, ctx: Context) returns (j: nat)
    requires ValidPlan(sys.plan) && EmptyOrListed(sys.plan, w.status.nodes) && ctx.plan == sys.plan
    requires Informed(ctx, w.status.nodes)
    requires ReconcileGraph(ctx, w.status, sys.generation).halt.Going?
    requires !IsWorkflowTerminal(ReconcileGraph(ctx, w.status, sys.generation).status.phase)
    ensures var before := Listed(sys.plan, w.status.nodes);
            var after := Advance(ctx, before).nodes;
            j < |before| == |after| && before[j].phase != after[j].phase
  {
    var before := Listed(sys.plan, w.status.nodes);
    ListedNodes(sys.plan, w.status.nodes);
    AdvanceKeeps(ctx, before);
    var q := Advance(ctx, before);
    GraphStatus(ctx, w.status, sys.generation, q);
    if node :| node in w.status.nodes && node.phase.Running? && ListedFinished(ctx, node) {
      j :| 0 <= j < |before| && before[j] == node;
      AdvanceMoves(ctx, before, j);
    } else {
      AdvanceSettles(ctx, before);
      NoDeadlock(sys.plan, q);
      j :| 0 <= j < |q.nodes| && q.nodes[j].phase.Running?;
      assert w.status.nodes != [] ==> before[j] in w.status.nodes;
    }
  }

  lemma ProductiveStep(sys: System, good: set<Name>, w: World, event: Event, w': World)
    requires ValidPlan(sys.plan) && Confluent(sys, good, w) && Step(sys, good, w, event, w')
    requires Productive(sys, w, event) && !IsWorkflowTerminal(w.status.phase) && !IsWorkflowTerminal(w'.status.phase)
    ensures Left(sys.plan, w') < Left(sys.plan, w)
  {
    var ctx := event.ctx;
    var before := Listed(sys.plan, w.status.nodes);
    ListedNodes(sys.plan, w.status.nodes);
    assert ctx.(plan := sys.plan) == ctx;
    var q := Advance(ctx, before);
    AdvanceNotSilent(ctx, before);
    GraphStatus(ctx, w.status, sys.generation, q);
    ConclusionWritten(ctx, w.status, sys.generation);
    var j := SomeNodeMoves(sys, w, ctx);
    GraphForward(ctx, w.status.nodes, q.nodes);
    AdvanceKeeps(ctx, before);
    GoodLists(sys.plan, q);
    ListedNodes(sys.plan, q.nodes);
    MovesPositive(before, q.nodes, j);
    MovesUseMeasure(before, q.nodes);
  }

  // ---- conclusion ------------------------------------------------------------------------------------

  /** A concluded Workflow has listed its nodes, so nothing can start it again. */
  lemma {:induction false} ConcludedIsFinal(sys: System, good: set<Name>, worlds: seq<World>, events: seq<Event>, i: nat)
    requires ValidPlan(sys.plan) && Run(sys, good, worlds, events) && i < |worlds|
    ensures IsWorkflowTerminal(worlds[i].status.phase) ==> worlds[i].status.nodes != []
    ensures i > 0 && IsWorkflowTerminal(worlds[i - 1].status.phase) ==>
              worlds[i].status.phase == worlds[i - 1].status.phase
  {
    if i > 0 {
      ConcludedIsFinal(sys, good, worlds, events, i - 1);
      assert StepAt(sys, good, worlds, events, i - 1);
      ConcludedStep(sys, good, worlds[i - 1], events[i - 1], worlds[i]);
    }
  }

  lemma ConcludedStep(sys: System, good: set<Name>, w: World, event: Event, w': World)
    requires ValidPlan(sys.plan) && Step(sys, good, w, event, w')
    requires IsWorkflowTerminal(w.status.phase) ==> w.status.nodes != []
    ensures IsWorkflowTerminal(w'.status.phase) ==> w'.status.nodes != []
    ensures IsWorkflowTerminal(w.status.phase) ==> w'.status.phase == w.status.phase
  {
    if event.Controller? && event.written && !IsWorkflowTerminal(w.status.phase) {
      assert event.ctx.(plan := sys.plan) == event.ctx;
      GraphListsNodes(event.ctx, w.status, sys.generation);
    }
  }

  ghost function Counted(sys: System, w: World, event: Event): nat {
    if Productive(sys, w, event) then 1 else 0
  }

  lemma CountedStep(sys: System, good: set<Name>, worlds: seq<World>, events: seq<Event>, k: nat)
    requires ValidPlan(sys.plan) && Run(sys, good, worlds, events) && k < |events|
    requires !IsWorkflowTerminal(worlds[k].status.phase) && !IsWorkflowTerminal(worlds[k + 1].status.phase)
    ensures Left(sys.plan, worlds[k + 1]) + Counted(sys, worlds[k], events[k]) <= Left(sys.plan, worlds[k])
  {
    RunConfluent(sys, good, worlds, events, k);
    assert StepAt(sys, good, worlds, events, k);
    if Productive(sys, worlds[k], events[k]) {
      ProductiveStep(sys, good, worlds[k], events[k], worlds[k + 1]);
    } else {
      RunStepMoves(sys, good, worlds, events, k);
    }
  }

  /** Every productive reconcile before the conclusion uses up part of the measure. */
  lemma {:induction false} RoundsUseMeasure(sys: System, good: set<Name>, worlds: seq<World>, events: seq<Event>, i: nat)
    requires ValidPlan(sys.plan) && Run(sys, good, worlds, events) && i < |worlds|
    ensures IsWorkflowTerminal(worlds[i].status.phase)
            || Rounds(sys, worlds, events, i) + Left(sys.plan, worlds[i]) <= 2 * |sys.plan.order|
  {
    if i == 0 {
      LeftBound(sys.plan, worlds[0]);
    } else if !IsWorkflowTerminal(worlds[i].status.phase) {
      ConcludedIsFinal(sys, good, worlds, events, i);
      RoundsUseMeasure(sys, good, worlds, events, i - 1);
      CountedStep(sys, good, worlds, events, i - 1);
    }
  }

  /** Termination: more than 2N productive reconciles, however interleaved with deletions, aborts and lost writes,
      conclude a Workflow of N nodes; without a name conflict every node then has its denoted phase. */
  lemma Concludes(sys: System, good: set<Name>, worlds: seq<World>, events: seq<Event>, i: nat)
    requires ValidPlan(sys.plan) && Run(sys, good, worlds, events) && i < |worlds|
    requires Rounds(sys, worlds, events, i) > 2 * |sys.plan.order|
    ensures IsWorkflowTerminal(worlds[i].status.phase)
    ensures !worlds[i].conflicted ==>
              (worlds[i].status.phase.WfSucceeded? <==>
                 forall n :: n in sys.plan.order ==> !Den(sys.plan, good, n).Failed?)
    ensures !worlds[i].conflicted ==>
              forall j :: 0 <= j < |sys.plan.order| ==> DenotedAt(sys, good, worlds[i], j)
  {
    RoundsUseMeasure(sys, good, worlds, events, i);
    if !worlds[i].conflicted {
      ConclusionIsDenoted(sys, good, worlds, events, i);
    }
  }
}
