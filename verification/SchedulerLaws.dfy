/** What a reconcile writes, stated on the status alone. */
module SchedulerLaws {
  import opened Names
  import opened Scheduler
  import opened SchedulerInvariants
  import opened SchedulerRuns
  import opened SchedulerProgress
  import Dag

  // ---- one written reconcile --------------------------------------------------------------------

  /** The Workflow is still to be scheduled: it has no conclusion, or its spec was rejected before any node was listed
      and has been edited since. */
  predicate Open(a: Life) {
    || (!a.status.phase.WfSucceeded? && !a.status.phase.WfFailed?)
    || (a.status.phase.WfFailed? && a.status.nodes == [] && a.status.observedGeneration != a.generation)
  }

  /** An open Workflow is scheduled by its current spec, or failed with the reason its spec was rejected for. */
  lemma OpenIsActedOn(a: Life, ctx: Context, b: Life)
    requires SoundBuild(a.build) && LifeStep(a, Written(ctx), b) && Open(a)
    ensures a.build.Valid? ==>
              && Lists(a.build.plan, b.status.nodes) && b.status.observedGeneration == a.generation && b.status.started
              && (b.status.phase.WfRunning? || b.status.phase.WfSucceeded? || b.status.phase.WfFailed?)
              && (b.status.phase.WfRunning? ==> exists i :: 0 <= i < |b.status.nodes| && !IsTerminal(b.status.nodes[i].phase))
              && (b.status.phase.WfRunning? && !a.status.phase.WfRunning? ==> b.status.message == "" && !b.status.completed)
    ensures a.build.Invalid? ==>
              && b.ever == a.ever
              && b.status == a.status.(phase := WfFailed, message := a.build.message, completed := true,
                                       observedGeneration := a.generation)
  {
    assert a.ever + Elements<Name>([]) == a.ever;
    if a.build.Valid? {
      GraphLaw(ctx.(plan := a.build.plan), a.status, a.generation);
    }
  }

  lemma GraphLaw(ctx: Context, s: Status, generation: int)
    requires ValidPlan(ctx.plan) && !ReconcileGraph(ctx, s, generation).halt.Aborted?
    ensures var t := Stored(s, ReconcileGraph(ctx, s, generation));
            && Lists(ctx.plan, t.nodes) && t.observedGeneration == generation && t.started
            && (t.phase.WfRunning? || t.phase.WfSucceeded? || t.phase.WfFailed?)
            && (t.phase.WfRunning? ==> exists i :: 0 <= i < |t.nodes| && !IsTerminal(t.nodes[i].phase))
            && (t.phase.WfRunning? && !s.phase.WfRunning? ==> t.message == "" && !t.completed)
  {
    var e := ReconcileGraph(ctx, s, generation);
    var before := Listed(ctx.plan, s.nodes);
    AlwaysListed(ctx.plan, s.nodes);
    AdvanceKeeps(ctx, before);
    GoodLists(ctx.plan, Advance(ctx, before));
    GraphStatus(ctx, s, generation, Advance(ctx, before));
    GraphStamps(ctx, s, generation);
    if !e.write {
      UnwrittenUnchanged(ctx, s, generation);
    }
    if !IsWorkflowTerminal(e.status.phase) {
      RunningStatus(ctx, s, generation);
      assert !AllTerminal(e.status.nodes);
    }
  }

  /** How the stamps of s relate to those of a later status t. */
  ghost predicate Stamps(s: Status, t: Status) {
    && t.started
    && (IsWorkflowTerminal(t.phase) ==> t.completed)
    && (t.phase.WfRunning? ==>
          if s.phase.WfRunning? then t.message == s.message && t.completed == s.completed
          else t.message == "" && !t.completed)
    && (t.phase.WfRunning? || IsWorkflowTerminal(t.phase))
  }

  lemma InitializedStamps(s: Status, generation: int, order: seq<Name>)
    ensures Stamps(s, Initialized(s, generation, order)) && Initialized(s, generation, order).phase.WfRunning?
  {
  }

  lemma AdvancedStamps(ctx: Context, s: Status, t: Status, p: Progress)
    requires Stamps(s, t) && t.phase.WfRunning?
    ensures Stamps(s, Advanced(ctx, t, p))
  {
  }

  lemma SummarizedStamps(s: Status, t: Status)
    requires Stamps(s, t)
    ensures Stamps(s, Summarized(t))
  {
  }

  lemma GraphStamps(ctx: Context, s: Status, generation: int)
    requires !ReconcileGraph(ctx, s, generation).halt.Aborted?
    ensures Stamps(s, ReconcileGraph(ctx, s, generation).status)
  {
    var init := Initialized(s, generation, ctx.plan.order);
    var p := Advance(ctx, init.nodes);
    InitializedStamps(s, generation, ctx.plan.order);
    AdvancedStamps(ctx, s, init, p);
    SummarizedStamps(s, Advanced(ctx, init, p));
  }

  /** A concluded Workflow that is not open at most notes the generation of an edited spec. */
  lemma ClosedIsKept(a: Life, ctx: Context, b: Life)
    requires SoundBuild(a.build) && LifeStep(a, Written(ctx), b) && !Open(a)
    ensures b == a.(status := a.status.(observedGeneration := a.generation))
  {
    assert a.ever + Elements<Name>([]) == a.ever;
  }

  /** The completion time is set exactly while there is a conclusion, and the start time before any node is listed. */
  ghost predicate Stamped(s: Status) {
    && (s.completed <==> s.phase.WfSucceeded? || s.phase.WfFailed?)
    && (s.nodes != [] ==> s.started)
    && (s.phase.WfRunning? ==> s.message == "")
  }

  /** In every life the status is stamped. */
  lemma {:induction false} StatusIsStamped(lives: seq<Life>, events: seq<LifeEvent>, i: nat)
    requires LifeRun(lives, events) && i < |lives|
    ensures Stamped(lives[i].status)
  {
    if i > 0 {
      StatusIsStamped(lives, events, i - 1);
      LifeSound(lives, events, i - 1);
      assert LifeStepAt(lives, events, i - 1);
      StampedStep(lives[i - 1], events[i - 1], lives[i]);
    }
  }

  lemma StampedStep(a: Life, event: LifeEvent, b: Life)
    requires SoundBuild(a.build) && LifeStep(a, event, b) && Stamped(a.status)
    ensures Stamped(b.status)
  {
    if event.Written? {
      if !Open(a) {
        ClosedIsKept(a, event.ctx, b);
      } else {
        OpenIsActedOn(a, event.ctx, b);
        if a.build.Valid? {
          GraphStamps(event.ctx.(plan := a.build.plan), a.status, a.generation);
        }
      }
    }
  }

  // ---- the node list after a spec edit -------------------------------------------------------------

  ghost predicate DistinctNodes(nodes: seq<NodeStatus>) {
    forall i, j :: 0 <= i < j < |nodes| ==> nodes[i].name != nodes[j].name
  }

  lemma {:induction false} ExistingFinds(nodes: seq<NodeStatus>, k: nat)
    requires DistinctNodes(nodes) && k < |nodes|
    ensures nodes[k].name in ExistingNodes(nodes) && ExistingNodes(nodes)[nodes[k].name] == nodes[k]
  {
    var n := |nodes| - 1;
    if k < n {
      ExistingFinds(nodes[..n], k);
    }
  }

  lemma {:induction false} ExistingIsListed(nodes: seq<NodeStatus>, name: Name)
    requires name in ExistingNodes(nodes)
    ensures exists k :: 0 <= k < |nodes| && nodes[k].name == name
  {
    var n := |nodes| - 1;
    if nodes[n].name != name {
      ExistingIsListed(nodes[..n], name);
      var k :| 0 <= k < n && nodes[..n][k].name == name;
      assert nodes[k].name == name;
    }
  }

  /** However the spec was edited: a node that was listed stays as it was, a new one is Pending, and nothing else is
      listed, all in the order of the new plan. */
  lemma EditKeepsNodes(s: Status, generation: int, order: seq<Name>, i: nat)
    requires DistinctNodes(s.nodes) && i < |order|
    ensures var nodes := Initialized(s, generation, order).nodes;
            && |nodes| == |order|
            && (forall k :: 0 <= k < |s.nodes| && s.nodes[k].name == order[i] && !s.nodes[k].phase.Unset? ==>
                  nodes[i] == s.nodes[k])
            && ((forall k :: 0 <= k < |s.nodes| ==> s.nodes[k].name != order[i]) ==>
                  nodes[i] == NodeStatus(order[i], Pending, Name(""), ""))
  {
    forall k | 0 <= k < |s.nodes| && s.nodes[k].name == order[i]
      ensures order[i] in ExistingNodes(s.nodes) && ExistingNodes(s.nodes)[order[i]] == s.nodes[k]
    {
      ExistingFinds(s.nodes, k);
    }
    if order[i] in ExistingNodes(s.nodes) {
      ExistingIsListed(s.nodes, order[i]);
    }
  }

  // ---- what the nodes say ----------------------------------------------------------------------------

  /** A started node names its child Task, the others name none. */
  ghost predicate Named(workflow: Name, node: NodeStatus) {
    node.taskName ==
      if node.phase.Running? || node.phase.Succeeded? || node.phase.Failed?
      then Dag.ChildTaskName(workflow, node.name) else Name("")
  }

  ghost predicate AllNamed(workflow: Name, nodes: seq<NodeStatus>) {
    forall i :: 0 <= i < |nodes| ==> Named(workflow, nodes[i])
  }

  lemma {:induction false} SyncPassNamed(ctx: Context, p: Progress, i: nat)
    requires AllNamed(ctx.workflow, p.nodes)
    ensures AllNamed(ctx.workflow, SyncPass(ctx, p, i).nodes)
    decreases |p.nodes| - i
  {
    if p.halt.Going? && i < |p.nodes| {
      assert Named(ctx.workflow, p.nodes[i]);
      SyncPassNamed(ctx, SyncAt(ctx, p, i), i + 1);
    }
  }

  lemma {:induction false} SchedulePassNamed(ctx: Context, p: Progress, i: nat)
    requires AllNamed(ctx.workflow, p.nodes)
    ensures AllNamed(ctx.workflow, SchedulePass(ctx, p, i).nodes)
    decreases |p.nodes| - i
  {
    if p.halt.Going? && i < |p.nodes| {
      assert Named(ctx.workflow, p.nodes[i]);
      SchedulePassNamed(ctx, ScheduleAt(ctx, p, i), i + 1);
    }
  }

  lemma AdvanceNamed(ctx: Context, nodes: seq<NodeStatus>)
    requires AllNamed(ctx.workflow, nodes)
    ensures AllNamed(ctx.workflow, Advance(ctx, nodes).nodes)
  {
    SyncPassNamed(ctx, Begin(ctx, nodes), 0);
    SchedulePassNamed(ctx, SyncPass(ctx, Begin(ctx, nodes), 0), 0);
  }

  lemma EffectNamed(sys: System, w: World, ctx: Context)
    requires ctx.workflow == sys.workflow && ctx.plan == sys.plan
    requires AllNamed(sys.workflow, w.status.nodes) && AllNamed(sys.workflow, Listed(sys.plan, w.status.nodes))
    ensures !EffectOf(sys, w, ctx).halt.Aborted? ==> AllNamed(sys.workflow, EffectOf(sys, w, ctx).status.nodes)
  {
    assert ctx.(plan := sys.plan) == ctx;
    var before := Listed(sys.plan, w.status.nodes);
    AdvanceNamed(ctx, before);
    GraphStatus(ctx, w.status, sys.generation, Advance(ctx, before));
  }

  lemma StepNamed(sys: System, good: set<Name>, w: World, event: Event, w': World)
    requires ValidPlan(sys.plan) && Confluent(sys, good, w) && Step(sys, good, w, event, w')
    requires AllNamed(sys.workflow, w.status.nodes)
    ensures AllNamed(sys.workflow, w'.status.nodes)
  {
    if event.Controller? {
      ListedNodes(sys.plan, w.status.nodes);
      assert AllNamed(sys.workflow, Listed(sys.plan, w.status.nodes));
      EffectNamed(sys, w, event.ctx);
    }
  }

  /** In every run exactly the nodes that were started name their child Task. */
  lemma {:induction false} StartedNodesAreNamed(sys: System, good: set<Name>, worlds: seq<World>, events: seq<Event>, i: nat)
    requires ValidPlan(sys.plan) && Run(sys, good, worlds, events) && i < |worlds|
    ensures AllNamed(sys.workflow, worlds[i].status.nodes)
  {
    if i > 0 {
      StartedNodesAreNamed(sys, good, worlds, events, i - 1);
      RunConfluent(sys, good, worlds, events, i - 1);
      assert StepAt(sys, good, worlds, events, i - 1);
      StepNamed(sys, good, worlds[i - 1], events[i - 1], worlds[i]);
    }
  }

  /** A skipped normal node names the first dependency, in the order of its list, that ended badly. */
  lemma SkipNamesFirst(plan: Plan, phases: map<Name, NodePhase>, n: Name) returns (k: nat)
    requires n !in plan.runOnFailure && Decide(plan, phases, n).Skip?
    ensures var deps := DepsOf(plan, n);
            && k < |deps| && (PhaseIn(phases, deps[k]).Failed? || PhaseIn(phases, deps[k]).Skipped?)
            && (forall j :: 0 <= j < k ==> !PhaseIn(phases, deps[j]).Failed? && !PhaseIn(phases, deps[j]).Skipped?)
            && Decide(plan, phases, n).reason == "dependency \"" + deps[k].text + "\" did not succeed"
  {
    var deps := DepsOf(plan, n);
    FirstBlockedFinds(deps, phases);
    k := FirstBlockedAt(deps, phases);
  }

  lemma {:induction false} FirstBlockedAt(deps: seq<Name>, phases: map<Name, NodePhase>) returns (k: nat)
    requires FirstBlocked(deps, phases).Some?
    ensures k < |deps| && Blocked(PhaseIn(phases, deps[k])) && FirstBlocked(deps, phases) == Dag.Some(deps[k])
    ensures forall j :: 0 <= j < k ==> !Blocked(PhaseIn(phases, deps[j]))
  {
    k := 0;
    if !Blocked(PhaseIn(phases, deps[0])) {
      k := FirstBlockedAt(deps[1..], phases);
      assert forall j :: 0 < j < k + 1 ==> deps[j] == deps[1..][j - 1];
      k := k + 1;
    }
  }

  /** The passes stop for a name conflict only at a child that is somebody else's. */
  ghost predicate ConflictSound(ctx: Context, p: Progress) {
    p.halt.NameConflict? ==>
      AnswerFor(ctx, p.halt.child).Conflict? && exists i :: 0 <= i < |p.nodes| && p.halt.child == ChildOf(ctx, p.nodes[i].name)
  }

  lemma {:induction false} SyncPassConflict(ctx: Context, p: Progress, i: nat)
    requires ConflictSound(ctx, p)
    ensures ConflictSound(ctx, SyncPass(ctx, p, i))
    decreases |p.nodes| - i
  {
    if p.halt.Going? && i < |p.nodes| {
      var q := SyncAt(ctx, p, i);
      assert q.halt.NameConflict? ==> q.halt.child == ChildOf(ctx, q.nodes[i].name);
      SyncPassConflict(ctx, q, i + 1);
    }
  }

  lemma {:induction false} SchedulePassConflict(ctx: Context, p: Progress, i: nat)
    requires ConflictSound(ctx, p)
    ensures ConflictSound(ctx, SchedulePass(ctx, p, i))
    decreases |p.nodes| - i
  {
    if p.halt.Going? && i < |p.nodes| {
      var q := ScheduleAt(ctx, p, i);
      assert q.halt.NameConflict? ==> q.halt.child == ChildOf(ctx, q.nodes[i].name);
      SchedulePassConflict(ctx, q, i + 1);
    }
  }

  /** A name conflict fails the Workflow for good, names the child, and means that a Task of that name belongs to
      somebody else. */
  lemma ConflictFails(ctx: Context, s: Status, generation: int)
    requires ReconcileGraph(ctx, s, generation).halt.NameConflict?
    ensures var e := ReconcileGraph(ctx, s, generation);
            && e.write && e.status.phase == WfFailed && e.status.completed
            && AnswerFor(ctx, e.halt.child) == Conflict
            && (exists i :: 0 <= i < |e.status.nodes| && e.halt.child == ChildOf(ctx, e.status.nodes[i].name))
            && e.status.message == "child task name conflict: task \"" + e.halt.child.text
                                   + "\" already exists and is not controlled by workflow \"" + ctx.workflow.text + "\""
  {
    var before := Listed(ctx.plan, s.nodes);
    SyncPassConflict(ctx, Begin(ctx, before), 0);
    SchedulePassConflict(ctx, SyncPass(ctx, Begin(ctx, before), 0), 0);
    GraphStatus(ctx, s, generation, Advance(ctx, before));
    ConflictStatus(ctx, Initialized(s, generation, ctx.plan.order), Advance(ctx, before));
  }

  lemma ConflictStatus(ctx: Context, s: Status, p: Progress)
    requires p.halt.NameConflict? && s.phase.WfRunning?
    ensures var t := Summarized(Advanced(ctx, s, p));
            && t.phase.WfFailed? && t.completed && Advanced(ctx, s, p).phase.WfFailed?
            && t.message == "child task name conflict: task \"" + p.halt.child.text
                            + "\" already exists and is not controlled by workflow \"" + ctx.workflow.text + "\""
  {
  }

  /** A failed child passes on its message, or is named. */
  lemma FailureIsExplained(node: NodeStatus, child: Name, task: TaskView)
    requires task.phase.TaskFailed?
    ensures var next := Synced(node, child, task).0;
            && next.name == node.name && next.phase.Failed?
            && next.message == if task.message == "" then "task " + child.text + " failed" else task.message
  {
  }

  /** The failed nodes are listed once each, in order, separated by commas. */
  lemma ConclusionListsFailed(front: seq<NodeStatus>, last: NodeStatus)
    ensures var names := FailedNames(front);
            FailedNames(front + [last]) == if last.phase.Failed? then names + [last.name] else names
    ensures forall names: seq<Name>, n: Name {:trigger Join(names + [n])} ::
              Join(names + [n]) == if names == [] then n.text else Join(names) + ", " + n.text
  {
    assert (front + [last])[..|front|] == front;
    forall names: seq<Name>, n: Name
      ensures Join(names + [n]) == if names == [] then n.text else Join(names) + ", " + n.text
    {
      JoinOneMore(names, n);
    }
  }

  lemma {:induction false} JoinOneMore(names: seq<Name>, n: Name)
    ensures Join(names + [n]) == if names == [] then n.text else Join(names) + ", " + n.text
  {
    if |names| > 0 {
      assert (names + [n])[1..] == names[1..] + [n];
      JoinOneMore(names[1..], n);
    }
  }
}
