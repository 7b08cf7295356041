/** Progress of undisturbed reconciles: no deadlock, one-pass fixpoint, idempotence, one-shot execution. */
module SchedulerProgress {
  import opened Names
  import opened Scheduler
  import opened SchedulerInvariants
  import opened SchedulerRuns
  import Dag

  // ---- an undisturbed reconcile reads the server as it is ------------------------------------

  predicate Finished(view: TaskView) {
    view.phase.TaskSucceeded? || view.phase.TaskFailed?
  }

  /** How a linearizable server answers a create. */
  function ServerAnswer(tasks: map<Name, TaskObject>, child: Name): CreateAnswer {
    if child !in tasks then Created
    else if tasks[child].mine then Adopted(tasks[child].view)
    else Conflict
  }

  ghost function Undisturbed(sys: System, tasks: map<Name, TaskObject>): Context {
    Context(sys.workflow, sys.plan, true,
            map c | c in Mine(tasks) :: tasks[c].view,
            map c | c in ChildNames(sys.workflow, Elements(sys.plan.order)) :: ServerAnswer(tasks, c))
  }

  lemma UndisturbedAnswers(sys: System, tasks: map<Name, TaskObject>, n: Name)
    requires n in sys.plan.order
    ensures var child := Dag.ChildTaskName(sys.workflow, n);
            AnswerFor(Undisturbed(sys, tasks), child) == ServerAnswer(tasks, child)
  {
    ChildNamesMember(sys.workflow, Elements(sys.plan.order), n);
  }

  /** The server after the creates of one reconcile. */
  ghost function AfterCreates(sys: System, tasks: map<Name, TaskObject>, created: seq<Name>): map<Name, TaskObject> {
    map c | c in tasks.Keys + ChildNames(sys.workflow, Elements(created)) ::
      if c in tasks then tasks[c] else TaskObject(true, FRESH_TASK)
  }

  // ---- a Running node has a child that was alive when last looked at ------------------------------

  /** The child of node n was listed or adopted unfinished, appeared after the listing, or was created just now. */
  ghost predicate LookedAlive(ctx: Context, created: set<Name>, n: Name) {
    var c := ChildOf(ctx, n);
    || (c in ctx.children && !Finished(ctx.children[c]))
    || (AnswerFor(ctx, c).Created? && n in created)
    || (AnswerFor(ctx, c).Adopted? && (c !in ctx.children || !Finished(AnswerFor(ctx, c).task)))
  }

  ghost predicate RunningAlive(ctx: Context, p: Progress, j: nat)
    requires j < |p.nodes|
  {
    p.nodes[j].phase.Running? ==> LookedAlive(ctx, Elements(p.created), p.nodes[j].name)
  }

  lemma CreatedGrows(created: seq<Name>, n: Name)
    ensures Elements(created + [n]) == Elements(created) + {n}
  {
    ElementsConcat(created, [n]);
  }

  lemma SyncAlive(ctx: Context, p: Progress, i: nat)
    requires i < |p.nodes| && SyncAt(ctx, p, i).halt.Going?
    ensures var q := SyncAt(ctx, p, i);
            && Elements(p.created) <= Elements(q.created)
            && i < |q.nodes| && RunningAlive(ctx, q, i)
  {
    CreatedGrows(p.created, p.nodes[i].name);
  }

  lemma ScheduleAlive(ctx: Context, p: Progress, i: nat)
    requires i < |p.nodes| && RunningAlive(ctx, p, i) && ScheduleAt(ctx, p, i).halt.Going?
    ensures var q := ScheduleAt(ctx, p, i);
            && Elements(p.created) <= Elements(q.created)
            && i < |q.nodes| && RunningAlive(ctx, q, i)
  {
    CreatedGrows(p.created, p.nodes[i].name);
  }

  lemma AliveMonotone(ctx: Context, p: Progress, q: Progress, j: nat)
    requires j < |p.nodes| == |q.nodes| && q.nodes[j] == p.nodes[j]
    requires Elements(p.created) <= Elements(q.created) && RunningAlive(ctx, p, j)
    ensures RunningAlive(ctx, q, j)
  {
  }

  lemma {:induction false} SyncPassAlive(ctx: Context, p: Progress, i: nat)
    requires ValidPlan(ctx.plan) && Good(ctx.plan, p) && i <= |p.nodes|
    requires forall j :: 0 <= j < i ==> RunningAlive(ctx, p, j)
    requires SyncPass(ctx, p, i).halt.Going?
    ensures var q := SyncPass(ctx, p, i);
            forall j :: 0 <= j < |q.nodes| ==> RunningAlive(ctx, q, j)
    decreases |p.nodes| - i
  {
    if p.halt.Going? && i < |p.nodes| {
      var q := SyncAt(ctx, p, i);
      SyncStep(ctx, p, i);
      StillGoing(ctx, q, i + 1);
      SyncAlive(ctx, p, i);
      forall j | 0 <= j < i + 1
        ensures RunningAlive(ctx, q, j)
      {
        if j < i {
          AliveMonotone(ctx, p, q, j);
        }
      }
      SyncPassAlive(ctx, q, i + 1);
    }
  }

  lemma {:induction false} SchedulePassAlive(ctx: Context, p: Progress, i: nat)
    requires ValidPlan(ctx.plan) && Good(ctx.plan, p)
    requires forall j :: 0 <= j < |p.nodes| ==> RunningAlive(ctx, p, j)
    requires SchedulePass(ctx, p, i).halt.Going?
    ensures var q := SchedulePass(ctx, p, i);
            forall j :: 0 <= j < |q.nodes| ==> RunningAlive(ctx, q, j)
    decreases |p.nodes| - i
  {
    if p.halt.Going? && i < |p.nodes| {
      var q := ScheduleAt(ctx, p, i);
      ScheduleStep(ctx, p, i);
      StillGoing(ctx, q, i + 1);
      assert RunningAlive(ctx, p, i);
      ScheduleAlive(ctx, p, i);
      forall j | 0 <= j < |q.nodes|
        ensures RunningAlive(ctx, q, j)
      {
        if j != i {
          AliveMonotone(ctx, p, q, j);
        }
      }
      SchedulePassAlive(ctx, q, i + 1);
    }
  }

  /** What a completed, conflict-free reconcile leaves behind. */
  lemma AdvanceSettles(ctx: Context, nodes: seq<NodeStatus>)
    requires ValidPlan(ctx.plan) && Lists(ctx.plan, nodes)
    requires Advance(ctx, nodes).halt.Going?
    ensures var q := Advance(ctx, nodes);
            && Good(ctx.plan, q)
            && (forall j :: 0 <= j < |q.nodes| ==> RunningAlive(ctx, q, j))
            && (forall j :: 0 <= j < |q.nodes| ==> Held(ctx.plan, q.phases, q.running, q.nodes[j]))
  {
    var p := SyncPass(ctx, Begin(ctx, nodes), 0);
    BeginGood(ctx, nodes);
    SyncPassKeeps(ctx, Begin(ctx, nodes), 0);
    StillGoing(ctx, p, 0);
    SyncPassAlive(ctx, Begin(ctx, nodes), 0);
    SchedulePassAlive(ctx, p, 0);
    AdvanceKeeps(ctx, nodes);
    AdvanceHolds(ctx, nodes);
  }

  ghost predicate ChildAlive(sys: System, tasks: map<Name, TaskObject>, n: Name) {
    var c := Dag.ChildTaskName(sys.workflow, n);
    c in Mine(tasks) && !Finished(tasks[c].view)
  }

  /** Undisturbed, a child that was alive when looked at is alive once the creates are applied. */
  lemma AliveLater(sys: System, tasks: map<Name, TaskObject>, created: seq<Name>, n: Name)
    requires n in sys.plan.order && LookedAlive(Undisturbed(sys, tasks), Elements(created), n)
    ensures ChildAlive(sys, AfterCreates(sys, tasks, created), n)
  {
    UndisturbedAnswers(sys, tasks, n);
    ChildNamesMember(sys.workflow, Elements(created), n);
  }

  /** The build belongs to the system: if the spec is accepted, it is a valid plan and the system's own. */
  ghost predicate BuildOf(sys: System, build: BuildResult) {
    build.Valid? ==> build.plan == sys.plan && ValidPlan(sys.plan)
  }

  /** Some Running node of e is backed by a child that was alive when the reconcile looked at it. */
  ghost predicate SomeRunningAlive(ctx: Context, e: Effect) {
    exists j :: 0 <= j < |e.status.nodes| && e.status.nodes[j].phase.Running?
                && LookedAlive(ctx, Elements(e.created), e.status.nodes[j].name)
  }

  ghost predicate SomeChildAlive(sys: System, tasks: map<Name, TaskObject>, e: Effect) {
    exists j :: 0 <= j < |e.status.nodes| && e.status.nodes[j].phase.Running?
                && ChildAlive(sys, tasks, e.status.nodes[j].name)
  }

  /** No deadlock, whatever happens meanwhile: after a conflict-free reconcile the Workflow is concluded, or some
      Running node has a child whose later end, or disappearance, will wake the controller. */
  lemma NeverStuck(sys: System, ctx: Context, s: Status, build: BuildResult)
    requires BuildOf(sys, build) && ctx.plan == sys.plan
    requires Reconcile(ctx, s, sys.generation, build).halt.Going?
    ensures var e := Reconcile(ctx, s, sys.generation, build);
            IsWorkflowTerminal(e.status.phase) || SomeRunningAlive(ctx, e)
  {
    var e := Reconcile(ctx, s, sys.generation, build);
    if !IsWorkflowTerminal(e.status.phase) {
      assert ctx.(plan := sys.plan) == ctx;
      assert e == ReconcileGraph(ctx, s, sys.generation);
      var j := RunningIn(ctx, s, sys.generation);
      assert e.status.nodes[j].phase.Running?;
    }
  }

  lemma RunningIn(ctx: Context, s: Status, generation: int) returns (j: nat)
    requires ValidPlan(ctx.plan) && ReconcileGraph(ctx, s, generation).halt.Going?
    requires !IsWorkflowTerminal(ReconcileGraph(ctx, s, generation).status.phase)
    ensures var e := ReconcileGraph(ctx, s, generation);
            && j < |e.status.nodes| && e.status.nodes[j].phase.Running?
            && e.status.nodes[j].name in ctx.plan.order
            && LookedAlive(ctx, Elements(e.created), e.status.nodes[j].name)
  {
    var nodes := Listed(ctx.plan, s.nodes);
    AlwaysListed(ctx.plan, s.nodes);
    var q := Advance(ctx, nodes);
    GraphStatus(ctx, s, generation, q);
    AdvanceSettles(ctx, nodes);
    NoDeadlock(ctx.plan, q);
    j :| 0 <= j < |q.nodes| && q.nodes[j].phase.Running?;
    assert RunningAlive(ctx, q, j);
    assert NodeGood(ctx.plan, q.nodes, q.phases, j);
  }

  /** Undisturbed, that child exists on the server and is unfinished. */
  lemma NeverStuckUndisturbed(sys: System, tasks: map<Name, TaskObject>, s: Status, build: BuildResult)
    requires BuildOf(sys, build)
    requires Reconcile(Undisturbed(sys, tasks), s, sys.generation, build).halt.Going?
    ensures var e := Reconcile(Undisturbed(sys, tasks), s, sys.generation, build);
            IsWorkflowTerminal(e.status.phase) || SomeChildAlive(sys, AfterCreates(sys, tasks, e.created), e)
  {
    var ctx := Undisturbed(sys, tasks);
    var e := Reconcile(ctx, s, sys.generation, build);
    if !IsWorkflowTerminal(e.status.phase) {
      assert ctx.(plan := sys.plan) == ctx;
      assert e == ReconcileGraph(ctx, s, sys.generation);
      var j := RunningIn(ctx, s, sys.generation);
      AliveLater(sys, tasks, e.created, e.status.nodes[j].name);
      assert e.status.nodes[j].phase.Running?;
    }
  }

  /** After a completed reconcile every Pending node waits for an earlier dependency, or is ready and no slot is free. */
  lemma OnePassFixpoint(ctx: Context, s: Status, generation: int, j: nat)
    requires ValidPlan(ctx.plan) && ReconcileGraph(ctx, s, generation).halt.Going?
    requires j < |ReconcileGraph(ctx, s, generation).status.nodes|
    requires ReconcileGraph(ctx, s, generation).status.nodes[j].phase.Pending?
    ensures var nodes := ReconcileGraph(ctx, s, generation).status.nodes;
            var action := Decide(ctx.plan, PhaseMap(nodes), nodes[j].name);
            || (action.Wait? && exists k ::
                  0 <= k < j && nodes[k].name in DepsOf(ctx.plan, nodes[j].name) && !IsTerminal(nodes[k].phase))
            || (action.Ready? && ctx.plan.maxParallel > 0 && Total(nodes, IsRunning) >= ctx.plan.maxParallel)
  {
    var before := Listed(ctx.plan, s.nodes);
    AlwaysListed(ctx.plan, s.nodes);
    var q := Advance(ctx, before);
    GraphStatus(ctx, s, generation, q);
    AdvanceKeeps(ctx, before);
    AdvanceHolds(ctx, before);
    GoodLists(ctx.plan, q);
    BeginGood(ctx, q.nodes);
    SamePhases(ctx.plan, q, Begin(ctx, q.nodes), j);
    assert Held(ctx.plan, q.phases, q.running, q.nodes[j]);
    assert NodeGood(ctx.plan, q.nodes, q.phases, j);
    if Decide(ctx.plan, q.phases, q.nodes[j].name).Wait? {
      var deps := DepsOf(ctx.plan, q.nodes[j].name);
      assert SomeUnfinished(deps, q.phases);
      var d :| d in deps && !IsTerminal(PhaseIn(q.phases, d));
      var k := DepIndex(ctx.plan, j, d);
      assert NodeGood(ctx.plan, q.nodes, q.phases, k);
    }
  }

  // ---- idempotence --------------------------------------------------------------------------------

  lemma {:induction false} SyncPassIdle(ctx: Context, p: Progress, i: nat)
    requires p.halt.Going?
    requires forall j :: i <= j < |p.nodes| ==> SyncAt(ctx, p, j) == p
    ensures SyncPass(ctx, p, i) == p
    decreases |p.nodes| - i
  {
    if i < |p.nodes| {
      assert SyncAt(ctx, p, i) == p;
      SyncPassIdle(ctx, p, i + 1);
    }
  }

  lemma {:induction false} SchedulePassIdle(ctx: Context, p: Progress, i: nat)
    requires p.halt.Going?
    requires forall j :: i <= j < |p.nodes| ==> ScheduleAt(ctx, p, j) == p
    ensures SchedulePass(ctx, p, i) == p
    decreases |p.nodes| - i
  {
    if i < |p.nodes| {
      assert ScheduleAt(ctx, p, i) == p;
      SchedulePassIdle(ctx, p, i + 1);
    }
  }

  /** A second pass over a settled node list does nothing. */
  lemma SettledAdvanceIdle(sys: System, later: map<Name, TaskObject>, q: Progress)
    requires ValidPlan(sys.plan) && Good(sys.plan, q)
    requires forall j :: 0 <= j < |q.nodes| ==> Held(sys.plan, q.phases, q.running, q.nodes[j])
    requires forall j :: 0 <= j < |q.nodes| && q.nodes[j].phase.Running? ==>
               ChildAlive(sys, later, q.nodes[j].name)
    ensures Advance(Undisturbed(sys, later), q.nodes) == Begin(Undisturbed(sys, later), q.nodes)
  {
    var ctx := Undisturbed(sys, later);
    var p := Begin(ctx, q.nodes);
    GoodLists(sys.plan, q);
    BeginGood(ctx, q.nodes);
    forall j | 0 <= j < |p.nodes|
      ensures SyncAt(ctx, p, j) == p
    {
      assert p.nodes[j].phase.Running? ==> ChildAlive(sys, later, p.nodes[j].name);
    }
    SyncPassIdle(ctx, p, 0);
    forall j | 0 <= j < |p.nodes|
      ensures ScheduleAt(ctx, p, j) == p
    {
      assert Held(sys.plan, q.phases, q.running, q.nodes[j]);
      SamePhases(sys.plan, q, p, j);
    }
    SchedulePassIdle(ctx, p, 0);
  }

  lemma SamePhases(plan: Plan, q: Progress, p: Progress, j: nat)
    requires ValidPlan(plan) && Good(plan, q) && Good(plan, p) && p.nodes == q.nodes && j < |p.nodes|
    ensures p.running == q.running
    ensures Decide(plan, p.phases, p.nodes[j].name).Wait? <==> Decide(plan, q.phases, p.nodes[j].name).Wait?
    ensures Decide(plan, p.phases, p.nodes[j].name).Ready? <==> Decide(plan, q.phases, p.nodes[j].name).Ready?
  {
    assert NodeGood(plan, p.nodes, p.phases, j);
    forall d | d in DepsOf(plan, plan.order[j])
      ensures PhaseIn(p.phases, d) == PhaseIn(q.phases, d)
    {
      var k := DepIndex(plan, j, d);
      assert NodeGood(plan, p.nodes, p.phases, k) && NodeGood(plan, q.nodes, q.phases, k);
    }
    DecideFrame(plan, p.phases, q.phases, plan.order[j]);
  }

  /** The status a completed graph reconcile leaves: its node list is settled. */
  lemma SettledStatus(sys: System, tasks: map<Name, TaskObject>, s: Status)
    requires ValidPlan(sys.plan)
    requires ReconcileGraph(Undisturbed(sys, tasks), s, sys.generation).halt.Going?
    ensures var e := ReconcileGraph(Undisturbed(sys, tasks), s, sys.generation);
            var again := Undisturbed(sys, AfterCreates(sys, tasks, e.created));
            Lists(sys.plan, e.status.nodes) && Advance(again, e.status.nodes) == Begin(again, e.status.nodes)
  {
    var ctx := Undisturbed(sys, tasks);
    var before := Listed(sys.plan, s.nodes);
    AlwaysListed(sys.plan, s.nodes);
    var q := Advance(ctx, before);
    GraphStatus(ctx, s, sys.generation, q);
    AdvanceSettles(ctx, before);
    GoodLists(sys.plan, q);
    var later := AfterCreates(sys, tasks, q.created);
    forall j | 0 <= j < |q.nodes| && q.nodes[j].phase.Running?
      ensures ChildAlive(sys, later, q.nodes[j].name)
    {
      assert RunningAlive(ctx, q, j);
      AliveLater(sys, tasks, q.created, q.nodes[j].name);
    }
    SettledAdvanceIdle(sys, later, q);
  }

  /** The status on the server after a completed reconcile. */
  function Stored(s: Status, e: Effect): Status {
    if e.write then e.status else s
  }

  ghost predicate NotSilent(p: Progress, q: Progress) {
    q.changed || (q.nodes == p.nodes && !p.changed)
  }

  lemma {:induction false} SyncPassNotSilent(ctx: Context, p: Progress, i: nat)
    ensures NotSilent(p, SyncPass(ctx, p, i))
    decreases |p.nodes| - i
  {
    if p.halt.Going? && i < |p.nodes| {
      SyncPassNotSilent(ctx, SyncAt(ctx, p, i), i + 1);
    }
  }

  lemma {:induction false} SchedulePassNotSilent(ctx: Context, p: Progress, i: nat)
    ensures NotSilent(p, SchedulePass(ctx, p, i))
    decreases |p.nodes| - i
  {
    if p.halt.Going? && i < |p.nodes| {
      SchedulePassNotSilent(ctx, ScheduleAt(ctx, p, i), i + 1);
    }
  }

  /** A reconcile that does not write has nothing to write. */
  lemma UnwrittenUnchanged(ctx: Context, s: Status, generation: int)
    requires !ReconcileGraph(ctx, s, generation).write
    ensures ReconcileGraph(ctx, s, generation).status == s
  {
    var nodes := Listed(ctx.plan, s.nodes);
    SyncPassNotSilent(ctx, Begin(ctx, nodes), 0);
    SchedulePassNotSilent(ctx, SyncPass(ctx, Begin(ctx, nodes), 0), 0);
  }

  /** Idempotence: after any completed reconcile a second one on the same children creates and writes nothing. */
  lemma SecondReconcileIdle(sys: System, tasks: map<Name, TaskObject>, s: Status, build: BuildResult)
    requires BuildOf(sys, build)
    requires !Reconcile(Undisturbed(sys, tasks), s, sys.generation, build).halt.Aborted?
    ensures var e := Reconcile(Undisturbed(sys, tasks), s, sys.generation, build);
            var again := Reconcile(Undisturbed(sys, AfterCreates(sys, tasks, e.created)), Stored(s, e),
                                   sys.generation, build);
            again.created == [] && !again.write
  {
    var ctx := Undisturbed(sys, tasks);
    var e := Reconcile(ctx, s, sys.generation, build);
    if build.Valid? && (!IsWorkflowTerminal(s.phase)
                        || (s.observedGeneration != sys.generation && CanRetryAfterValidationFailure(s))) {
      assert ctx.(plan := sys.plan) == ctx;
      assert e == ReconcileGraph(ctx, s, sys.generation);
      SecondGraphIdle(sys, tasks, s);
    }
  }

  lemma SecondGraphIdle(sys: System, tasks: map<Name, TaskObject>, s: Status)
    requires ValidPlan(sys.plan)
    requires !ReconcileGraph(Undisturbed(sys, tasks), s, sys.generation).halt.Aborted?
    ensures var e := ReconcileGraph(Undisturbed(sys, tasks), s, sys.generation);
            var again := Reconcile(Undisturbed(sys, AfterCreates(sys, tasks, e.created)), Stored(s, e),
                                   sys.generation, Valid(sys.plan));
            again.created == [] && !again.write
  {
    var ctx := Undisturbed(sys, tasks);
    var e := ReconcileGraph(ctx, s, sys.generation);
    if !e.write {
      UnwrittenUnchanged(ctx, s, sys.generation);
    }
    GraphStatus(ctx, s, sys.generation, Advance(ctx, Listed(sys.plan, s.nodes)));
    if !IsWorkflowTerminal(e.status.phase) {
      var again := Undisturbed(sys, AfterCreates(sys, tasks, e.created));
      SettledStatus(sys, tasks, s);
      RunningStatus(ctx, s, sys.generation);
      ListedNodes(sys.plan, e.status.nodes);
      IdleGraph(again, e.status, sys.generation);
      assert again.(plan := sys.plan) == again;
    }
  }

  lemma RunningStatus(ctx: Context, s: Status, generation: int)
    requires !ReconcileGraph(ctx, s, generation).halt.Aborted?
    requires !IsWorkflowTerminal(ReconcileGraph(ctx, s, generation).status.phase)
    ensures var e := ReconcileGraph(ctx, s, generation);
            e.status.phase.WfRunning? && e.status.started && e.status.observedGeneration == generation
            && !AllTerminal(e.status.nodes)
  {
  }

  lemma IdleGraph(ctx: Context, s: Status, generation: int)
    requires s.phase.WfRunning? && s.started && s.observedGeneration == generation && !AllTerminal(s.nodes)
    requires ctx.listed && Listed(ctx.plan, s.nodes) == s.nodes && Advance(ctx, s.nodes) == Begin(ctx, s.nodes)
    ensures ReconcileGraph(ctx, s, generation) == Effect(s, false, [], Going)
  {
    assert Initialized(s, generation, ctx.plan.order) == s;
  }

  // ---- one-shot execution under spec edits, aborts and lost writes -----------------------------------

  /** A Workflow whose spec may be edited; build is what its current spec builds to, and ever the set of nodes for
      which a child was ever created. */
  datatype Life = Life(status: Status, generation: int, build: BuildResult, ever: set<Name>)

  /** Unwritten is a reconcile that aborted or whose status write was lost. */
  datatype LifeEvent = EditSpec(build: BuildResult) | Written(ctx: Context) | Unwritten(ctx: Context)

  const NEW_STATUS := Status(WfUnset, "", false, false, 0, [])

  function LifeEffect(a: Life, ctx: Context): Effect {
    Reconcile(ctx, a.status, a.generation, a.build)
  }

  ghost predicate SoundBuild(build: BuildResult) {
    build.Valid? ==> ValidPlan(build.plan)
  }

  ghost predicate LifeStep(a: Life, event: LifeEvent, b: Life) {
    match event
    case EditSpec(build) => SoundBuild(build) && b == a.(generation := a.generation + 1, build := build)
    case Written(ctx) =>
      var e := LifeEffect(a, ctx);
      !e.halt.Aborted? && b == a.(status := Stored(a.status, e), ever := a.ever + Elements(e.created))
    case Unwritten(ctx) =>
      var e := LifeEffect(a, ctx);
      (e.halt.Aborted? || e.write) && b == a.(ever := a.ever + Elements(e.created))
  }

  ghost predicate LifeRun(lives: seq<Life>, events: seq<LifeEvent>) {
    && |lives| == |events| + 1
    && lives[0].status == NEW_STATUS && lives[0].ever == {} && SoundBuild(lives[0].build)
    && forall i :: 0 <= i < |events| ==> LifeStepAt(lives, events, i)
  }

  ghost predicate LifeStepAt(lives: seq<Life>, events: seq<LifeEvent>, i: nat)
    requires i < |events| < |lives|
  {
    LifeStep(lives[i], events[i], lives[i + 1])
  }

  /** The only way out of a terminal phase. */
  ghost predicate RetryAllowed(a: Life) {
    a.status.phase.WfFailed? && a.status.nodes == [] && a.status.observedGeneration != a.generation
  }

  /** Reconcile k created a child and its status was never written. */
  ghost predicate LostCreate(lives: seq<Life>, events: seq<LifeEvent>, k: nat)
    requires k < |events| < |lives|
  {
    events[k].Unwritten? && LifeEffect(lives[k], events[k].ctx).created != []
  }

  /** A completed graph reconcile leaves a non-empty node list, and writes it the first time. */
  lemma GraphListsNodes(ctx: Context, s: Status, generation: int)
    requires ValidPlan(ctx.plan) && !ReconcileGraph(ctx, s, generation).halt.Aborted?
    ensures ReconcileGraph(ctx, s, generation).status.nodes != []
    ensures s.nodes == [] ==> ReconcileGraph(ctx, s, generation).write
  {
    var nodes := Listed(ctx.plan, s.nodes);
    PassLengths(ctx, Begin(ctx, nodes), 0);
    PassLengths(ctx, SyncPass(ctx, Begin(ctx, nodes), 0), 0);
    GraphStatus(ctx, s, generation, Advance(ctx, nodes));
    assert Initialized(s, generation, ctx.plan.order).nodes == nodes != [];
  }

  lemma {:induction false} PassLengths(ctx: Context, p: Progress, i: nat)
    ensures |SyncPass(ctx, p, i).nodes| == |p.nodes|
    ensures |SchedulePass(ctx, p, i).nodes| == |p.nodes|
    decreases |p.nodes| - i
  {
    if p.halt.Going? && i < |p.nodes| {
      PassLengths(ctx, SyncAt(ctx, p, i), i + 1);
      PassLengths(ctx, ScheduleAt(ctx, p, i), i + 1);
    }
  }

  /** Equal but for the generation last looked at. */
  predicate SameOutcome(s: Status, t: Status) {
    t == s.(observedGeneration := t.observedGeneration)
  }

  /** A terminal Workflow keeps its status and creates nothing, except to retry a rejected spec. */
  lemma LifeStepOneShot(a: Life, event: LifeEvent, b: Life)
    requires LifeStep(a, event, b) && SoundBuild(a.build)
    ensures SoundBuild(b.build)
    ensures IsWorkflowTerminal(a.status.phase) && !RetryAllowed(a) ==>
              SameOutcome(a.status, b.status) && b.ever == a.ever
  {
    assert Elements<Name>([]) == {};
  }

  /** A written reconcile that leaves no nodes created nothing. */
  lemma WrittenWithoutNodes(a: Life, event: LifeEvent, b: Life)
    requires LifeStep(a, event, b) && SoundBuild(a.build) && event.Written? && b.status.nodes == []
    ensures a.status.nodes == [] && b.ever == a.ever
  {
    assert Elements<Name>([]) == {};
    if a.build.Valid? && (!IsWorkflowTerminal(a.status.phase) || RetryAllowed(a)) {
      GraphListsNodes(event.ctx.(plan := a.build.plan), a.status, a.generation);
      assert false;
    }
  }

  lemma {:induction false} LifeSound(lives: seq<Life>, events: seq<LifeEvent>, i: nat)
    requires LifeRun(lives, events) && i < |lives|
    ensures SoundBuild(lives[i].build)
  {
    if i > 0 {
      LifeSound(lives, events, i - 1);
      assert LifeStepAt(lives, events, i - 1);
      LifeStepOneShot(lives[i - 1], events[i - 1], lives[i]);
    }
  }

  /** While the status lists no nodes, a child was ever created exactly when some create was lost. */
  lemma {:induction false} CreatedOnlyIfLost(lives: seq<Life>, events: seq<LifeEvent>, i: nat)
    requires LifeRun(lives, events) && i < |lives| && lives[i].status.nodes == []
    ensures lives[i].ever == {} <==> forall k :: 0 <= k < i ==> !LostCreate(lives, events, k)
  {
    if i > 0 {
      var a, event, b := lives[i - 1], events[i - 1], lives[i];
      LifeSound(lives, events, i - 1);
      assert LifeStepAt(lives, events, i - 1);
      if event.Written? {
        WrittenWithoutNodes(a, event, b);
      }
      CreatedOnlyIfLost(lives, events, i - 1);
      if event.Unwritten? {
        EmptyElements(LifeEffect(a, event.ctx).created);
      }
      assert b.ever == {} <==> a.ever == {} && !LostCreate(lives, events, i - 1);
    }
  }

  lemma EmptyElements(names: seq<Name>)
    ensures Elements(names) == {} <==> names == []
  {
    assert names != [] ==> names[0] in Elements(names);
  }

  /** A validation retry starts with no child ever created exactly when no earlier reconcile created a child and then
      failed to write its status. */
  lemma RetryIsCleanExact(lives: seq<Life>, events: seq<LifeEvent>, i: nat)
    requires LifeRun(lives, events) && i < |lives| && RetryAllowed(lives[i])
    ensures lives[i].ever == {} <==> forall k :: 0 <= k < i ==> !LostCreate(lives, events, k)
  {
    CreatedOnlyIfLost(lives, events, i);
  }

  /** A concluded Workflow that listed its nodes is frozen for ever, whatever is edited, aborted or lost later. */
  lemma {:induction false} OneShot(lives: seq<Life>, events: seq<LifeEvent>, i: nat, j: nat)
    requires LifeRun(lives, events) && i <= j < |lives|
    requires IsWorkflowTerminal(lives[i].status.phase) && lives[i].status.nodes != []
    ensures SameOutcome(lives[i].status, lives[j].status) && lives[j].ever == lives[i].ever
    decreases j
  {
    if i < j {
      OneShot(lives, events, i, j - 1);
      LifeSound(lives, events, j - 1);
      assert LifeStepAt(lives, events, j - 1);
      LifeStepOneShot(lives[j - 1], events[j - 1], lives[j]);
    }
  }

  // ---- a validation retry after a lost create ---------------------------------------------------------

  function OneNode(): Plan {
    Plan([Name("a")], map[], {}, 0)
  }

  /** The first reconcile of a one-node Workflow whose create is answered as given. */
  function FirstContext(answer: CreateAnswer): Context {
    Context(Name("wf"), OneNode(), true, map[], map[Dag.ChildTaskName(Name("wf"), Name("a")) := answer])
  }

  lemma FirstReconcile(answer: CreateAnswer)
    requires answer.Created? || answer == ApiError(true)
    ensures var e := Reconcile(FirstContext(answer), NEW_STATUS, 1, Valid(OneNode()));
            e.created == [Name("a")] && (if answer.Created? then e.halt.Going? && e.write else e.halt.Aborted?)
  {
    var ctx := FirstContext(answer);
    var nodes := Listed(OneNode(), []);
    assert nodes == [NodeStatus(Name("a"), Pending, Name(""), "")];
    var p := Begin(ctx, nodes);
    assert nodes[..0] == [];
    assert SyncPass(ctx, p, 0) == p;
    assert Decide(OneNode(), p.phases, Name("a")).Ready?;
    assert ctx.(plan := OneNode()) == ctx;
  }

  lemma FirstLifeStep(answer: CreateAnswer)
    requires answer.Created? || answer == ApiError(true)
    ensures LifeStep(Life(NEW_STATUS, 1, Valid(OneNode()), {}), Unwritten(FirstContext(answer)),
                     Life(NEW_STATUS, 1, Valid(OneNode()), {Name("a")}))
  {
    FirstReconcile(answer);
    assert {} + Elements([Name("a")]) == {Name("a")};
  }

  lemma RejectedLifeStep(ctx: Context, ever: set<Name>)
    ensures LifeStep(Life(NEW_STATUS, 2, Invalid("bad"), ever), Written(ctx),
                     Life(MarkedFailed(NEW_STATUS, 2, "bad"), 2, Invalid("bad"), ever))
  {
    assert ever + Elements<Name>([]) == ever;
  }

  /** The run: the first reconcile creates a child and aborts, or loses its write; the spec is edited into a bad one,
      rejected, and repaired. Now a retry is allowed although a child was created. */
  lemma LostCreateThenRetry(answer: CreateAnswer) returns (lives: seq<Life>, events: seq<LifeEvent>)
    requires answer.Created? || answer == ApiError(true)
    ensures LifeRun(lives, events) && |events| == 4
    ensures RetryAllowed(lives[4]) && lives[4].ever == {Name("a")}
  {
    var ctx, good, bad := FirstContext(answer), Valid(OneNode()), Invalid("bad");
    FirstLifeStep(answer);
    RejectedLifeStep(ctx, {Name("a")});
    var start := Life(NEW_STATUS, 1, good, {});
    var lost := Life(NEW_STATUS, 1, good, {Name("a")});
    var edited := lost.(generation := 2, build := bad);
    var rejected := edited.(status := MarkedFailed(NEW_STATUS, 2, "bad"));
    var repaired := rejected.(generation := 3, build := good);
    events := [Unwritten(ctx), EditSpec(bad), Written(ctx), EditSpec(good)];
    lives := [start, lost, edited, rejected, repaired];
    assert ValidPlan(OneNode());
    assert LifeStep(start, events[0], lost) && LifeStep(edited, events[2], rejected);
    assert LifeStep(lost, events[1], edited) && LifeStep(rejected, events[3], repaired);
  }
}
