/** Both controllers together: when a Job of a workflow node can come into existence. */
module Causality {
  import opened Names
  import opened Scheduler
  import opened SchedulerInvariants
  import SchedulerRuns
  import opened TaskStatus
  import OneTime
  import Dag

  // ---- what the finished Jobs justify ------------------------------------------------------------

  /** Node n may be skipped, given the nodes whose Jobs completed (done) and failed (broke). */
  ghost predicate MaySkip(plan: Plan, done: set<Name>, broke: set<Name>, n: Name)
    requires ValidPlan(plan) && n in plan.order
    decreases SchedulerRuns.Pos(plan, n)
  {
    SchedulerRuns.DepsEarlierPos(plan, n);
    if n in plan.runOnFailure then forall d :: d in DepsOf(plan, n) ==> d in done
    else exists d :: d in DepsOf(plan, n) && (d in broke || MaySkip(plan, done, broke, d))
  }

  /** Dependency d ended badly: its Job failed, or it was skipped for a reason that traces back to Jobs. */
  ghost predicate EndedBadly(plan: Plan, done: set<Name>, broke: set<Name>, d: Name)
    requires ValidPlan(plan)
  {
    d in plan.order && (d in broke || MaySkip(plan, done, broke, d))
  }

  /** Node n may run. */
  ghost predicate MayRun(plan: Plan, done: set<Name>, broke: set<Name>, n: Name)
    requires ValidPlan(plan)
  {
    var deps := DepsOf(plan, n);
    if n in plan.runOnFailure then
      && (forall d :: d in deps ==> d in done || EndedBadly(plan, done, broke, d))
      && (exists d :: d in deps && EndedBadly(plan, done, broke, d))
    else forall d :: d in deps ==> d in done
  }

  ghost function Possible(plan: Plan, done: set<Name>, broke: set<Name>): Verdicts
    requires ValidPlan(plan)
  {
    Verdicts((set n | n in done :: (n, Succeeded)) + (set n | n in broke :: (n, Failed))
             + (set n | n in plan.order && MaySkip(plan, done, broke, n) :: (n, Skipped)),
             set n | n in plan.order && MayRun(plan, done, broke, n))
  }

  lemma PossibleMeans(plan: Plan, done: set<Name>, broke: set<Name>, n: Name)
    requires ValidPlan(plan)
    ensures var v := Possible(plan, done, broke);
            && (HasSucceeded(v, n) <==> n in done)
            && ((n, Failed) in v.judged <==> n in broke)
            && ((n, Skipped) in v.judged <==> n in plan.order && MaySkip(plan, done, broke, n))
            && (n in plan.order ==> (IsBlocked(v, n) <==> EndedBadly(plan, done, broke, n)))
  {
  }

  lemma PossibleClosed(plan: Plan, done: set<Name>, broke: set<Name>)
    requires ValidPlan(plan)
    ensures Closed(plan, Possible(plan, done, broke))
  {
    var v := Possible(plan, done, broke);
    forall n | n in plan.order
      ensures ClosedAt(plan, v, n)
    {
      SchedulerRuns.DepsEarlierPos(plan, n);
      forall d | d in DepsOf(plan, n)
        ensures d in plan.order && (HasSucceeded(v, d) <==> d in done)
        ensures IsBlocked(v, d) <==> EndedBadly(plan, done, broke, d)
      {
        PossibleMeans(plan, done, broke, d);
      }
      PossibleMeans(plan, done, broke, n);
    }
  }

  lemma {:induction false} MaySkipGrows(plan: Plan, done: set<Name>, broke: set<Name>, done': set<Name>, broke': set<Name>, n: Name)
    requires ValidPlan(plan) && n in plan.order && done <= done' && broke <= broke'
    requires MaySkip(plan, done, broke, n)
    ensures MaySkip(plan, done', broke', n)
    decreases SchedulerRuns.Pos(plan, n)
  {
    SchedulerRuns.DepsEarlierPos(plan, n);
    if n !in plan.runOnFailure {
      var d :| d in DepsOf(plan, n) && (d in broke || MaySkip(plan, done, broke, d));
      if d !in broke {
        MaySkipGrows(plan, done, broke, done', broke', d);
      }
    }
  }

  /** Everything justified stays justified as more Jobs finish. */
  lemma PossibleGrows(plan: Plan, done: set<Name>, broke: set<Name>, done': set<Name>, broke': set<Name>)
    requires ValidPlan(plan) && done <= done' && broke <= broke'
    ensures Possible(plan, done, broke).judged <= Possible(plan, done', broke').judged
    ensures Possible(plan, done, broke).runnable <= Possible(plan, done', broke').runnable
  {
    forall n | n in plan.order && MaySkip(plan, done, broke, n)
      ensures MaySkip(plan, done', broke', n)
    {
      MaySkipGrows(plan, done, broke, done', broke', n);
    }
    forall n | n in plan.order && MayRun(plan, done, broke, n)
      ensures MayRun(plan, done', broke', n)
    {
      if n in plan.runOnFailure {
        var d :| d in DepsOf(plan, n) && EndedBadly(plan, done, broke, d);
        assert EndedBadly(plan, done', broke', d);
      }
    }
  }

  // ---- a sync reports only what listed Jobs show ------------------------------------------------------

  ghost predicate SomeComplete(jobs: seq<Job>) {
    exists j :: j in jobs && j.complete
  }

  ghost predicate SomeFailed(jobs: seq<Job>) {
    exists j :: j in jobs && j.failed
  }

  lemma {:induction false} CountsNeedConditions(l: Loop, jobs: seq<Job>)
    ensures VisitAll(l, jobs).succeeded > 0 ==> l.succeeded > 0 || SomeComplete(jobs)
    ensures VisitAll(l, jobs).failed > 0 ==> l.failed > 0 || SomeFailed(jobs)
  {
    if jobs != [] {
      var n := |jobs| - 1;
      CountsNeedConditions(l, jobs[..n]);
      assert jobs[n] in jobs;
      assert forall j :: j in jobs[..n] ==> j in jobs;
    }
  }

  /** A Task becomes Succeeded or Failed in a sync only through a counted terminal condition. */
  lemma SyncNeedsConditions(s: TaskState, jobs: seq<Job>)
    ensures var t := AfterSync(s, jobs);
            && (t.succeeded > 0 ==> s.succeeded > 0 || SomeComplete(jobs))
            && (t.failed > 0 ==> s.failed > 0 || SomeFailed(jobs))
            && (t.phase.TaskSucceeded? ==> t.succeeded > 0 || s.phase.TaskSucceeded?)
            && (t.phase.TaskFailed? ==> t.failed > 0 || s.phase.TaskFailed?)
  {
    CountsNeedConditions(LoopStart(s), jobs);
  }

  /** Two listings that differ only in their Pod counters. */
  ghost predicate SameConditions(a: seq<Job>, b: seq<Job>) {
    && |a| == |b|
    && forall i :: 0 <= i < |a| ==>
         a[i].(podsSucceeded := b[i].podsSucceeded, podsFailed := b[i].podsFailed) == b[i]
  }

  lemma {:induction false} PodCountersIgnoredByLoop(l: Loop, a: seq<Job>, b: seq<Job>)
    requires SameConditions(a, b)
    ensures VisitAll(l, a) == VisitAll(l, b)
  {
    if a != [] {
      PodCountersIgnoredByLoop(l, a[..|a| - 1], b[..|b| - 1]);
    }
  }

  /** Pod retries alone never change a Task's status. */
  lemma PodRetriesInvisible(s: TaskState, a: seq<Job>, b: seq<Job>)
    requires SameConditions(a, b)
    ensures AfterSync(s, a) == AfterSync(s, b)
  {
    PodCountersIgnoredByLoop(LoopStart(s), a, b);
  }

  // ---- the combined system -----------------------------------------------------------------------------------

  datatype JobObject = JobObject(node: Name, job: Job)

  /** tasks maps a node to its child Task; done and broke record which nodes ever had a Complete or Failed Job; states
      and listed remember every status a child Task and every state a Job ever had, for reads of any age. */
  datatype World = World(status: Status, tasks: map<Name, TaskState>, jobs: map<Name, JobObject>,
                         done: set<Name>, broke: set<Name>, states: set<(Name, TaskState)>, listed: set<JobObject>)

  const NEW_TASK := TaskState(TaskUnset, 0, 0, [], [], Dag.None)

  function NewJob(name: Name): Job {
    Job(name, false, false, Dag.None, 0, 0)
  }

  /** The single effects of both controllers on the server, each at its own instant, and those of the environment.
      CreateChildren are creates of one Workflow reconcile and WriteStatus its end; CreateJob and StartTask are the two
      effects of starting a Task; read and listing are what the reconcile had read by then, however long ago. */
  datatype Event =
    | CreateChildren(ctx: Context, created: set<Name>)
    | WriteStatus(ctx: Context)
    | CreateJob(node: Name, read: TaskState, listing: seq<Job>, triggered: bool, jobName: Name)
    | StartTask(node: Name, read: TaskState, jobName: Name)
    | SyncTask(node: Name, read: TaskState, listing: seq<Job>)
    | JobProgress(jobName: Name, job: Job)
    | SetPhase(node: Name, phase: TaskPhase)
    | DeleteTask(node: Name)
    | DeleteJob(jobName: Name)

  ghost predicate Showed(w: World, n: Name, phase: TaskPhase) {
    exists s :: (n, s) in w.states && s.phase == phase
  }

  /** Each view is a phase the child had at some time. */
  ghost predicate Sees(w: World, ctx: Context, n: Name) {
    var child := ChildOf(ctx, n);
    && (child in ctx.children ==> Showed(w, n, ctx.children[child].phase))
    && (AnswerFor(ctx, child).Adopted? ==> Showed(w, n, AnswerFor(ctx, child).task.phase))
  }

  ghost predicate Observed(sys: SchedulerRuns.System, w: World, ctx: Context) {
    && ctx.workflow == sys.workflow && ctx.plan == sys.plan
    && forall n :: n in sys.plan.order ==> Sees(w, ctx, n)
  }

  /** Only the Workflow controller writes the Workflow status, so it is what the reconcile started from. */
  function EffectOf(sys: SchedulerRuns.System, w: World, ctx: Context): Effect {
    Reconcile(ctx, w.status, sys.generation, Valid(sys.plan))
  }

  function WithNewTasks(tasks: map<Name, TaskState>, created: set<Name>): map<Name, TaskState> {
    map n | n in tasks.Keys + created :: if n in tasks then tasks[n] else NEW_TASK
  }

  ghost predicate ListsJobs(w: World, node: Name, listing: seq<Job>) {
    forall j :: j in listing ==> JobObject(node, j) in w.listed
  }

  ghost predicate Enabled(sys: SchedulerRuns.System, w: World, event: Event) {
    match event
    case CreateChildren(ctx, created) => Observed(sys, w, ctx) && created <= Elements(EffectOf(sys, w, ctx).created)
    case WriteStatus(ctx) =>
      Observed(sys, w, ctx) && EffectOf(sys, w, ctx).write && !EffectOf(sys, w, ctx).halt.Aborted?
    case CreateJob(node, read, listing, triggered, jobName) =>
      && (node, read) in w.states && ListsJobs(w, node, listing) && jobName !in w.jobs
      && OneTime.HandleOneTime(read, listing, triggered).DoCreate?
    case StartTask(node, read, _) => node in w.tasks && (node, read) in w.states
    case SyncTask(node, read, listing) =>
      node in w.tasks && (node, read) in w.states && ListsJobs(w, node, listing) && listing != []
    case JobProgress(jobName, job) =>
      && jobName in w.jobs && job.name == jobName
      && (w.jobs[jobName].job.complete ==> job.complete) && (w.jobs[jobName].job.failed ==> job.failed)
    case SetPhase(node, phase) => node in w.tasks && (phase.TaskSuspended? || phase.TaskPending?)
    case _ => true
  }

  function Launched(s: TaskState, jobName: Name): TaskState {
    s.(phase := TaskRunning, activeJobs := s.activeJobs + [jobName])
  }

  ghost function Change(sys: SchedulerRuns.System, w: World, event: Event): World
    requires Enabled(sys, w, event)
  {
    match event
    case CreateChildren(_, created) => w.(tasks := WithNewTasks(w.tasks, created))
    case WriteStatus(ctx) => w.(status := EffectOf(sys, w, ctx).status)
    case CreateJob(node, _, _, _, jobName) => w.(jobs := w.jobs[jobName := JobObject(node, NewJob(jobName))])
    case StartTask(node, read, jobName) => w.(tasks := w.tasks[node := Launched(read, jobName)])
    case SyncTask(node, read, listing) => w.(tasks := w.tasks[node := AfterSync(read, listing)])
    case JobProgress(jobName, job) =>
      var node := w.jobs[jobName].node;
      w.(jobs := w.jobs[jobName := JobObject(node, job)],
         done := if job.complete then w.done + {node} else w.done,
         broke := if job.failed then w.broke + {node} else w.broke)
    case SetPhase(node, phase) => w.(tasks := w.tasks[node := w.tasks[node].(phase := phase)])
    case DeleteTask(node) => w.(tasks := w.tasks - {node})
    case DeleteJob(jobName) => w.(jobs := w.jobs - {jobName})
  }

  /** Whatever is on the server can be read from now on. */
  ghost function Remember(w: World): World {
    w.(states := w.states + set n | n in w.tasks :: (n, w.tasks[n]),
       listed := w.listed + set name | name in w.jobs :: w.jobs[name])
  }

  ghost function Apply(sys: SchedulerRuns.System, w: World, event: Event): World
    requires Enabled(sys, w, event)
  {
    Remember(Change(sys, w, event))
  }

  // ---- the invariant ----------------------------------------------------------------------------------------------

  /** Node n may run, and a status of its child Task claims only outcomes that its Jobs showed. */
  ghost predicate StateOk(sys: SchedulerRuns.System, w: World, n: Name, s: TaskState)
    requires ValidPlan(sys.plan)
  {
    && n in Possible(sys.plan, w.done, w.broke).runnable
    && (s.succeeded > 0 || s.phase.TaskSucceeded? ==> n in w.done)
    && (s.failed > 0 || s.phase.TaskFailed? ==> n in w.broke)
  }

  ghost predicate JobOk(w: World, j: JobObject) {
    (j.job.complete ==> j.node in w.done) && (j.job.failed ==> j.node in w.broke)
  }

  /** The Workflow status and everything remembered is justified. */
  ghost predicate Remembered(sys: SchedulerRuns.System, w: World)
    requires ValidPlan(sys.plan)
  {
    && SchedulerRuns.EmptyOrListed(sys.plan, w.status.nodes)
    && Justified(Possible(sys.plan, w.done, w.broke), w.status.nodes)
    && (forall n, s :: (n, s) in w.states ==> StateOk(sys, w, n, s))
    && (forall j :: j in w.listed ==> JobOk(w, j))
  }

  ghost predicate Inv(sys: SchedulerRuns.System, w: World)
    requires ValidPlan(sys.plan)
  {
    && Remembered(sys, w)
    && (forall n :: n in w.tasks ==> (n, w.tasks[n]) in w.states)
    && (forall name :: name in w.jobs ==> w.jobs[name] in w.listed)
  }

  lemma RememberInv(sys: SchedulerRuns.System, w: World)
    requires ValidPlan(sys.plan) && Remembered(sys, w)
    requires forall n :: n in w.tasks ==> StateOk(sys, w, n, w.tasks[n])
    requires forall name :: name in w.jobs ==> JobOk(w, w.jobs[name])
    ensures Inv(sys, Remember(w))
  {
    var v := Remember(w);
    forall n, s | (n, s) in v.states
      ensures StateOk(sys, v, n, s)
    {
      assert (n, s) in w.states || (n in w.tasks && s == w.tasks[n]);
      assert StateOk(sys, w, n, s);
    }
    forall j | j in v.listed
      ensures JobOk(v, j)
    {
      assert JobOk(w, j);
    }
  }

  lemma ReconcileJustified(sys: SchedulerRuns.System, w: World, ctx: Context)
    requires ValidPlan(sys.plan) && Remembered(sys, w) && Observed(sys, w, ctx)
    ensures var v := Possible(sys.plan, w.done, w.broke);
            var e := EffectOf(sys, w, ctx);
            && Elements(e.created) <= v.runnable
            && (!e.halt.Aborted? ==>
                  SchedulerRuns.EmptyOrListed(sys.plan, e.status.nodes) && Justified(v, e.status.nodes))
  {
    var v := Possible(sys.plan, w.done, w.broke);
    var s := w.status;
    if IsWorkflowTerminal(s.phase) && (s.observedGeneration == sys.generation || s.nodes != []) {
      assert Elements<Name>([]) == {};
    } else {
      ObservedSound(sys, w, ctx);
      PossibleClosed(sys.plan, w.done, w.broke);
      assert ctx.(plan := sys.plan) == ctx;
      var p := Advance(ctx, SchedulerRuns.Listed(sys.plan, s.nodes));
      SchedulerRuns.GraphEffect(ctx, v, s, p);
      SchedulerRuns.GraphStatus(ctx, s, sys.generation, p);
    }
  }

  lemma ShowedSound(sys: SchedulerRuns.System, w: World, n: Name, view: TaskView)
    requires ValidPlan(sys.plan) && Remembered(sys, w) && Showed(w, n, view.phase)
    ensures ViewSound(Possible(sys.plan, w.done, w.broke), n, view)
  {
    var s :| (n, s) in w.states && s.phase == view.phase;
    assert StateOk(sys, w, n, s);
    PossibleMeans(sys.plan, w.done, w.broke, n);
  }

  lemma ObservedSound(sys: SchedulerRuns.System, w: World, ctx: Context)
    requires ValidPlan(sys.plan) && Remembered(sys, w) && Observed(sys, w, ctx)
    ensures ContextSound(Possible(sys.plan, w.done, w.broke), ctx)
  {
    forall n | n in ctx.plan.order
      ensures NodeViewsSound(Possible(sys.plan, w.done, w.broke), ctx, n)
    {
      var child := ChildOf(ctx, n);
      assert Sees(w, ctx, n);
      if child in ctx.children {
        ShowedSound(sys, w, n, ctx.children[child]);
      }
      if AnswerFor(ctx, child).Adopted? {
        ShowedSound(sys, w, n, AnswerFor(ctx, child).task);
      }
    }
  }

  /** A sync from remembered reads claims only what Jobs showed. */
  lemma SyncOk(sys: SchedulerRuns.System, w: World, n: Name, read: TaskState, listing: seq<Job>)
    requires ValidPlan(sys.plan) && Remembered(sys, w) && (n, read) in w.states && ListsJobs(w, n, listing)
    ensures StateOk(sys, w, n, AfterSync(read, listing))
  {
    assert StateOk(sys, w, n, read);
    SyncNeedsConditions(read, listing);
    forall j | j in listing
      ensures (j.complete ==> n in w.done) && (j.failed ==> n in w.broke)
    {
      assert JobOk(w, JobObject(n, j));
    }
  }

  /** What was justified stays justified when a Job progresses. */
  lemma ProgressKeeps(sys: SchedulerRuns.System, w: World, v: World)
    requires ValidPlan(sys.plan) && Remembered(sys, w) && w.done <= v.done && w.broke <= v.broke
    requires v.status == w.status && v.states == w.states && v.listed == w.listed
    ensures Remembered(sys, v)
    ensures forall n, s :: StateOk(sys, w, n, s) ==> StateOk(sys, v, n, s)
  {
    PossibleGrows(sys.plan, w.done, w.broke, v.done, v.broke);
    forall i | 0 <= i < |w.status.nodes|
      ensures NodeJustified(Possible(sys.plan, v.done, v.broke), v.status.nodes[i])
    {
      assert NodeJustified(Possible(sys.plan, w.done, w.broke), w.status.nodes[i]);
    }
    forall n, s | (n, s) in v.states
      ensures StateOk(sys, v, n, s)
    {
      assert StateOk(sys, w, n, s);
    }
    forall j | j in v.listed
      ensures JobOk(v, j)
    {
      assert JobOk(w, j);
    }
  }

  lemma WorkflowEventKeeps(sys: SchedulerRuns.System, w: World, event: Event)
    requires ValidPlan(sys.plan) && Inv(sys, w) && Enabled(sys, w, event)
    requires event.CreateChildren? || event.WriteStatus?
    ensures Inv(sys, Apply(sys, w, event))
  {
    var v := Change(sys, w, event);
    ReconcileJustified(sys, w, event.ctx);
    ProgressKeeps(sys, w, v.(status := w.status));
    forall n | n in v.tasks
      ensures StateOk(sys, v, n, v.tasks[n])
    {
      assert n in w.tasks ==> StateOk(sys, w, n, w.tasks[n]);
    }
    RememberInv(sys, v);
  }

  lemma TaskEventKeeps(sys: SchedulerRuns.System, w: World, event: Event)
    requires ValidPlan(sys.plan) && Inv(sys, w) && Enabled(sys, w, event)
    requires event.StartTask? || event.SyncTask? || event.SetPhase? || event.DeleteTask?
    ensures Inv(sys, Apply(sys, w, event))
  {
    var v := Change(sys, w, event);
    ProgressKeeps(sys, w, v);
    if event.SyncTask? {
      SyncOk(sys, w, event.node, event.read, event.listing);
    }
    forall n | n in v.tasks
      ensures StateOk(sys, v, n, v.tasks[n])
    {
      assert StateOk(sys, w, n, w.tasks[n]);
      assert event.StartTask? ==> StateOk(sys, w, event.node, event.read);
    }
    RememberInv(sys, v);
  }

  lemma JobEventKeeps(sys: SchedulerRuns.System, w: World, event: Event)
    requires ValidPlan(sys.plan) && Inv(sys, w) && Enabled(sys, w, event)
    requires event.CreateJob? || event.JobProgress? || event.DeleteJob?
    ensures Inv(sys, Apply(sys, w, event))
  {
    var v := Change(sys, w, event);
    ProgressKeeps(sys, w, v);
    forall n | n in v.tasks
      ensures StateOk(sys, v, n, v.tasks[n])
    {
      assert StateOk(sys, w, n, w.tasks[n]);
    }
    forall name | name in v.jobs
      ensures JobOk(v, v.jobs[name])
    {
      assert name in w.jobs ==> JobOk(w, w.jobs[name]);
    }
    RememberInv(sys, v);
  }

  lemma StepKeeps(sys: SchedulerRuns.System, w: World, event: Event)
    requires ValidPlan(sys.plan) && Inv(sys, w) && Enabled(sys, w, event)
    ensures Inv(sys, Apply(sys, w, event))
  {
    if event.CreateChildren? || event.WriteStatus? {
      WorkflowEventKeeps(sys, w, event);
    } else if event.CreateJob? || event.JobProgress? || event.DeleteJob? {
      JobEventKeeps(sys, w, event);
    } else {
      TaskEventKeeps(sys, w, event);
    }
  }

  ghost predicate Run(sys: SchedulerRuns.System, worlds: seq<World>, events: seq<Event>) {
    && |worlds| == |events| + 1
    && worlds[0].status.nodes == []
    && worlds[0] == World(worlds[0].status, map[], map[], {}, {}, {}, {})
    && forall i :: 0 <= i < |events| ==> StepAt(sys, worlds, events, i)
  }

  ghost predicate StepAt(sys: SchedulerRuns.System, worlds: seq<World>, events: seq<Event>, i: nat)
    requires i < |events| < |worlds|
  {
    Enabled(sys, worlds[i], events[i]) && worlds[i + 1] == Apply(sys, worlds[i], events[i])
  }

  lemma {:induction false} RunInv(sys: SchedulerRuns.System, worlds: seq<World>, events: seq<Event>, i: nat)
    requires ValidPlan(sys.plan) && Run(sys, worlds, events) && i < |worlds|
    ensures Inv(sys, worlds[i])
  {
    if i > 0 {
      RunInv(sys, worlds, events, i - 1);
      assert StepAt(sys, worlds, events, i - 1);
      StepKeeps(sys, worlds[i - 1], events[i - 1]);
    }
  }

  /** A Job of a normal node is created only after every dependency had a Complete Job; a Job of a runOnFailure
      node only after every dependency ended, at least one of them badly. */
  lemma JobCausality(sys: SchedulerRuns.System, worlds: seq<World>, events: seq<Event>, i: nat)
    requires ValidPlan(sys.plan) && Run(sys, worlds, events) && i < |events| && events[i].CreateJob?
    ensures var n, w := events[i].node, worlds[i];
            var deps := DepsOf(sys.plan, n);
            if n in sys.plan.runOnFailure then
              && (forall d :: d in deps ==> d in w.done || EndedBadly(sys.plan, w.done, w.broke, d))
              && (exists d :: d in deps && EndedBadly(sys.plan, w.done, w.broke, d))
            else forall d :: d in deps ==> d in w.done
  {
    RunInv(sys, worlds, events, i);
    assert StepAt(sys, worlds, events, i);
    assert StateOk(sys, worlds[i], events[i].node, events[i].read);
  }

  predicate OwnerIs(w: World, jobName: Name, n: Name) {
    jobName in w.jobs && w.jobs[jobName].node == n
  }

  /** done and broke mean what they say: a node enters them only through a Job that shows the condition. */
  lemma DoneNeedsCondition(sys: SchedulerRuns.System, worlds: seq<World>, events: seq<Event>, i: nat, n: Name)
    requires Run(sys, worlds, events) && i < |events|
    ensures n in worlds[i + 1].done && n !in worlds[i].done ==>
              events[i].JobProgress? && events[i].job.complete && OwnerIs(worlds[i], events[i].jobName, n)
    ensures n in worlds[i + 1].broke && n !in worlds[i].broke ==>
              events[i].JobProgress? && events[i].job.failed && OwnerIs(worlds[i], events[i].jobName, n)
  {
    assert StepAt(sys, worlds, events, i);
  }
}
