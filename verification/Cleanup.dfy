/** Finalizer-ordered deletion of a Workflow, its child Tasks and their Jobs, under all interleavings. */
module Cleanup {
  import Dag

  /** Objects are identified by uid; a uid is never reused. */
  type Uid = nat

  datatype Object = Object(deleting: bool, finalizer: bool)

  /** Where the Workflow controller stands in its current reconcile. */
  datatype WorkflowPc =
    | WfIdle
    | WfScheduling                       // read the Workflow with its finalizer and not being deleted
    | WfCleaning(listed: set<Uid>)       // read it as being deleted and listed these children

  /** Where the Task controller stands for one Task. */
  datatype TaskPc =
    | TaskIdle
    | TaskWorking                        // read the Task with its finalizer and not being deleted
    | TaskCleaning                       // read it as being deleted
    | TaskClear                          // the second listing found no Job

  /** standalone lists the Tasks that users created and no Workflow controls; the others are child Tasks. */
  datatype World = World(
    workflow: Dag.Option<Object>, tasks: map<Uid, Object>, standalone: set<Uid>, jobs: map<Uid, Uid>,
    pc: WorkflowPc, taskPcs: map<Uid, TaskPc>, next: Uid)

  datatype Event =
    | WorkflowBegins
    | CreateChild
    | DeleteChild(task: Uid)
    | WorkflowConcludes
    | WorkflowAborts
    | TaskBegins(task: Uid)
    | CreateJob(task: Uid)
    | ListJobsAgain(task: Uid)
    | RemoveTaskFinalizer(task: Uid)
    | TaskAborts(task: Uid)
    | UserCreatesTask
    | UserDeletesWorkflow
    | UserDeletesTask(task: Uid)
    | JobDisappears(job: Uid)

  function PcOf(w: World, task: Uid): TaskPc {
    if task in w.taskPcs then w.taskPcs[task] else TaskIdle
  }

  /** The API server's reaction to a delete: mark the object, or remove it when nothing holds it. */
  function Deleted(tasks: map<Uid, Object>, task: Uid): map<Uid, Object> {
    if task !in tasks then tasks
    else if tasks[task].finalizer then tasks[task := tasks[task].(deleting := true)]
    else tasks - {task}
  }

  ghost predicate HasJobs(w: World, task: Uid) {
    exists j :: j in w.jobs && w.jobs[j] == task
  }

  ghost predicate Enabled(w: World, event: Event) {
    match event
    case WorkflowBegins => w.pc.WfIdle? && w.workflow.Some?
    case CreateChild => w.pc.WfScheduling?
    case DeleteChild(task) => w.pc.WfCleaning? && task in w.pc.listed
    case WorkflowConcludes => w.pc.WfCleaning?
    case TaskBegins(task) => PcOf(w, task).TaskIdle? && task in w.tasks
    case CreateJob(task) => PcOf(w, task).TaskWorking?
    case ListJobsAgain(task) => PcOf(w, task).TaskCleaning?
    case RemoveTaskFinalizer(task) => PcOf(w, task).TaskClear?
    case _ => true
  }

  /** The Workflow reconcile after reading the object (Reconcile, handleDeletion). */
  function WorkflowRead(w: World): World
    requires w.workflow.Some?
  {
    var o := w.workflow.value;
    if o.deleting then w.(pc := WfCleaning(w.tasks.Keys - w.standalone))
    else if !o.finalizer then w.(workflow := Dag.Some(o.(finalizer := true)))
    else w.(pc := WfScheduling)
  }

  /** The finalizer goes only when every listed child was already gone when its delete was tried. */
  function WorkflowConcluded(w: World): World
    requires w.pc.WfCleaning?
  {
    if w.pc.listed !! w.tasks.Keys && w.workflow.Some? && w.workflow.value.deleting
    then w.(workflow := Dag.None, pc := WfIdle)
    else w.(pc := WfIdle)
  }

  function TaskRead(w: World, task: Uid): World
    requires task in w.tasks
  {
    var o := w.tasks[task];
    if o.deleting then w.(taskPcs := w.taskPcs[task := TaskCleaning])
    else if !o.finalizer then w.(tasks := w.tasks[task := o.(finalizer := true)])
    else w.(taskPcs := w.taskPcs[task := TaskWorking])
  }

  ghost function Apply(w: World, event: Event): World
    requires Enabled(w, event)
  {
    match event
    case WorkflowBegins => WorkflowRead(w)
    case CreateChild => w.(tasks := w.tasks[w.next := Object(false, false)], next := w.next + 1)
    case DeleteChild(task) => w.(tasks := Deleted(w.tasks, task))
    case WorkflowConcludes => WorkflowConcluded(w)
    case WorkflowAborts => w.(pc := WfIdle)
    case TaskBegins(task) => TaskRead(w, task)
    case CreateJob(task) => w.(jobs := w.jobs[w.next := task], next := w.next + 1)
    case ListJobsAgain(task) =>
      w.(taskPcs := w.taskPcs[task := if HasJobs(w, task) then TaskIdle else TaskClear])
    case RemoveTaskFinalizer(task) =>
      var idle := w.(taskPcs := w.taskPcs[task := TaskIdle]);
      if task in w.tasks && w.tasks[task].deleting then idle.(tasks := w.tasks - {task}) else idle
    case TaskAborts(task) => w.(taskPcs := w.taskPcs[task := TaskIdle])
    case UserCreatesTask =>
      w.(tasks := w.tasks[w.next := Object(false, false)], standalone := w.standalone + {w.next}, next := w.next + 1)
    case UserDeletesWorkflow =>
      if w.workflow.None? then w
      else if w.workflow.value.finalizer then w.(workflow := Dag.Some(w.workflow.value.(deleting := true)))
      else w.(workflow := Dag.None)
    case UserDeletesTask(task) => w.(tasks := Deleted(w.tasks, task))
    case JobDisappears(job) => w.(jobs := w.jobs - {job})
  }

  // ---- the invariant -----------------------------------------------------------------------------

  ghost predicate Held(w: World) {
    w.workflow.Some? && w.workflow.value.finalizer
  }

  ghost predicate TaskHeld(w: World, task: Uid) {
    task in w.tasks && w.tasks[task].finalizer
  }

  ghost predicate TaskOk(w: World, task: Uid)
    requires task in w.tasks
  {
    (w.tasks[task].deleting ==> w.tasks[task].finalizer) && task < w.next
  }

  ghost predicate PcOk(w: World, task: Uid)
    requires task in w.taskPcs
  {
    match w.taskPcs[task]
    case TaskWorking => TaskHeld(w, task)
    case TaskClear => !HasJobs(w, task)
    case _ => true
  }

  ghost predicate Inv(w: World) {
    && (forall t :: t in w.tasks && t !in w.standalone ==> Held(w))
    && (forall t :: t in w.standalone ==> t < w.next)
    && (w.workflow.Some? && w.workflow.value.deleting ==> w.workflow.value.finalizer)
    && (w.pc.WfScheduling? ==> Held(w))
    && (w.pc.WfCleaning? ==> w.tasks.Keys - w.standalone <= w.pc.listed)
    && (forall t :: t in w.tasks ==> TaskOk(w, t))
    && (forall t :: t in w.taskPcs ==> PcOk(w, t))
    && (forall j :: j in w.jobs ==> TaskHeld(w, w.jobs[j]))
  }

  /** Steps that leave Jobs alone and take no finalizer from a Task. */
  lemma JobsStayHeld(w: World, v: World)
    requires Inv(w) && v.jobs == w.jobs
    requires forall t :: TaskHeld(w, t) ==> TaskHeld(v, t)
    requires forall t :: t in v.taskPcs ==> t in w.taskPcs && v.taskPcs[t] == w.taskPcs[t]
    ensures forall t :: t in v.taskPcs ==> PcOk(v, t)
    ensures forall j :: j in v.jobs ==> TaskHeld(v, v.jobs[j])
  {
    forall t | t in v.taskPcs
      ensures PcOk(v, t)
    {
      assert PcOk(w, t);
      assert HasJobs(v, t) <==> HasJobs(w, t);
    }
  }

  lemma WorkflowStepKeeps(w: World, event: Event)
    requires Inv(w) && Enabled(w, event)
    requires event.WorkflowBegins? || event.CreateChild? || event.WorkflowConcludes? || event.WorkflowAborts?
             || event.UserCreatesTask? || event.UserDeletesWorkflow?
    ensures Inv(Apply(w, event))
  {
    var v := Apply(w, event);
    assert forall t :: t in w.tasks ==> TaskOk(w, t);
    JobsStayHeld(w, v);
    if event.WorkflowConcludes? && w.pc.listed !! w.tasks.Keys {
      assert w.tasks.Keys <= w.standalone;
    }
  }

  lemma DeleteKeeps(w: World, event: Event)
    requires Inv(w) && Enabled(w, event) && (event.DeleteChild? || event.UserDeletesTask?)
    ensures Inv(Apply(w, event))
  {
    var v := Apply(w, event);
    assert forall t :: t in w.tasks ==> TaskOk(w, t);
    JobsStayHeld(w, v);
  }

  lemma TaskReadKeeps(w: World, task: Uid)
    requires Inv(w) && task in w.tasks && PcOf(w, task).TaskIdle?
    ensures Inv(TaskRead(w, task))
  {
    var v := TaskRead(w, task);
    assert forall t :: t in w.tasks ==> TaskOk(w, t);
    forall t | t in v.taskPcs
      ensures PcOk(v, t)
    {
      assert t in w.taskPcs ==> PcOk(w, t);
      assert HasJobs(v, t) <==> HasJobs(w, t);
    }
    assert v.tasks.Keys == w.tasks.Keys;
  }

  lemma CreateJobKeeps(w: World, task: Uid)
    requires Inv(w) && Enabled(w, CreateJob(task))
    ensures Inv(Apply(w, CreateJob(task)))
  {
    var v := Apply(w, CreateJob(task));
    assert PcOk(w, task);
    assert forall t :: t in w.tasks ==> TaskOk(w, t);
    forall t | t in v.taskPcs
      ensures PcOk(v, t)
    {
      assert PcOk(w, t);
      if HasJobs(v, t) && t != task {
        var j :| j in v.jobs && v.jobs[j] == t;
        assert j in w.jobs && w.jobs[j] == t;
      }
    }
  }

  lemma PcStepKeeps(w: World, event: Event)
    requires Inv(w) && Enabled(w, event) && (event.ListJobsAgain? || event.TaskAborts?)
    ensures Inv(Apply(w, event))
  {
    var v := Apply(w, event);
    assert forall t :: t in w.tasks ==> TaskOk(w, t);
    forall t | t in v.taskPcs
      ensures PcOk(v, t)
    {
      assert t in w.taskPcs ==> PcOk(w, t);
      assert HasJobs(v, t) <==> HasJobs(w, t);
    }
  }

  /** Taking the finalizer off a Task is safe because no Job of it is left. */
  lemma RemoveFinalizerKeeps(w: World, task: Uid)
    requires Inv(w) && Enabled(w, RemoveTaskFinalizer(task))
    ensures Inv(Apply(w, RemoveTaskFinalizer(task)))
  {
    var v := Apply(w, RemoveTaskFinalizer(task));
    assert PcOk(w, task);
    assert forall t :: t in w.tasks ==> TaskOk(w, t);
    forall j | j in v.jobs
      ensures TaskHeld(v, v.jobs[j])
    {
      assert TaskHeld(w, w.jobs[j]);
      assert w.jobs[j] != task;
    }
    forall t | t in v.taskPcs
      ensures PcOk(v, t)
    {
      assert t in w.taskPcs ==> PcOk(w, t);
      assert HasJobs(v, t) <==> HasJobs(w, t);
    }
  }

  lemma JobGoneKeeps(w: World, job: Uid)
    requires Inv(w)
    ensures Inv(Apply(w, JobDisappears(job)))
  {
    var v := Apply(w, JobDisappears(job));
    assert forall t :: t in w.tasks ==> TaskOk(w, t);
    forall t | t in v.taskPcs
      ensures PcOk(v, t)
    {
      assert PcOk(w, t);
      assert HasJobs(v, t) ==> HasJobs(w, t) by {
        if HasJobs(v, t) {
          var j :| j in v.jobs && v.jobs[j] == t;
          assert j in w.jobs && w.jobs[j] == t;
        }
      }
    }
    forall j | j in v.jobs
      ensures TaskHeld(v, v.jobs[j])
    {
      assert TaskHeld(w, w.jobs[j]);
    }
  }

  lemma StepKeeps(w: World, event: Event)
    requires Inv(w) && Enabled(w, event)
    ensures Inv(Apply(w, event))
  {
    match event
    case TaskBegins(task) => TaskReadKeeps(w, task);
    case CreateJob(task) => CreateJobKeeps(w, task);
    case ListJobsAgain(_) => PcStepKeeps(w, event);
    case TaskAborts(_) => PcStepKeeps(w, event);
    case RemoveTaskFinalizer(task) => RemoveFinalizerKeeps(w, task);
    case JobDisappears(job) => JobGoneKeeps(w, job);
    case DeleteChild(_) => DeleteKeeps(w, event);
    case UserDeletesTask(_) => DeleteKeeps(w, event);
    case _ => WorkflowStepKeeps(w, event);
  }

  // ---- runs -------------------------------------------------------------------------------------------

  ghost predicate Run(worlds: seq<World>, events: seq<Event>) {
    && |worlds| == |events| + 1
    && worlds[0] == World(Dag.Some(Object(false, false)), map[], {}, map[], WfIdle, map[], 0)
    && forall i :: 0 <= i < |events| ==> StepAt(worlds, events, i)
  }

  ghost predicate StepAt(worlds: seq<World>, events: seq<Event>, i: nat)
    requires i < |events| < |worlds|
  {
    Enabled(worlds[i], events[i]) && worlds[i + 1] == Apply(worlds[i], events[i])
  }

  lemma {:induction false} RunInv(worlds: seq<World>, events: seq<Event>, i: nat)
    requires Run(worlds, events) && i < |worlds|
    ensures Inv(worlds[i])
  {
    if i > 0 {
      RunInv(worlds, events, i - 1);
      assert StepAt(worlds, events, i - 1);
      StepKeeps(worlds[i - 1], events[i - 1]);
    }
  }

  /** A Job exists only while its Task holds its finalizer, a child Task only while the Workflow does;
      so nothing outlives its owner. */
  lemma NothingOutlivesItsOwner(worlds: seq<World>, events: seq<Event>, i: nat)
    requires Run(worlds, events) && i < |worlds|
    ensures forall j :: j in worlds[i].jobs ==> TaskHeld(worlds[i], worlds[i].jobs[j])
    ensures (exists t :: t in worlds[i].tasks && t !in worlds[i].standalone) ==> Held(worlds[i])
    ensures forall t :: t !in worlds[i].tasks ==> !HasJobs(worlds[i], t)
    ensures worlds[i].workflow.None? ==>
              (forall t :: t in worlds[i].tasks ==> t in worlds[i].standalone)
              && forall j :: j in worlds[i].jobs ==> worlds[i].jobs[j] in worlds[i].standalone
  {
    var w := worlds[i];
    RunInv(worlds, events, i);
    forall t | t !in w.tasks
      ensures !HasJobs(w, t)
    {
      assert forall j :: j in w.jobs ==> TaskHeld(w, w.jobs[j]);
    }
  }

  // ---- deletion comes to an end ------------------------------------------------------------------------

  /** Some steps lead from w to v. */
  ghost predicate Path(w: World, worlds: seq<World>, events: seq<Event>, v: World) {
    && |worlds| == |events| + 1 && worlds[0] == w && worlds[|events|] == v
    && forall i :: 0 <= i < |events| ==> StepAt(worlds, events, i)
  }

  ghost predicate Leads(w: World, v: World) {
    exists worlds, events :: Path(w, worlds, events, v)
  }

  lemma LeadsNowhere(w: World)
    ensures Leads(w, w)
  {
    assert Path(w, [w], [], w);
  }

  lemma LeadsOn(w: World, v: World, event: Event) returns (u: World)
    requires Leads(w, v) && Inv(v) && Enabled(v, event)
    ensures u == Apply(v, event) && Leads(w, u) && Inv(u)
  {
    u := Apply(v, event);
    StepKeeps(v, event);
    var worlds, events :| Path(w, worlds, events, v);
    var worlds', events' := worlds + [u], events + [event];
    forall i | 0 <= i < |events'|
      ensures StepAt(worlds', events', i)
    {
      assert i < |events| ==> StepAt(worlds, events, i);
    }
    assert Path(w, worlds', events', u);
  }

  /** u is v but for Jobs, the Task controller's state, and Tasks that are gone. */
  ghost predicate FewerTasks(v: World, u: World) {
    && u.workflow == v.workflow && u.standalone == v.standalone && u.pc == v.pc
    && forall t :: t in u.tasks ==> t in v.tasks
  }

  lemma {:induction false} ClearJobs(w: World, v: World, task: Uid) returns (u: World)
    requires Leads(w, v) && Inv(v)
    ensures Leads(w, u) && Inv(u) && !HasJobs(u, task)
    ensures u == v.(jobs := u.jobs)
    decreases |v.jobs|
  {
    u := v;
    if HasJobs(v, task) {
      var j :| j in v.jobs && v.jobs[j] == task;
      u := LeadsOn(w, v, JobDisappears(j));
      assert u.jobs.Keys == v.jobs.Keys - {j};
      assert |u.jobs.Keys| == |v.jobs| - 1;
      u := ClearJobs(w, u, task);
    }
  }

  /** Once its Jobs are gone, a Task that is being deleted goes in one more reconcile. */
  lemma FinishTask(w: World, v: World, task: Uid) returns (u: World)
    requires Leads(w, v) && Inv(v) && task in v.tasks && v.tasks[task].deleting
    ensures Leads(w, u) && Inv(u) && FewerTasks(v, u) && task !in u.tasks
  {
    u := LeadsOn(w, v, TaskAborts(task));
    u := ClearJobs(w, u, task);
    u := LeadsOn(w, u, TaskBegins(task));
    u := LeadsOn(w, u, ListJobsAgain(task));
    u := LeadsOn(w, u, RemoveTaskFinalizer(task));
  }

  /** From every reachable state a Task that is being deleted can be brought to its end. */
  lemma TaskDeletionEnds(w: World, task: Uid) returns (v: World)
    requires Inv(w) && task in w.tasks && w.tasks[task].deleting
    ensures Leads(w, v) && task !in v.tasks && !HasJobs(v, task)
  {
    LeadsNowhere(w);
    v := FinishTask(w, w, task);
    forall j | j in v.jobs
      ensures v.jobs[j] != task
    {
      assert TaskHeld(v, v.jobs[j]);
    }
  }

  lemma RemoveChild(w: World, v: World, task: Uid) returns (u: World)
    requires Leads(w, v) && Inv(v) && v.pc.WfCleaning? && task in v.pc.listed
    ensures Leads(w, u) && Inv(u) && FewerTasks(v, u) && task !in u.tasks
  {
    u := LeadsOn(w, v, DeleteChild(task));
    if task in u.tasks {
      u := FinishTask(w, u, task);
    }
  }

  lemma {:induction false} RemoveChildren(w: World, v: World, rest: set<Uid>) returns (u: World)
    requires Leads(w, v) && Inv(v) && v.pc.WfCleaning? && rest <= v.pc.listed
    requires forall t :: t in v.pc.listed && t in v.tasks ==> t in rest
    ensures Leads(w, u) && Inv(u) && FewerTasks(v, u)
    ensures forall t :: t in u.pc.listed ==> t !in u.tasks
    decreases |rest|
  {
    u := v;
    if rest != {} {
      var t :| t in rest;
      u := RemoveChild(w, v, t);
      var done := u;
      u := RemoveChildren(w, done, rest - {t});
      assert forall x :: x in u.tasks ==> x in v.tasks;
    }
  }

  /** From every reachable state the deletion of a Workflow can be brought to its end: the Workflow, its children and
      their Jobs go. */
  lemma WorkflowDeletionEnds(w: World) returns (v: World)
    requires Inv(w) && w.workflow.Some? && w.workflow.value.deleting
    ensures Leads(w, v) && Inv(v) && v.workflow.None?
    ensures forall t :: t in v.tasks ==> t in v.standalone
    ensures forall j :: j in v.jobs ==> v.jobs[j] in v.standalone
  {
    LeadsNowhere(w);
    v := LeadsOn(w, w, WorkflowAborts);
    v := LeadsOn(w, v, WorkflowBegins);
    v := RemoveChildren(w, v, v.pc.listed);
    v := LeadsOn(w, v, WorkflowConcludes);
    forall j | j in v.jobs
      ensures v.jobs[j] in v.standalone
    {
      assert TaskHeld(v, v.jobs[j]);
    }
  }

  /** The Workflow goes at the end of a cleaning reconcile exactly when each child it listed is gone. */
  lemma RemovedExactly(w: World)
    requires w.pc.WfCleaning? && w.workflow.Some? && w.workflow.value.deleting
    ensures Apply(w, WorkflowConcludes).workflow.None? <==> forall t :: t in w.pc.listed ==> t !in w.tasks
  {
  }

  // ---- the child loop of handleDeletion ------------------------------------------------------------------

  /** How the server answers the delete of a listed child. */
  datatype DeleteAnswer = Accepted | NotFound | Refused

  datatype Child = Child(task: Uid, deleting: bool, answer: DeleteAnswer)

  /** A listed child that its delete did not find gone. */
  function StillThere(children: seq<Child>): nat {
    if children == [] then 0
    else
      var n := |children| - 1;
      StillThere(children[..n]) + if children[n].deleting || !children[n].answer.NotFound? then 1 else 0
  }

  /** Counts the children still there; zero means every one of them was found gone. */
  method DeleteChildren(children: seq<Child>) returns (failed: bool, remaining: nat)
    ensures failed <==> exists i :: 0 <= i < |children| && !children[i].deleting && children[i].answer.Refused?
    ensures !failed ==> remaining == StillThere(children)
    ensures !failed ==>
      (remaining == 0 <==> forall i :: 0 <= i < |children| ==> !children[i].deleting && children[i].answer.NotFound?)
  {
    remaining := 0;
    for i := 0 to |children|
      invariant forall k :: 0 <= k < i ==> children[k].deleting || !children[k].answer.Refused?
      invariant remaining == StillThere(children[..i])
      invariant remaining == 0 <==> forall k :: 0 <= k < i ==> !children[k].deleting && children[k].answer.NotFound?
    {
      var child := children[i];
      assert children[..i + 1][..i] == children[..i];
      if child.deleting {
        remaining := remaining + 1;
        continue;
      }
      match child.answer {
        case Refused => return true, remaining;
        case NotFound =>
        case Accepted => remaining := remaining + 1;
      }
    }
    assert children[..|children|] == children;
    return false, remaining;
  }
}
