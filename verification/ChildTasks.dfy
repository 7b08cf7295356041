/** Listing and creating child Tasks on the API server (internal/controller/workflow_controller.go). */
module ChildTasks {
  import opened Names
  import opened Scheduler
  import SchedulerRuns
  import SchedulerProgress
  import Dag

  /** The Workflow as its children refer to it; an empty tenant means none. */
  datatype Owner = Owner(name: Name, uid: int, tenant: Name)

  /** A Task on the server: its tenant and Workflow labels, the uid of its controller, and what a reconcile reads. */
  datatype ServerTask = ServerTask(tenant: Name, workflow: Name, controller: Dag.Option<int>, view: TaskView)

  /** What may go wrong in one creation. */
  datatype Fault = NoFault | CreateFails(applied: bool) | GetFails

  predicate Owns(o: Owner, t: ServerTask) {
    t.tenant == o.tenant && t.controller == Dag.Some(o.uid)
  }

  /** The server as the runs of the scheduler see it. */
  function Seen(o: Owner, tasks: map<Name, ServerTask>): map<Name, SchedulerRuns.TaskObject> {
    map c | c in tasks :: SchedulerRuns.TaskObject(Owns(o, tasks[c]), tasks[c].view)
  }

  /** Every Task the Workflow owns carries its label. */
  ghost predicate WellLabelled(o: Owner, tasks: map<Name, ServerTask>) {
    forall c :: c in tasks && Owns(o, tasks[c]) ==> tasks[c].workflow == o.name
  }

  /** The label selector of the listing. */
  predicate Selected(o: Owner, t: ServerTask) {
    t.workflow == o.name && (o.tenant.text == "" || t.tenant == o.tenant)
  }

  /** listChildTasks: on a well-labelled server it finds exactly the Tasks of the Workflow. */
  method ListChildTasks(o: Owner, tasks: map<Name, ServerTask>) returns (children: map<Name, TaskView>)
    ensures WellLabelled(o, tasks) ==>
              children == map c | c in SchedulerRuns.Mine(Seen(o, tasks)) :: Seen(o, tasks)[c].view
    ensures forall c :: c in children <==> c in tasks && Owns(o, tasks[c]) && tasks[c].workflow == o.name
    ensures forall c :: c in children ==> children[c] == tasks[c].view
  {
    children := map[];
    var rest := tasks.Keys;
    while rest != {}
      invariant rest <= tasks.Keys
      invariant forall c :: c in children <==> c in tasks && c !in rest && Owns(o, tasks[c]) && tasks[c].workflow == o.name
      invariant forall c :: c in children ==> children[c] == tasks[c].view
      decreases |rest|
    {
      var name :| name in rest;
      var task := tasks[name];
      if Selected(o, task) {
        if task.tenant == o.tenant && task.controller == Dag.Some(o.uid) {
          children := children[name := task.view];
        }
      }
      rest := rest - {name};
    }
  }

  function NewChild(o: Owner): ServerTask {
    ServerTask(o.tenant, o.name, Dag.Some(o.uid), FRESH_TASK)
  }

  /** The creates that took effect. */
  function Took(answer: CreateAnswer, node: Name): seq<Name> {
    if answer.Created? || answer == ApiError(true) then [node] else []
  }

  /** createChildTask: afterwards a child returned to the caller exists and is owned by this Workflow, no other Task has
      been touched, and without faults the answer is that of a linearizable server. */
  method CreateChildTask(o: Owner, node: Name, tasks: map<Name, ServerTask>, fault: Fault)
    returns (answer: CreateAnswer, after: map<Name, ServerTask>)
    ensures var child := Dag.ChildTaskName(o.name, node);
            && (answer.Created? || answer.Adopted? ==> child in after && Owns(o, after[child]))
            && (answer.Adopted? ==> after == tasks && answer.task == after[child].view)
            && (answer.Conflict? ==> child in after && !Owns(o, after[child]))
            && (fault.NoFault? ==> answer == SchedulerProgress.ServerAnswer(Seen(o, tasks), child))
    ensures forall c :: c in tasks ==> c in after && after[c] == tasks[c]
    ensures WellLabelled(o, tasks) ==> WellLabelled(o, after)
    ensures forall sys: SchedulerRuns.System :: sys.workflow == o.name ==>
              Seen(o, after) == SchedulerProgress.AfterCreates(sys, Seen(o, tasks), Took(answer, node))
  {
    var name := Dag.ChildTaskName(o.name, node);
    OneCreate(o, node, tasks);
    after := tasks;
    if name !in tasks && (fault.NoFault? || fault.GetFails? || fault.applied) {
      after := after[name := NewChild(o)];
    }
    if fault.CreateFails? {
      return ApiError(fault.applied && name !in tasks), after;
    }
    if name !in tasks {
      return Created, after;
    }
    if fault.GetFails? {
      return ApiError(false), after;
    }
    var existing := tasks[name];
    if existing.tenant != o.tenant || existing.controller != Dag.Some(o.uid) {
      return Conflict, after;
    }
    return Adopted(existing.view), after;
  }

  /** Adding one child is what AfterCreates says about one create; adding none changes nothing. */
  lemma OneCreate(o: Owner, node: Name, tasks: map<Name, ServerTask>)
    ensures forall sys: SchedulerRuns.System :: sys.workflow == o.name ==>
              SchedulerProgress.AfterCreates(sys, Seen(o, tasks), []) == Seen(o, tasks)
    ensures var name := Dag.ChildTaskName(o.name, node);
            name !in tasks ==>
              forall sys: SchedulerRuns.System :: sys.workflow == o.name ==>
                SchedulerProgress.AfterCreates(sys, Seen(o, tasks), [node]) == Seen(o, tasks[name := NewChild(o)])
  {
    var name := Dag.ChildTaskName(o.name, node);
    forall sys: SchedulerRuns.System | sys.workflow == o.name
      ensures SchedulerProgress.AfterCreates(sys, Seen(o, tasks), []) == Seen(o, tasks)
      ensures name !in tasks ==>
        SchedulerProgress.AfterCreates(sys, Seen(o, tasks), [node]) == Seen(o, tasks[name := NewChild(o)])
    {
      assert SchedulerRuns.ChildNames(sys.workflow, Elements([])) == {};
      assert SchedulerRuns.ChildNames(sys.workflow, Elements([node])) == {name} by {
        assert Elements([node]) == {node};
      }
      assert Owns(o, NewChild(o));
    }
  }
}
