/** When a one-time Task creates a Job (handleOneTime in internal/controller/task_controller.go). */
module OneTime {
  import opened Names
  import opened Scheduler
  import opened TaskStatus
  import Dag

  /** taskExecutionFinished, with triggered standing for a manual trigger after completion. */
  predicate ExecutionFinished(s: TaskState, triggered: bool) {
    !triggered && (s.phase.TaskSucceeded? || s.phase.TaskFailed?) && (s.lastCompletion.Some? || s.history != [])
  }

  datatype Choice = DoSync | DoNothing | DoCreate

  /** handleOneTime. */
  function HandleOneTime(s: TaskState, listing: seq<Job>, triggered: bool): Choice {
    if listing != [] then DoSync else if ExecutionFinished(s, triggered) then DoNothing else DoCreate
  }

  // ---- runs ---------------------------------------------------------------------------------------

  /** created counts the Jobs ever created; lastStart is the stored start time and trigger the trigger annotation. */
  datatype World = World(status: TaskState, jobs: map<Name, Job>, created: nat,
                         lastStart: Dag.Option<int>, trigger: Dag.Option<int>)

  /** A reconcile lists the Jobs there are; its status write may be lost. Suspend and Resume change the phase only. */
  datatype Event =
    | Reconciled(listing: seq<Job>, jobName: Name, now: int, written: bool)
    | JobChanges(job: Job)
    | Vanish(name: Name)
    | Trigger(at: int)
    | Suspend
    | Resume

  /** The time a trigger is compared with: the last completion, or else the last start. */
  function LastRun(w: World): Dag.Option<int> {
    if w.status.lastCompletion.Some? then w.status.lastCompletion else w.lastStart
  }

  /** taskManuallyTriggeredAfterCompletion; an annotation that is missing or does not parse is None. */
  predicate TriggeredAfterCompletion(w: World) {
    w.trigger.Some? && (LastRun(w).None? || w.trigger.value > LastRun(w).value)
  }

  ghost predicate Enumerates(jobs: map<Name, Job>, listing: seq<Job>) {
    && (forall j :: j in listing ==> j.name in jobs && jobs[j.name] == j)
    && (forall n :: n in jobs ==> jobs[n] in listing)
  }

  predicate Ended(j: Job) {
    j.complete || j.failed
  }

  function WithPhase(w: World, phase: TaskPhase): World {
    w.(status := w.status.(phase := phase))
  }

  function Created(w: World, jobName: Name, now: int, written: bool): World {
    var made := w.(jobs := w.jobs[jobName := Job(jobName, false, false, Dag.None, 0, 0)], created := w.created + 1);
    if written
    then made.(status := w.status.(phase := TaskRunning, activeJobs := w.status.activeJobs + [jobName]),
               lastStart := Dag.Some(now))
    else made
  }

  ghost predicate Step(w: World, event: Event, v: World) {
    match event
    case Reconciled(listing, jobName, now, written) =>
      && Enumerates(w.jobs, listing) && jobName !in w.jobs && !w.status.phase.TaskSuspended?
      && (match HandleOneTime(w.status, listing, TriggeredAfterCompletion(w))
          case DoSync => v == if written then w.(status := AfterSync(w.status, listing)) else w
          case DoNothing => v == w
          case DoCreate => v == Created(w, jobName, now, written))
    case JobChanges(job) =>
      && job.name in w.jobs && (Ended(w.jobs[job.name]) ==> job == w.jobs[job.name])
      && v == w.(jobs := w.jobs[job.name := job])
    case Vanish(name) => v == w.(jobs := w.jobs - {name})
    case Trigger(at) => v == w.(trigger := Dag.Some(at), status := w.status.(activeJobs := []))
    case Suspend => v == WithPhase(w, TaskSuspended)
    case Resume => v == if w.status.phase.TaskSuspended? then WithPhase(w, TaskPending) else w
  }

  ghost predicate Run(worlds: seq<World>, events: seq<Event>) {
    && |worlds| == |events| + 1
    && forall i :: 0 <= i < |events| ==> StepAt(worlds, events, i)
  }

  ghost predicate StepAt(worlds: seq<World>, events: seq<Event>, i: nat)
    requires i < |events| < |worlds|
  {
    Step(worlds[i], events[i], worlds[i + 1])
  }

  /** A reconcile creates a Job exactly when none is there and the Task has not finished, or its trigger is later than
      its last completion, or than its last start if it never completed. */
  lemma CreatesExactly(w: World, event: Event, v: World)
    requires Step(w, event, v) && event.Reconciled?
    ensures v.created == w.created || v.created == w.created + 1
    ensures v.created == w.created + 1 <==>
              && w.jobs == map[]
              && (|| (w.status.phase != TaskSucceeded && w.status.phase != TaskFailed)
                  || (w.status.lastCompletion == Dag.None && w.status.history == [])
                  || (w.trigger.Some? && w.status.lastCompletion.Some? && w.trigger.value > w.status.lastCompletion.value)
                  || (w.trigger.Some? && w.status.lastCompletion.None? && w.lastStart.Some?
                      && w.trigger.value > w.lastStart.value)
                  || (w.trigger.Some? && w.status.lastCompletion.None? && w.lastStart.None?))
  {
    NothingListed(w.jobs, event.listing);
  }

  lemma NothingListed(jobs: map<Name, Job>, listing: seq<Job>)
    requires Enumerates(jobs, listing)
    ensures listing == [] <==> jobs == map[]
  {
    if jobs != map[] {
      var n :| n in jobs;
      assert jobs[n] in listing;
    }
    if listing != [] {
      assert listing[0] in listing;
    }
  }

  // ---- a finished Task ------------------------------------------------------------------------------

  /** The trigger, if there is one, is not later than the last run, nor than any completion still to be recorded. */
  ghost predicate Untriggered(w: World) {
    w.trigger.Some? ==>
      && LastRun(w).Some? && w.trigger.value <= LastRun(w).value
      && forall n :: n in w.jobs && w.jobs[n].completionTime.Some? ==> w.trigger.value <= w.jobs[n].completionTime.value
  }

  /** Finished for good: a counted outcome, no Job still going, and no trigger since. */
  ghost predicate Settled(w: World) {
    && (w.status.phase == TaskSucceeded || w.status.phase == TaskFailed)
    && (w.status.lastCompletion != Dag.None || w.status.history != [])
    && (w.status.succeeded > 0 || w.status.failed > 0)
    && (forall n :: n in w.jobs ==> Ended(w.jobs[n]))
    && Untriggered(w)
  }

  lemma VisitKeeps(l: Loop, j: Job)
    ensures var m := Visit(l, j);
            && m.succeeded >= l.succeeded && m.failed >= l.failed && |m.history| >= |l.history|
            && (m.lastCompletion == l.lastCompletion || (j.completionTime.Some? && m.lastCompletion == j.completionTime))
            && (Ended(j) ==> m.active == l.active)
  {
    HistoryIndexFinds(l.history);
  }

  ghost predicate CompletedIn(jobs: seq<Job>, time: Dag.Option<int>) {
    time.Some? && exists i :: 0 <= i < |jobs| && jobs[i].completionTime == time
  }

  lemma {:induction false} SyncKeeps(l: Loop, jobs: seq<Job>)
    ensures var m := VisitAll(l, jobs);
            && m.succeeded >= l.succeeded && m.failed >= l.failed && |m.history| >= |l.history|
            && (m.lastCompletion == l.lastCompletion || CompletedIn(jobs, m.lastCompletion))
            && ((forall i :: 0 <= i < |jobs| ==> Ended(jobs[i])) ==> m.active == l.active)
  {
    if jobs != [] {
      var n := |jobs| - 1;
      SyncKeeps(l, jobs[..n]);
      VisitKeeps(VisitAll(l, jobs[..n]), jobs[n]);
      assert forall i :: 0 <= i < n ==> jobs[..n][i] == jobs[i];
    }
  }

  lemma SettledSync(s: TaskState, jobs: seq<Job>)
    requires s.succeeded > 0 || s.failed > 0
    requires s.lastCompletion != Dag.None || s.history != []
    requires forall j :: j in jobs ==> Ended(j)
    ensures var t := AfterSync(s, jobs);
            && (t.phase == TaskSucceeded || t.phase == TaskFailed)
            && (t.lastCompletion != Dag.None || t.history != []) && (t.succeeded > 0 || t.failed > 0)
            && (t.lastCompletion == s.lastCompletion || CompletedIn(jobs, t.lastCompletion))
  {
    SyncKeeps(LoopStart(s), jobs);
  }

  lemma SettledReconcile(w: World, event: Event, v: World)
    requires Settled(w) && Step(w, event, v) && event.Reconciled?
    ensures Settled(v) && v.created == w.created
  {
    CreatesExactly(w, event, v);
    forall j | j in event.listing
      ensures Ended(j) && w.jobs[j.name] == j
    {
      assert w.jobs[j.name] == j;
    }
    SettledSync(w.status, event.listing);
    if CompletedIn(event.listing, v.status.lastCompletion) {
      var i :| 0 <= i < |event.listing| && event.listing[i].completionTime == v.status.lastCompletion;
      assert event.listing[i] in event.listing;
    }
  }

  lemma SettledStep(w: World, event: Event, v: World)
    requires Settled(w) && Step(w, event, v) && !event.Suspend? && !event.Trigger?
    ensures Settled(v) && v.created == w.created
  {
    if event.Reconciled? {
      SettledReconcile(w, event, v);
    }
  }

  /** Once finished, a Task that is neither suspended nor triggered never creates another Job, even when its Jobs are
      gone, and keeps an outcome. */
  lemma {:induction false} FinishedNeverReruns(worlds: seq<World>, events: seq<Event>, i: nat, j: nat)
    requires Run(worlds, events) && i <= j < |worlds| && Settled(worlds[i])
    requires forall k :: i <= k < j ==> !events[k].Suspend? && !events[k].Trigger?
    ensures Settled(worlds[j]) && worlds[j].created == worlds[i].created
    decreases j
  {
    if i < j {
      FinishedNeverReruns(worlds, events, i, j - 1);
      assert StepAt(worlds, events, j - 1);
      SettledStep(worlds[j - 1], events[j - 1], worlds[j]);
    }
  }

  /** While the Task has a Job, triggered or not and finished or not, a reconcile only syncs: a stored status is Running
      if some Job is unfinished, and an outcome otherwise. */
  lemma ListedJobsAreSynced(w: World, event: Event, v: World)
    requires Step(w, event, v) && event.Reconciled? && w.jobs != map[]
    ensures v.created == w.created && v.jobs == w.jobs
    ensures event.written && (exists n :: n in w.jobs && !Ended(w.jobs[n])) ==> v.status.phase == TaskRunning
    ensures event.written && (forall n :: n in w.jobs ==> Ended(w.jobs[n])) ==>
              v.status.activeJobs == [] && (v.status.succeeded > 0 ==> v.status.phase == TaskSucceeded)
              && (v.status.succeeded == 0 && v.status.failed > 0 ==> v.status.phase == TaskFailed)
  {
    NothingListed(w.jobs, event.listing);
    ActiveJobs(LoopStart(w.status), event.listing);
    if n :| n in w.jobs && !Ended(w.jobs[n]) {
      assert w.jobs[n] in event.listing;
    } else {
      forall j | j in event.listing
        ensures Ended(j)
      {
        assert w.jobs[j.name] == j;
      }
    }
  }

  lemma {:induction false} ActiveJobs(l: Loop, jobs: seq<Job>)
    ensures |VisitAll(l, jobs).active| >= |l.active|
    ensures |VisitAll(l, jobs).active| == |l.active| <==> forall j :: j in jobs ==> Ended(j)
    ensures (forall j :: j in jobs ==> Ended(j)) ==> VisitAll(l, jobs).active == l.active
  {
    if jobs != [] {
      var n := |jobs| - 1;
      ActiveJobs(l, jobs[..n]);
      assert jobs == jobs[..n] + [jobs[n]];
      assert forall j :: j in jobs <==> j in jobs[..n] || j == jobs[n];
      assert Ended(jobs[n]) <==> Transitioned(jobs[n]);
    }
  }

  // ---- two ways to run again ---------------------------------------------------------------------------

  lemma CreateStep(w: World, jobName: Name, now: int)
    requires w.jobs == map[] && !w.status.phase.TaskSuspended?
    requires !ExecutionFinished(w.status, TriggeredAfterCompletion(w))
    ensures Step(w, Reconciled([], jobName, now, true), Created(w, jobName, now, true))
  {
  }

  /** Suspending and resuming a finished Task whose Job is gone runs it again, without any trigger. */
  lemma ResumeReruns(w: World, jobName: Name) returns (worlds: seq<World>, events: seq<Event>)
    requires Settled(w) && w.jobs == map[]
    ensures Run(worlds, events) && worlds[0] == w && |events| == 3
    ensures worlds[3].created == w.created + 1
    ensures forall k :: 0 <= k < 3 ==> !events[k].Trigger?
  {
    var suspended := WithPhase(w, TaskSuspended);
    var resumed := WithPhase(suspended, TaskPending);
    events := [Suspend, Resume, Reconciled([], jobName, 0, true)];
    worlds := [w, suspended, resumed, Created(resumed, jobName, 0, true)];
    CreateStep(resumed, jobName, 0);
    assert Step(w, events[0], suspended) && Step(suspended, events[1], resumed);
  }

  /** A trigger is not used up by a run that fails: a failed Job has no completion time, so the trigger stays later than
      the last completion, and every time the failed Job is gone the Task runs once more. */
  lemma FailedRerunRepeats(w: World, jobName: Name, at: int) returns (worlds: seq<World>, events: seq<Event>)
    requires Settled(w) && w.jobs == map[]
    requires w.status.lastCompletion.Some? && at > w.status.lastCompletion.value
    ensures Run(worlds, events) && worlds[0] == w && |events| == 6
    ensures worlds[6].created == w.created + 2
    ensures forall k :: 0 < k < 6 ==> !events[k].Trigger? && !events[k].Suspend?
  {
    var failed := Job(jobName, false, true, Dag.None, 0, 4);
    var w1 := w.(trigger := Dag.Some(at), status := w.status.(activeJobs := []));
    var w2 := Created(w1, jobName, at, true);
    var w3 := w2.(jobs := w2.jobs[jobName := failed]);
    var w4 := w3.(status := AfterSync(w3.status, [failed]));
    var w5 := w4.(jobs := w4.jobs - {jobName});
    var w6 := Created(w5, Name(jobName.text + "y"), at, true);
    events := [Trigger(at), Reconciled([], jobName, at, true), JobChanges(failed),
               Reconciled([failed], Name(jobName.text + "x"), at, true), Vanish(jobName),
               Reconciled([], Name(jobName.text + "y"), at, true)];
    worlds := [w, w1, w2, w3, w4, w5, w6];
    assert Step(w, events[0], w1);
    CreateStep(w1, jobName, at);
    assert Step(w2, events[2], w3);
    assert w3.jobs == map[jobName := failed];
    FailedStep(w3, failed, Name(jobName.text + "x"), at);
    assert Step(w4, events[4], w5);
    assert w5.jobs == map[];
    CreateStep(w5, Name(jobName.text + "y"), at);
  }

  lemma FailedStep(w: World, failed: Job, other: Name, now: int)
    requires failed.failed && !failed.complete && failed.completionTime.None?
    requires w.jobs == map[failed.name := failed] && other != failed.name && !w.status.phase.TaskSuspended?
    ensures var t := AfterSync(w.status, [failed]);
            && Step(w, Reconciled([failed], other, now, true), w.(status := t))
            && t.lastCompletion == w.status.lastCompletion && !t.phase.TaskSuspended?
  {
    SyncKeeps(LoopStart(w.status), [failed]);
  }
}
