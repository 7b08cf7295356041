/** Job accounting of the Task reconciler (internal/controller/task_controller.go). */
module TaskStatus {
  import opened Names
  import Dag
  import opened Scheduler

  /** A Job as the reconciler lists it. Pod counters are carried along but never read for the outcome. */
  datatype Job = Job(name: Name, complete: bool, failed: bool, completionTime: Dag.Option<int>,
                     podsSucceeded: nat, podsFailed: nat)

  datatype Record = Record(job: Name, phase: TaskPhase)

  datatype TaskState = TaskState(
    phase: TaskPhase, succeeded: nat, failed: nat, history: seq<Record>,
    activeJobs: seq<Name>, lastCompletion: Dag.Option<int>)

  const HISTORY_LIMIT := 10

  /** jobTransitioned: the Job carries a true terminal condition. */
  predicate Transitioned(j: Job) {
    j.complete || j.failed
  }

  /** jobPhase. */
  function JobPhase(j: Job): TaskPhase {
    if j.complete then TaskSucceeded else if j.failed then TaskFailed else TaskRunning
  }

  predicate IsTerminalRecord(r: Record) {
    r.phase.TaskSucceeded? || r.phase.TaskFailed?
  }

  function HistoryIndex(history: seq<Record>): map<Name, nat> {
    if history == [] then map[]
    else var n := |history| - 1; HistoryIndex(history[..n])[history[n].job := n]
  }

  lemma {:induction false} HistoryIndexFinds(history: seq<Record>)
    ensures forall j :: j in HistoryIndex(history) <==> exists i :: 0 <= i < |history| && history[i].job == j
    ensures forall j :: j in HistoryIndex(history) ==>
              HistoryIndex(history)[j] < |history| && history[HistoryIndex(history)[j]].job == j
  {
    if history != [] {
      HistoryIndexFinds(history[..|history| - 1]);
    }
  }

  /** Local state of the sync loop. */
  datatype Loop = Loop(succeeded: nat, failed: nat, history: seq<Record>, active: seq<Name>,
                       lastCompletion: Dag.Option<int>)

  function Counted(l: Loop, j: Job): Loop {
    var index := HistoryIndex(l.history);
    HistoryIndexFinds(l.history);
    var record := Record(j.name, JobPhase(j));
    if j.name in index && IsTerminalRecord(l.history[index[j.name]]) then l
    else
      l.(succeeded := if record.phase.TaskSucceeded? then l.succeeded + 1 else l.succeeded,
         failed := if record.phase.TaskSucceeded? then l.failed else l.failed + 1,
         history := if j.name in index then l.history[index[j.name] := record] else l.history + [record])
  }

  function Visit(l: Loop, j: Job): Loop {
    if !Transitioned(j) then l.(active := l.active + [j.name])
    else
      Counted(l, j).(lastCompletion := if j.completionTime.Some? then j.completionTime else l.lastCompletion)
  }

  function VisitAll(l: Loop, jobs: seq<Job>): Loop {
    if jobs == [] then l else Visit(VisitAll(l, jobs[..|jobs| - 1]), jobs[|jobs| - 1])
  }

  function LastTen(history: seq<Record>): seq<Record> {
    if |history| > HISTORY_LIMIT then history[|history| - HISTORY_LIMIT..] else history
  }

  /** taskStatusPhase. */
  function OverallPhase(phase: TaskPhase, succeeded: nat, failed: nat, active: seq<Name>): TaskPhase {
    if active != [] then TaskRunning
    else if succeeded > 0 then TaskSucceeded
    else if failed > 0 then TaskFailed
    else if phase.TaskUnset? then TaskPending
    else phase
  }

  function LoopStart(s: TaskState): Loop {
    Loop(s.succeeded, s.failed, s.history, [], s.lastCompletion)
  }

  /** syncJobStatus as a function of the listed Jobs. */
  function AfterSync(s: TaskState, jobs: seq<Job>): TaskState {
    var l := VisitAll(LoopStart(s), jobs);
    TaskState(OverallPhase(s.phase, l.succeeded, l.failed, l.active), l.succeeded, l.failed,
           LastTen(l.history), l.active, l.lastCompletion)
  }

  class TaskObject {
    var phase: TaskPhase
    var succeeded: nat
    var failed: nat
    var history: seq<Record>
    var activeJobs: seq<Name>
    var lastCompletion: Dag.Option<int>

    constructor (s: TaskState)
      ensures View() == s
    {
      phase, succeeded, failed, history := s.phase, s.succeeded, s.failed, s.history;
      activeJobs, lastCompletion := s.activeJobs, s.lastCompletion;
    }

    function View(): TaskState
      reads this
    {
      TaskState(phase, succeeded, failed, history, activeJobs, lastCompletion)
    }

    method BuildIndex() returns (index: map<Name, nat>)
      ensures index == HistoryIndex(history)
    {
      index := map[];
      for i := 0 to |history|
        invariant index == HistoryIndex(history[..i])
      {
        assert history[..i + 1][..i] == history[..i];
        index := index[history[i].job := i];
      }
      assert history[..|history|] == history;
    }

    /** Count the outcome of a terminal Job unless a terminal record of it exists. */
    method CountJob(job: Job, index: map<Name, nat>, ghost l: Loop) returns (index': map<Name, nat>, dirty: bool)
      requires Transitioned(job) && index == HistoryIndex(history)
      requires l.succeeded == succeeded && l.failed == failed && l.history == history
      modifies this`succeeded, this`failed, this`history
      ensures index' == HistoryIndex(history)
      ensures Counted(l, job) == l.(succeeded := succeeded, failed := failed, history := history)
      ensures succeeded + failed == old(succeeded + failed) + if dirty then 1 else 0
      ensures !dirty ==> View() == old(View())
    {
      index', dirty := index, false;
      HistoryIndexFinds(history);
      var record := Record(job.name, JobPhase(job));
      var recorded := job.name in index;
      if recorded && IsTerminalRecord(history[index[job.name]]) {
        return;
      }
      dirty := true;
      if record.phase.TaskSucceeded? {
        succeeded := succeeded + 1;
      } else {
        failed := failed + 1;
      }
      if recorded {
        IndexAfterUpdate(history, index[job.name], record);
        history := history[index[job.name] := record];
      } else {
        IndexAfterAppend(history, record);
        history := history + [record];
        index' := index'[job.name := |history| - 1];
      }
    }

    method NoteCompletion(job: Job) returns (dirty: bool)
      modifies this`lastCompletion
      ensures lastCompletion == if job.completionTime.Some? then job.completionTime else old(lastCompletion)
      ensures dirty <==> lastCompletion != old(lastCompletion)
    {
      dirty := false;
      if job.completionTime.Some? {
        if lastCompletion != job.completionTime {
          lastCompletion := job.completionTime;
          dirty := true;
        }
      }
    }

    /** One listed Job. */
    method VisitJob(job: Job, index: map<Name, nat>, active: seq<Name>)
      returns (index': map<Name, nat>, active': seq<Name>, dirty: bool)
      requires index == HistoryIndex(history)
      modifies this`succeeded, this`failed, this`history, this`lastCompletion
      ensures index' == HistoryIndex(history)
      ensures Loop(succeeded, failed, history, active', lastCompletion) ==
              Visit(Loop(old(succeeded), old(failed), old(history), active, old(lastCompletion)), job)
      ensures succeeded + failed >= old(succeeded + failed)
      ensures dirty <==> succeeded + failed > old(succeeded + failed) || Brings(job, old(lastCompletion))
      ensures succeeded + failed == old(succeeded + failed) ==>
                succeeded == old(succeeded) && failed == old(failed) && history == old(history)
      ensures !Brings(job, old(lastCompletion)) ==> lastCompletion == old(lastCompletion)
    {
      if !Transitioned(job) {
        return index, active + [job.name], false;
      }
      active' := active;
      index', dirty := CountJob(job, index, Loop(succeeded, failed, history, active, lastCompletion));
      var noted := NoteCompletion(job);
      dirty := dirty || noted;
    }

    /** The loop over the listed Jobs: dirty exactly when a Job was counted or brings another completion time. */
    method VisitJobs(jobs: seq<Job>) returns (active: seq<Name>, dirty: bool)
      modifies this`succeeded, this`failed, this`history, this`lastCompletion
      ensures Loop(succeeded, failed, history, active, lastCompletion) == VisitAll(LoopStart(old(View())), jobs)
      ensures succeeded + failed >= old(succeeded + failed)
      ensures dirty <==> succeeded + failed > old(succeeded + failed) || OtherCompletion(old(lastCompletion), jobs)
      ensures succeeded + failed == old(succeeded + failed) ==> history == old(history)
      ensures !dirty ==> View() == old(View())
    {
      active, dirty := [], false;
      var index := BuildIndex();
      for i := 0 to |jobs|
        invariant index == HistoryIndex(history)
        invariant Loop(succeeded, failed, history, active, lastCompletion) == VisitAll(LoopStart(old(View())), jobs[..i])
        invariant succeeded + failed >= old(succeeded + failed)
        invariant dirty <==> succeeded + failed > old(succeeded + failed) || OtherCompletion(old(lastCompletion), jobs[..i])
        invariant succeeded + failed == old(succeeded + failed) ==>
                    succeeded == old(succeeded) && failed == old(failed) && history == old(history)
        invariant !OtherCompletion(old(lastCompletion), jobs[..i]) ==> lastCompletion == old(lastCompletion)
      {
        assert jobs[..i + 1][..i] == jobs[..i];
        OtherCompletionNext(old(lastCompletion), jobs, i);
        var moved;
        index, active, moved := VisitJob(jobs[i], index, active);
        dirty := dirty || moved;
      }
      assert jobs[..|jobs|] == jobs;
    }

    /** syncJobStatus: it writes exactly when the status changes or a finished Job brings another completion time
        than the one recorded before the sync. */
    method SyncJobStatus(jobs: seq<Job>) returns (statusDirty: bool)
      modifies this
      ensures View() == AfterSync(old(View()), jobs)
      ensures statusDirty <==> View() != old(View()) || OtherCompletion(old(lastCompletion), jobs)
    {
      var active;
      active, statusDirty := VisitJobs(jobs);
      if |history| > HISTORY_LIMIT {
        history := history[|history| - HISTORY_LIMIT..];
        statusDirty := true;
      }
      if activeJobs != active {
        activeJobs := active;
        statusDirty := true;
      }
      var newPhase := OverallPhase(phase, succeeded, failed, active);
      if newPhase != phase {
        phase := newPhase;
        statusDirty := true;
      }
    }
  }

  /** A finished Job with another completion time than the last one recorded. */
  predicate Brings(job: Job, last: Dag.Option<int>) {
    Transitioned(job) && job.completionTime.Some? && job.completionTime != last
  }

  predicate OtherCompletion(last: Dag.Option<int>, jobs: seq<Job>) {
    exists i :: 0 <= i < |jobs| && Brings(jobs[i], last)
  }

  lemma OtherCompletionNext(last: Dag.Option<int>, jobs: seq<Job>, i: nat)
    requires i < |jobs|
    ensures OtherCompletion(last, jobs[..i + 1]) <==> OtherCompletion(last, jobs[..i]) || Brings(jobs[i], last)
  {
    assert forall k :: 0 <= k < i ==> jobs[..i + 1][k] == jobs[..i][k];
    assert jobs[..i + 1][i] == jobs[i];
  }

  /** Two recorded Jobs that completed at different times: every sync writes the status it read. */
  lemma UnchangedStatusWritten() returns (s: TaskState, jobs: seq<Job>)
    ensures AfterSync(s, jobs) == s && OtherCompletion(s.lastCompletion, jobs)
  {
    var a, b := Job(Name("a"), true, false, Dag.Some(1), 1, 0), Job(Name("b"), true, false, Dag.Some(2), 1, 0);
    s := TaskState(TaskSucceeded, 2, 0, [Record(a.name, TaskSucceeded), Record(b.name, TaskSucceeded)], [], Dag.Some(2));
    jobs := [a, b];
    var first := LoopStart(s).(lastCompletion := Dag.Some(1));
    HistoryIndexFinds(s.history);
    assert s.history[0].job == a.name && s.history[1].job == b.name;
    assert Counted(LoopStart(s), a) == LoopStart(s) && Counted(first, b) == first;
    assert jobs[..1] == [a] && jobs[..1][..0] == [];
    assert VisitAll(LoopStart(s), jobs[..1]) == first;
    assert VisitAll(LoopStart(s), jobs) == LoopStart(s);
    assert Brings(jobs[0], s.lastCompletion);
  }

  lemma IndexAfterAppend(history: seq<Record>, r: Record)
    ensures HistoryIndex(history + [r]) == HistoryIndex(history)[r.job := |history|]
  {
    assert (history + [r])[..|history|] == history;
  }

  lemma {:induction false} IndexAfterUpdate(history: seq<Record>, i: nat, r: Record)
    requires i < |history| && r.job == history[i].job
    ensures HistoryIndex(history[i := r]) == HistoryIndex(history)
  {
    var n := |history| - 1;
    if i < n {
      IndexAfterUpdate(history[..n], i, r);
      assert history[i := r][..n] == history[..n][i := r];
    } else {
      assert history[i := r][..n] == history[..n];
    }
  }
}
