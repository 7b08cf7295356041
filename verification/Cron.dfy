/** Cron firing of the Task reconciler (internal/controller/task_controller.go) against a clock. */
module Cron {
  import opened Names
  import opened Scheduler
  import Dag

  /** A schedule: the instants, in seconds, at which it ticks, and how far ahead of an instant the library looks for
      the next one. */
  datatype Schedule = Schedule(ticks: iset<int>, horizon: int -> int)

  /** Looking from later never sees less far: the library searches to the end of a fixed number of years. */
  ghost predicate SoundHorizon(schedule: Schedule) {
    && (forall t :: schedule.horizon(t) >= t)
    && forall t, u :: t <= u ==> schedule.horizon(t) <= schedule.horizon(u)
  }

  /** Number of ticks in the half-open interval (from, to]. */
  ghost function Ticks(schedule: Schedule, from: int, to: int): nat
    decreases if to > from then to - from else 0
  {
    if to <= from then 0 else Ticks(schedule, from, to - 1) + if to in schedule.ticks then 1 else 0
  }

  lemma {:induction false} TicksSplit(schedule: Schedule, a: int, b: int, c: int)
    requires a <= b <= c
    ensures Ticks(schedule, a, c) == Ticks(schedule, a, b) + Ticks(schedule, b, c)
    decreases c - b
  {
    if b < c {
      TicksSplit(schedule, a, b, c - 1);
    }
  }

  lemma {:induction false} TickCounts(schedule: Schedule, a: int, t: int, c: int)
    requires a < t <= c && t in schedule.ticks
    ensures Ticks(schedule, a, c) >= 1
    decreases c - t
  {
    if t < c {
      TickCounts(schedule, a, t, c - 1);
    }
  }

  ghost predicate Within(schedule: Schedule, t: int, u: int) {
    t < u <= schedule.horizon(t) && u in schedule.ticks
  }

  ghost predicate TickAfter(schedule: Schedule, t: int) {
    exists u :: Within(schedule, t, u)
  }

  /** The zero time, in seconds: what the library reports when it finds no further tick. */
  const ZERO_TIME := -62_135_596_800

  /** schedule.Next(t): the least tick strictly after t within the horizon, or the zero time. */
  ghost predicate Reports(schedule: Schedule, t: int, next: int) {
    if TickAfter(schedule, t)
    then Within(schedule, t, next) && forall u :: t < u < next ==> u !in schedule.ticks
    else next == ZERO_TIME
  }

  /** From every instant on, the library finds a later tick. */
  ghost predicate KeepsTicking(schedule: Schedule, from: int) {
    forall t :: t >= from ==> TickAfter(schedule, t)
  }

  // ---- the Task ---------------------------------------------------------------------------------

  datatype Policy = Allow | Forbid | Replace | OtherPolicy

  /** A listed Job and its number of active Pods. */
  datatype ListedJob = ListedJob(name: Name, active: int)

  /** A Cron Task as stored; clock, jobs, triggers, lost and lastFire are bookkeeping about the past: the Jobs created,
      the manual triggers, the status writes that failed after a create, and the last schedule time stored. */
  datatype CronTask = CronTask(
    created: int, lastSchedule: Dag.Option<int>, clock: int, jobs: nat, triggers: nat, lost: nat, lastFire: int,
    phase: TaskPhase, active: seq<Name>, triggeredAt: Dag.Option<int>)

  function Reference(c: CronTask): int {
    if c.lastSchedule.Some? then c.lastSchedule.value else c.created
  }

  /** What the API server does with the create and with the status write after it. */
  datatype Outcome = Refused | Lost | Stored

  function Fire(c: CronTask, stamp: int, job: Name): CronTask {
    c.(clock := stamp, lastSchedule := Dag.Some(stamp), jobs := c.jobs + 1, lastFire := stamp,
       phase := TaskRunning, active := c.active + [job])
  }

  /** handleCron after its sync: reject a bad expression, wait for the next tick, respect the concurrency policy,
      create the Job and stamp the schedule time. */
  function HandleCron(c: CronTask, parsed: bool, now: int, next: int, allowed: bool, outcome: Outcome, stamp: int,
                      job: Name): CronTask
  {
    if !parsed then c.(clock := now, phase := TaskFailed)
    else if now < next || !allowed || outcome.Refused? then c.(clock := now)
    else if outcome.Lost? then c.(clock := stamp, jobs := c.jobs + 1, lost := c.lost + 1)
    else Fire(c, stamp, job)
  }

  function Triggered(c: CronTask, now: int): CronTask {
    c.(clock := now, lastSchedule := Dag.None, active := [], triggeredAt := Dag.Some(now), triggers := c.triggers + 1)
  }

  /** The names of the Jobs with an active Pod. */
  function ActiveOf(jobs: seq<ListedJob>): seq<Name> {
    if jobs == [] then []
    else
      var n := |jobs| - 1;
      ActiveOf(jobs[..n]) + if jobs[n].active > 0 then [jobs[n].name] else []
  }

  predicate SomeActive(jobs: seq<ListedJob>) {
    exists i :: 0 <= i < |jobs| && jobs[i].active > 0
  }

  /** Refused only under Forbid with an active Job listed; a failed listing refuses nothing. */
  predicate Allowed(listing: Dag.Option<seq<ListedJob>>, policy: Policy) {
    listing.Some? && SomeActive(listing.value) ==> !policy.Forbid?
  }

  /** concurrencyAllowed; deleted lists the Jobs it asks the API server to delete. */
  method ConcurrencyAllowed(listing: Dag.Option<seq<ListedJob>>, policy: Policy)
    returns (allowed: bool, deleted: seq<Name>)
    ensures allowed <==> Allowed(listing, policy)
    ensures deleted == if listing.Some? && policy.Replace? then ActiveOf(listing.value) else []
  {
    deleted := [];
    if listing.None? {
      return true, deleted;
    }
    var jobs := listing.value;
    var active := 0;
    for i := 0 to |jobs|
      invariant active == |ActiveOf(jobs[..i])|
      invariant active > 0 <==> SomeActive(jobs[..i])
    {
      assert jobs[..i + 1][..i] == jobs[..i];
      SomeActiveNext(jobs, i);
      if jobs[i].active > 0 {
        active := active + 1;
      }
    }
    assert jobs[..|jobs|] == jobs;
    if active == 0 {
      assert ActiveOf(jobs) == [];
      return true, deleted;
    }
    match policy {
      case Forbid => return false, deleted;
      case Replace =>
        for i := 0 to |jobs|
          invariant deleted == ActiveOf(jobs[..i])
        {
          assert jobs[..i + 1][..i] == jobs[..i];
          if jobs[i].active > 0 {
            deleted := deleted + [jobs[i].name];
          }
        }
        return true, deleted;
      case _ => return true, deleted;
    }
  }

  lemma SomeActiveNext(jobs: seq<ListedJob>, i: nat)
    requires i < |jobs|
    ensures SomeActive(jobs[..i + 1]) <==> SomeActive(jobs[..i]) || jobs[i].active > 0
  {
    assert jobs[..i + 1] == jobs[..i] + [jobs[i]];
    assert forall k :: 0 <= k < i ==> jobs[..i + 1][k] == jobs[..i][k];
    assert jobs[..i + 1][i] == jobs[i];
  }

  /** The Task object as handleCron and the Trigger endpoint update it. */
  class CronObject {
    const created: int
    var lastSchedule: Dag.Option<int>
    var clock: int
    var jobs: nat
    var triggers: nat
    var lost: nat
    var lastFire: int
    var phase: TaskPhase
    var active: seq<Name>
    var triggeredAt: Dag.Option<int>

    constructor (created: int)
      ensures View() == NewTask(created)
    {
      this.created := created;
      lastSchedule, clock, jobs, triggers, lost, lastFire := Dag.None, created, 0, 0, 0, created;
      phase, active, triggeredAt := TaskUnset, [], Dag.None;
    }

    function View(): CronTask
      reads this
    {
      CronTask(created, lastSchedule, clock, jobs, triggers, lost, lastFire, phase, active, triggeredAt)
    }

    /** Returns how long to wait before the next look, when no Job is created, and the Jobs it asks to delete. */
    method Handle(parsed: bool, now: int, next: int, nextAfterNow: int, listing: Dag.Option<seq<ListedJob>>,
                  policy: Policy, outcome: Outcome, stamp: int, job: Name)
      returns (requeueAfter: int, deleted: seq<Name>)
      modifies this
      ensures View() == HandleCron(old(View()), parsed, now, next, Allowed(listing, policy), outcome, stamp, job)
      ensures requeueAfter == if !parsed then 0 else if now < next then next - now
                              else if !Allowed(listing, policy) then nextAfterNow - now else 0
      ensures !parsed || now < next ==> deleted == []
      ensures parsed && now >= next ==>
                deleted == if listing.Some? && policy.Replace? then ActiveOf(listing.value) else []
    {
      clock := now;
      if !parsed {
        phase := TaskFailed;
        return 0, [];
      }
      if now < next {
        return next - now, [];
      }
      var allowed;
      allowed, deleted := ConcurrencyAllowed(listing, policy);
      if !allowed {
        return nextAfterNow - now, deleted;
      }
      match outcome {
        case Refused =>
        case Lost => clock, jobs, lost := stamp, jobs + 1, lost + 1;
        case Stored =>
          phase, active := TaskRunning, active + [job];
          clock, lastSchedule, jobs, lastFire := stamp, Dag.Some(stamp), jobs + 1, stamp;
      }
      return 0, deleted;
    }

    /** The Trigger endpoint: note the time, forget the schedule time and the active Jobs. */
    method Trigger(now: int)
      modifies this
      ensures View() == Triggered(old(View()), now)
    {
      triggeredAt := Dag.Some(now);
      lastSchedule, active := Dag.None, [];
      clock, triggers := now, triggers + 1;
    }
  }

  // ---- runs ---------------------------------------------------------------------------------------

  /** Elsewhere is a sync of the Job status, a suspension, a resumption, or just time passing. */
  datatype Event =
    | Reconcile(parsed: bool, now: int, next: int, allowed: bool, outcome: Outcome, stamp: int, job: Name)
    | Trigger(now: int)
    | Elsewhere(now: int, phase: TaskPhase, active: seq<Name>)

  ghost predicate Step(schedule: Schedule, c: CronTask, event: Event, d: CronTask) {
    c.clock <= event.now &&
    match event
    case Reconcile(parsed, now, next, allowed, outcome, stamp, job) =>
      && now <= stamp && Reports(schedule, Reference(c), next)
      && d == HandleCron(c, parsed, now, next, allowed, outcome, stamp, job)
    case Trigger(now) => d == Triggered(c, now)
    case Elsewhere(now, phase, active) => d == c.(clock := now, phase := phase, active := active)
  }

  function NewTask(created: int): CronTask {
    CronTask(created, Dag.None, created, 0, 0, 0, created, TaskUnset, [], Dag.None)
  }

  /** A run of a Task created at the given time, after the zero time. */
  ghost predicate Run(schedule: Schedule, created: int, tasks: seq<CronTask>, events: seq<Event>) {
    && |tasks| == |events| + 1 && created > ZERO_TIME
    && tasks[0] == NewTask(created)
    && forall i :: 0 <= i < |events| ==> StepAt(schedule, tasks, events, i)
  }

  ghost predicate StepAt(schedule: Schedule, tasks: seq<CronTask>, events: seq<Event>, i: nat)
    requires i < |events| < |tasks|
  {
    Step(schedule, tasks[i], events[i], tasks[i + 1])
  }

  /** A tick has passed since t, or the library finds none and reports the zero time. */
  ghost predicate Due(schedule: Schedule, t: int, now: int) {
    || (exists u :: t < u <= now && u <= schedule.horizon(t) && u in schedule.ticks)
    || (forall u :: t < u <= schedule.horizon(t) ==> u !in schedule.ticks)
  }

  lemma ReportIsDue(schedule: Schedule, t: int, next: int, now: int)
    requires Reports(schedule, t, next) && now > ZERO_TIME
    ensures next <= now <==> Due(schedule, t, now)
  {
    if TickAfter(schedule, t) {
      assert Within(schedule, t, next);
      if u :| t < u <= now && u <= schedule.horizon(t) && u in schedule.ticks {
        assert next <= u;
      }
    } else {
      forall u | t < u <= schedule.horizon(t)
        ensures u !in schedule.ticks
      {
        assert !Within(schedule, t, u);
      }
    }
  }

  /** A reconcile creates a Job exactly when the expression is valid, a tick has passed since the stored schedule time,
      or since the creation if there is none, the policy allows it, and the API server takes it; never more than one. */
  lemma FiresExactly(schedule: Schedule, c: CronTask, event: Event, d: CronTask)
    requires Step(schedule, c, event, d) && event.Reconcile? && event.now > ZERO_TIME
    ensures d.jobs == c.jobs || d.jobs == c.jobs + 1
    ensures d.jobs == c.jobs + 1 <==>
              && event.parsed && event.allowed && !event.outcome.Refused?
              && Due(schedule, if c.lastSchedule.Some? then c.lastSchedule.value else c.created, event.now)
    ensures d.jobs == c.jobs + 1 && event.outcome.Stored? ==>
              d.lastSchedule == Dag.Some(event.stamp) && d.phase == TaskRunning && d.active == c.active + [event.job]
    ensures !event.parsed ==> d.phase == TaskFailed
  {
    ReportIsDue(schedule, Reference(c), event.next, event.now);
  }

  /** What a manual trigger does: the next reconcile counts from the creation again, so it creates a Job exactly when
      some tick has passed since then. A trigger before the first tick does not run the Task. */
  lemma TriggerFiresExactly(schedule: Schedule, c: CronTask, at: int, event: Event, d: CronTask)
    requires Step(schedule, Triggered(c, at), event, d) && event.Reconcile? && event.now > ZERO_TIME
    requires event.parsed && event.allowed && event.outcome.Stored?
    ensures d.jobs == c.jobs + 1 <==> Due(schedule, c.created, event.now)
    ensures Triggered(c, at).active == [] && Triggered(c, at).triggeredAt == Dag.Some(at)
  {
    FiresExactly(schedule, Triggered(c, at), event, d);
  }

  /** A Task created at 0 whose first tick is at 100, triggered at 10 and reconciled at 20: no Job. */
  lemma EarlyTriggerIgnored(schedule: Schedule, event: Event, d: CronTask)
    requires (forall u :: u in schedule.ticks <==> u >= 100) && schedule.horizon(0) >= 100
    requires event.Reconcile? && event.parsed && event.allowed && event.outcome.Stored? && event.now == 20
    requires Step(schedule, Triggered(NewTask(0), 10), event, d)
    ensures d.jobs == 0
  {
    TriggerFiresExactly(schedule, NewTask(0), 10, event, d);
    assert 100 in schedule.ticks;
  }

  /** A cleared schedule time after a firing is a trigger that has not been used up yet. */
  function Credit(c: CronTask): nat {
    if c.lastSchedule.None? && c.lastFire > c.created then 1 else 0
  }

  ghost predicate Bounded(schedule: Schedule, c: CronTask) {
    && c.created <= c.lastFire <= c.clock
    && (c.lastSchedule.Some? ==> c.lastSchedule.value == c.lastFire)
    && c.jobs + Credit(c) <= Ticks(schedule, c.created, c.lastFire) + c.triggers + c.lost
  }

  lemma StepBounded(schedule: Schedule, c: CronTask, event: Event, d: CronTask)
    requires KeepsTicking(schedule, c.created) && Bounded(schedule, c) && Step(schedule, c, event, d)
    ensures Bounded(schedule, d)
  {
    if event.Reconcile? && d.jobs > c.jobs {
      assert TickAfter(schedule, Reference(c));
      TicksSplit(schedule, c.created, c.lastFire, event.stamp);
      if Credit(c) == 0 {
        assert Reference(c) == c.lastFire;
        TickCounts(schedule, c.lastFire, event.next, event.stamp);
      }
    }
  }

  lemma {:induction false} RunBounded(schedule: Schedule, created: int, tasks: seq<CronTask>, events: seq<Event>, i: nat)
    requires KeepsTicking(schedule, created) && Run(schedule, created, tasks, events) && i < |tasks|
    ensures Bounded(schedule, tasks[i]) && tasks[i].created == created
  {
    if i > 0 {
      RunBounded(schedule, created, tasks, events, i - 1);
      assert StepAt(schedule, tasks, events, i - 1);
      StepBounded(schedule, tasks[i - 1], events[i - 1], tasks[i]);
    }
  }

  /** The Jobs created number at most the ticks since creation, the manual triggers and the lost writes. */
  ghost predicate WithinTicks(schedule: Schedule, created: int, c: CronTask) {
    c.jobs <= Ticks(schedule, created, c.clock) + c.triggers + c.lost
  }

  /** The firing bound, for every schedule that keeps ticking. */
  lemma FiringBound(schedule: Schedule, created: int, tasks: seq<CronTask>, events: seq<Event>, i: nat)
    requires KeepsTicking(schedule, created) && Run(schedule, created, tasks, events) && i < |tasks|
    ensures WithinTicks(schedule, created, tasks[i])
  {
    RunBounded(schedule, created, tasks, events, i);
    TicksSplit(schedule, created, tasks[i].lastFire, tasks[i].clock);
  }

  // ---- a schedule that ends, or pauses for too long, breaks the bound ----------------------------------------------------------

  lemma {:induction false} LeastTick(schedule: Schedule, t: int, u: int) returns (next: int)
    requires t < u && u in schedule.ticks
    ensures t < next <= u && next in schedule.ticks && forall v :: t < v < next ==> v !in schedule.ticks
    decreases u - t
  {
    if t + 1 in schedule.ticks {
      next := t + 1;
    } else {
      next := LeastTick(schedule, t + 1, u);
    }
  }

  /** Seen from the creation, the next report is due by the last instant after which no tick is found. */
  lemma FirstReport(schedule: Schedule, created: int, last: int) returns (next: int)
    requires SoundHorizon(schedule) && ZERO_TIME < created <= last && !TickAfter(schedule, last)
    ensures Reports(schedule, created, next) && next <= last
  {
    next := ZERO_TIME;
    if TickAfter(schedule, created) {
      var u :| Within(schedule, created, u);
      assert schedule.horizon(created) <= schedule.horizon(last);
      assert !Within(schedule, last, u);
      next := LeastTick(schedule, created, u);
      assert Within(schedule, created, next);
    }
  }

  /** Once no tick is found, every reconcile creates another Job, all in the same second if it likes. */
  lemma {:induction false} FireAgain(schedule: Schedule, created: int, last: int, jobs: nat)
    returns (tasks: seq<CronTask>, events: seq<Event>)
    requires SoundHorizon(schedule) && ZERO_TIME < created <= last && !TickAfter(schedule, last) && jobs > 0
    ensures Run(schedule, created, tasks, events)
    ensures var c := tasks[|events|];
            c.jobs == jobs && c.triggers == 0 && c.lost == 0 && c.clock == last && c.lastSchedule == Dag.Some(last)
  {
    var next := ZERO_TIME;
    if jobs == 1 {
      tasks, events := [NewTask(created)], [];
      next := FirstReport(schedule, created, last);
    } else {
      tasks, events := FireAgain(schedule, created, last, jobs - 1);
    }
    var event := Reconcile(true, last, next, true, Stored, last, Name(""));
    var c := tasks[|events|];
    var before, done := tasks, events;
    tasks, events := tasks + [Fire(c, last, Name(""))], events + [event];
    forall i | 0 <= i < |events|
      ensures StepAt(schedule, tasks, events, i)
    {
      assert i < |done| ==> StepAt(schedule, before, done, i);
    }
  }

  ghost predicate AlwaysWithinTicks(schedule: Schedule, created: int) {
    forall tasks: seq<CronTask>, events: seq<Event>, i: nat ::
      Run(schedule, created, tasks, events) && i < |tasks| ==> WithinTicks(schedule, created, tasks[i])
  }

  /** The bound holds in every run exactly when the library always finds a further tick. */
  lemma FiringBoundExact(schedule: Schedule, created: int)
    requires created > ZERO_TIME && SoundHorizon(schedule)
    ensures AlwaysWithinTicks(schedule, created) <==> KeepsTicking(schedule, created)
  {
    if KeepsTicking(schedule, created) {
      forall tasks: seq<CronTask>, events: seq<Event>, i: nat | Run(schedule, created, tasks, events) && i < |tasks|
        ensures WithinTicks(schedule, created, tasks[i])
      {
        FiringBound(schedule, created, tasks, events, i);
      }
    } else {
      var last :| last >= created && !TickAfter(schedule, last);
      var tasks, events := FireAgain(schedule, created, last, Ticks(schedule, created, last) + 1);
      assert !WithinTicks(schedule, created, tasks[|events|]);
    }
  }
}
