/** What the Task counters and the execution history mean over any series of syncs. */
module JobAccounting {
  import opened Names
  import Dag
  import DagTheory
  import opened Scheduler
  import opened TaskStatus

  ghost function Recorded(history: seq<Record>): set<Name> {
    set r | r in history :: r.job
  }

  ghost predicate UniqueJobs(jobs: seq<Job>) {
    forall i, j :: 0 <= i < j < |jobs| ==> jobs[i].name != jobs[j].name
  }

  /** The histories this controller writes: terminal records, one per Job. */
  ghost predicate CleanHistory(history: seq<Record>) {
    && (forall i :: 0 <= i < |history| ==> IsTerminalRecord(history[i]))
    && (forall i, j :: 0 <= i < j < |history| ==> history[i].job != history[j].job)
  }

  /** The records a sync adds: terminal Jobs that are not in the history yet, in listing order. */
  ghost function Added(history: seq<Record>, jobs: seq<Job>): seq<Record> {
    if jobs == [] then []
    else
      var n := |jobs| - 1;
      Added(history, jobs[..n]) + Contribution(Recorded(history), jobs[n])
  }

  function WithPhase(records: seq<Record>, phase: TaskPhase): nat {
    if records == [] then 0
    else var n := |records| - 1; WithPhase(records[..n], phase) + if records[n].phase == phase then 1 else 0
  }

  lemma WithPhaseAppend(records: seq<Record>, r: Record, phase: TaskPhase)
    ensures WithPhase(records + [r], phase) == WithPhase(records, phase) + if r.phase == phase then 1 else 0
  {
    assert (records + [r])[..|records|] == records;
  }

  lemma {:induction false} AddedRecords(history: seq<Record>, jobs: seq<Job>)
    ensures forall r :: r in Added(history, jobs) <==>
              exists j :: j in jobs && Transitioned(j) && j.name !in Recorded(history) && r == Record(j.name, JobPhase(j))
  {
    if jobs != [] {
      var n := |jobs| - 1;
      AddedRecords(history, jobs[..n]);
      assert jobs == jobs[..n] + [jobs[n]];
      assert forall j :: j in jobs <==> j in jobs[..n] || j == jobs[n];
    }
  }

  lemma RecordedIndex(history: seq<Record>, name: Name)
    ensures name in HistoryIndex(history) <==> name in Recorded(history)
  {
    HistoryIndexFinds(history);
    if name in Recorded(history) {
      var r :| r in history && r.job == name;
      var i :| 0 <= i < |history| && history[i] == r;
    }
  }

  lemma RecordedConcat(a: seq<Record>, b: seq<Record>)
    ensures Recorded(a + b) == Recorded(a) + Recorded(b)
  {
    assert forall r :: r in a + b <==> r in a || r in b;
  }

  lemma NotAddedTwice(history: seq<Record>, jobs: seq<Job>, n: nat)
    requires UniqueJobs(jobs) && n < |jobs|
    ensures jobs[n].name !in Recorded(Added(history, jobs[..n]))
  {
    AddedRecords(history, jobs[..n]);
    forall r | r in Added(history, jobs[..n])
      ensures r.job != jobs[n].name
    {
      var j :| j in jobs[..n] && r == Record(j.name, JobPhase(j));
      var i :| 0 <= i < n && jobs[..n][i] == j;
      assert jobs[i].name != jobs[n].name;
    }
  }

  lemma CountedNew(l: Loop, j: Job)
    requires Transitioned(j) && j.name !in Recorded(l.history)
    ensures Counted(l, j) == l.(succeeded := if j.complete then l.succeeded + 1 else l.succeeded,
                                failed := if j.complete then l.failed else l.failed + 1,
                                history := l.history + [Record(j.name, JobPhase(j))])
  {
    RecordedIndex(l.history, j.name);
  }

  lemma CountedOld(l: Loop, j: Job)
    requires CleanHistory(l.history) && j.name in Recorded(l.history)
    ensures Counted(l, j) == l
  {
    RecordedIndex(l.history, j.name);
    HistoryIndexFinds(l.history);
  }

  lemma CleanAppend(history: seq<Record>, r: Record)
    requires CleanHistory(history) && IsTerminalRecord(r) && r.job !in Recorded(history)
    ensures CleanHistory(history + [r])
  {
    forall i | 0 <= i < |history|
      ensures history[i].job != r.job
    {
      assert history[i] in history;
    }
  }

  /** The sync loop in closed form. */
  lemma {:induction false} VisitAllForm(s: TaskState, jobs: seq<Job>)
    requires CleanHistory(s.history) && UniqueJobs(jobs)
    ensures var l := VisitAll(LoopStart(s), jobs);
            && l.history == s.history + Added(s.history, jobs)
            && CleanHistory(l.history)
            && l.succeeded == s.succeeded + WithPhase(Added(s.history, jobs), TaskSucceeded)
            && l.failed == s.failed + WithPhase(Added(s.history, jobs), TaskFailed)
  {
    if jobs == [] {
      assert s.history + [] == s.history;
    } else {
      var n := |jobs| - 1;
      VisitAllForm(s, jobs[..n]);
      NotAddedTwice(s.history, jobs, n);
      VisitStep(s, VisitAll(LoopStart(s), jobs[..n]), jobs[n], Added(s.history, jobs[..n]));
    }
  }

  /** The record a listed Job contributes, given the names already in the history. */
  ghost function Contribution(known: set<Name>, j: Job): seq<Record> {
    if Transitioned(j) && j.name !in known then [Record(j.name, JobPhase(j))] else []
  }

  lemma ContributionCounts(added: seq<Record>, known: set<Name>, j: Job)
    ensures WithPhase(added + Contribution(known, j), TaskSucceeded) ==
            WithPhase(added, TaskSucceeded) + if j.complete && j.name !in known then 1 else 0
    ensures WithPhase(added + Contribution(known, j), TaskFailed) ==
            WithPhase(added, TaskFailed) + if j.failed && !j.complete && j.name !in known then 1 else 0
  {
    if Contribution(known, j) == [] {
      assert added + [] == added;
    } else {
      var r := Record(j.name, JobPhase(j));
      WithPhaseAppend(added, r, TaskSucceeded);
      WithPhaseAppend(added, r, TaskFailed);
    }
  }

  lemma VisitStep(s: TaskState, l: Loop, j: Job, added: seq<Record>)
    requires l.history == s.history + added && CleanHistory(l.history) && j.name !in Recorded(added)
    requires l.succeeded == s.succeeded + WithPhase(added, TaskSucceeded)
    requires l.failed == s.failed + WithPhase(added, TaskFailed)
    ensures var m, more := Visit(l, j), added + Contribution(Recorded(s.history), j);
            && m.history == s.history + more
            && CleanHistory(m.history)
            && m.succeeded == s.succeeded + WithPhase(more, TaskSucceeded)
            && m.failed == s.failed + WithPhase(more, TaskFailed)
  {
    var more := added + Contribution(Recorded(s.history), j);
    RecordedConcat(s.history, added);
    ContributionCounts(added, Recorded(s.history), j);
    assert s.history + more == l.history + Contribution(Recorded(s.history), j);
    if Transitioned(j) {
      if j.name in Recorded(s.history) {
        CountedOld(l, j);
      } else {
        CountedNew(l, j);
        CleanAppend(l.history, Record(j.name, JobPhase(j)));
      }
    }
  }

  lemma TrimKeepsClean(history: seq<Record>)
    requires CleanHistory(history)
    ensures CleanHistory(LastTen(history)) && |LastTen(history)| <= 10
    ensures Recorded(LastTen(history)) <= Recorded(history)
  {
  }

  // ---- counters against the Jobs ever seen ------------------------------------------------------------

  ghost function CompleteJobs(jobs: seq<Job>): set<Name> {
    set j | j in jobs && j.complete :: j.name
  }

  ghost function FailedJobs(jobs: seq<Job>): set<Name> {
    set j | j in jobs && j.failed && !j.complete :: j.name
  }

  /** The Task status together with the Jobs ever seen Complete or Failed and the repeated counts. */
  datatype Ledger = Ledger(status: TaskState, ok: set<Name>, bad: set<Name>, okAgain: nat, badAgain: nat)

  ghost function AfterSyncs(s: Ledger, jobs: seq<Job>): Ledger {
    Ledger(AfterSync(s.status, jobs), s.ok + CompleteJobs(jobs), s.bad + FailedJobs(jobs),
           s.okAgain + |CompleteJobs(jobs) * s.ok - Recorded(s.status.history)|,
           s.badAgain + |FailedJobs(jobs) * s.bad - Recorded(s.status.history)|)
  }

  /** A Job that once finished keeps its outcome, and Job names are unique in a listing. */
  ghost predicate Plausible(s: Ledger, jobs: seq<Job>) {
    UniqueJobs(jobs) && CompleteJobs(jobs) !! s.bad && FailedJobs(jobs) !! s.ok
  }

  ghost predicate Balanced(s: Ledger) {
    && CleanHistory(s.status.history) && |s.status.history| <= 10
    && Recorded(s.status.history) <= s.ok + s.bad
    && s.status.succeeded == |s.ok| + s.okAgain
    && s.status.failed == |s.bad| + s.badAgain
    && (s.okAgain > 0 ==> s.ok != {}) && (s.badAgain > 0 ==> s.bad != {})
  }

  lemma {:induction false} AddedCounts(history: seq<Record>, jobs: seq<Job>)
    requires UniqueJobs(jobs)
    ensures WithPhase(Added(history, jobs), TaskSucceeded) == |CompleteJobs(jobs) - Recorded(history)|
    ensures WithPhase(Added(history, jobs), TaskFailed) == |FailedJobs(jobs) - Recorded(history)|
  {
    if jobs == [] {
      assert CompleteJobs(jobs) == {} && FailedJobs(jobs) == {};
    } else {
      var n := |jobs| - 1;
      AddedCounts(history, jobs[..n]);
      AddedCountOne(history, jobs, n);
    }
  }

  lemma NamesSplit(jobs: seq<Job>, n: nat)
    requires UniqueJobs(jobs) && n == |jobs| - 1
    ensures jobs[n].name !in CompleteJobs(jobs[..n]) && jobs[n].name !in FailedJobs(jobs[..n])
    ensures CompleteJobs(jobs) == CompleteJobs(jobs[..n]) + if jobs[n].complete then {jobs[n].name} else {}
    ensures FailedJobs(jobs) ==
            FailedJobs(jobs[..n]) + if jobs[n].failed && !jobs[n].complete then {jobs[n].name} else {}
  {
    assert jobs == jobs[..n] + [jobs[n]];
    assert forall j :: j in jobs <==> j in jobs[..n] || j == jobs[n];
    forall j | j in jobs[..n]
      ensures j.name != jobs[n].name
    {
      var i :| 0 <= i < n && jobs[..n][i] == j;
      assert jobs[i].name != jobs[n].name;
    }
  }

  lemma AddedCountOne(history: seq<Record>, jobs: seq<Job>, n: nat)
    requires UniqueJobs(jobs) && n == |jobs| - 1
    requires WithPhase(Added(history, jobs[..n]), TaskSucceeded) == |CompleteJobs(jobs[..n]) - Recorded(history)|
    requires WithPhase(Added(history, jobs[..n]), TaskFailed) == |FailedJobs(jobs[..n]) - Recorded(history)|
    ensures WithPhase(Added(history, jobs), TaskSucceeded) == |CompleteJobs(jobs) - Recorded(history)|
    ensures WithPhase(Added(history, jobs), TaskFailed) == |FailedJobs(jobs) - Recorded(history)|
  {
    var j, known := jobs[n], Recorded(history);
    NamesSplit(jobs, n);
    ContributionCounts(Added(history, jobs[..n]), known, j);
    AddIf(CompleteJobs(jobs[..n]), known, j.name, j.complete);
    AddIf(FailedJobs(jobs[..n]), known, j.name, j.failed && !j.complete);
  }

  lemma AddIf(s: set<Name>, known: set<Name>, n: Name, present: bool)
    requires n !in s
    ensures |s + (if present then {n} else {}) - known| == |s - known| + if present && n !in known then 1 else 0
  {
    if present {
      AddName(s, known, n);
    } else {
      assert s + {} == s;
    }
  }

  lemma AddName(s: set<Name>, known: set<Name>, n: Name)
    requires n !in s
    ensures |s + {n} - known| == |s - known| + if n in known then 0 else 1
  {
    if n in known {
      assert s + {n} - known == s - known;
    } else {
      assert s + {n} - known == (s - known) + {n};
    }
  }

  /** Unrecorded names split into those never seen and those seen but dropped from the history. */
  lemma SplitUnrecorded(now: set<Name>, seen: set<Name>, known: set<Name>)
    requires now * known <= seen
    ensures |now - known| == |now - seen| + |now * seen - known|
    ensures |seen + now| == |seen| + |now - seen|
  {
    assert now - known == (now - seen) + (now * seen - known);
    assert seen + now == seen + (now - seen);
  }

  /** One sync keeps the exact law of the counters. */
  lemma SyncBalances(s: Ledger, jobs: seq<Job>) returns (t: Ledger)
    requires Balanced(s) && Plausible(s, jobs)
    ensures t == AfterSyncs(s, jobs) && Balanced(t)
  {
    t := AfterSyncs(s, jobs);
    var known := Recorded(s.status.history);
    var l := VisitAll(LoopStart(s.status), jobs);
    VisitAllForm(s.status, jobs);
    AddedCounts(s.status.history, jobs);
    TrimKeepsClean(l.history);
    SplitUnrecorded(CompleteJobs(jobs), s.ok, known);
    SplitUnrecorded(FailedJobs(jobs), s.bad, known);
    RecordedConcat(s.status.history, Added(s.status.history, jobs));
    AddedRecords(s.status.history, jobs);
    forall name | name in Recorded(Added(s.status.history, jobs))
      ensures name in CompleteJobs(jobs) + FailedJobs(jobs)
    {
      var r :| r in Added(s.status.history, jobs) && r.job == name;
      var j :| j in jobs && Transitioned(j) && r == Record(j.name, JobPhase(j));
    }
  }

  /** A sync whose status is written, or any other status write: a start, a trigger, a suspension, a resumption.
      A sync whose write is lost leaves the status as it was and is no event. */
  datatype LedgerEvent = Sync(jobs: seq<Job>) | Elsewhere(status: TaskState)

  /** Writers other than the sync leave counters and history alone. */
  predicate KeepsCounts(s: TaskState, t: TaskState) {
    t.succeeded == s.succeeded && t.failed == s.failed && t.history == s.history
  }

  ghost predicate LedgerStep(s: Ledger, event: LedgerEvent, t: Ledger) {
    match event
    case Sync(jobs) => Plausible(s, jobs) && t == AfterSyncs(s, jobs)
    case Elsewhere(status) => KeepsCounts(s.status, status) && t == s.(status := status)
  }

  ghost predicate SyncRun(ledgers: seq<Ledger>, events: seq<LedgerEvent>) {
    && |ledgers| == |events| + 1
    && ledgers[0].ok == {} && ledgers[0].bad == {} && ledgers[0].okAgain == 0 && ledgers[0].badAgain == 0
    && ledgers[0].status.succeeded == 0 && ledgers[0].status.failed == 0 && ledgers[0].status.history == []
    && forall i :: 0 <= i < |events| ==> SyncRunStep(ledgers, events, i)
  }

  ghost predicate SyncRunStep(ledgers: seq<Ledger>, events: seq<LedgerEvent>, i: nat)
    requires i < |events| < |ledgers|
  {
    LedgerStep(ledgers[i], events[i], ledgers[i + 1])
  }

  lemma EmptyBalanced(s: Ledger)
    requires s.ok == {} && s.bad == {} && s.okAgain == 0 && s.badAgain == 0
    requires s.status.succeeded == 0 && s.status.failed == 0 && s.status.history == []
    ensures Balanced(s)
  {
    assert Recorded(s.status.history) == {};
  }

  lemma LedgerStepBalances(s: Ledger, event: LedgerEvent, after: Ledger) returns (t: Ledger)
    requires Balanced(s) && LedgerStep(s, event, after)
    ensures t == after && Balanced(t)
  {
    match event
    case Sync(jobs) => t := SyncBalances(s, jobs);
    case Elsewhere(status) => t := s.(status := status);
  }

  lemma {:induction false} RunBalanced(ledgers: seq<Ledger>, events: seq<LedgerEvent>, i: nat) returns (s: Ledger)
    requires SyncRun(ledgers, events) && i < |ledgers|
    ensures s == ledgers[i] && Balanced(s)
  {
    if i == 0 {
      s := ledgers[0];
      EmptyBalanced(s);
    } else {
      s := RunBalanced(ledgers, events, i - 1);
      assert SyncRunStep(ledgers, events, i - 1);
      s := LedgerStepBalances(s, events[i - 1], ledgers[i]);
    }
  }

  /** In event i no finished Job was listed whose record the trim had dropped. */
  ghost predicate NothingLost(ledgers: seq<Ledger>, events: seq<LedgerEvent>, i: nat)
    requires i < |events| && i < |ledgers|
  {
    events[i].Sync? ==>
      && CompleteJobs(events[i].jobs) * ledgers[i].ok <= Recorded(ledgers[i].status.history)
      && FailedJobs(events[i].jobs) * ledgers[i].bad <= Recorded(ledgers[i].status.history)
  }

  lemma EmptyDifference<T>(a: set<T>, b: set<T>)
    ensures |a - b| == 0 <==> a <= b
  {
    if |a - b| == 0 {
      assert a - b == {};
      forall x | x in a
        ensures x in b
      {
        assert x !in a - b;
      }
    }
  }

  lemma {:induction false} AgainCounts(ledgers: seq<Ledger>, events: seq<LedgerEvent>, i: nat)
    requires SyncRun(ledgers, events) && i < |ledgers|
    ensures ledgers[i].okAgain == 0 && ledgers[i].badAgain == 0 <==>
              forall k :: 0 <= k < i ==> NothingLost(ledgers, events, k)
  {
    if i > 0 {
      AgainCounts(ledgers, events, i - 1);
      assert SyncRunStep(ledgers, events, i - 1);
      AgainStep(ledgers, events, i - 1);
    }
  }

  lemma AgainStep(ledgers: seq<Ledger>, events: seq<LedgerEvent>, i: nat)
    requires i < |events| < |ledgers| && SyncRunStep(ledgers, events, i)
    ensures ledgers[i + 1].okAgain == 0 && ledgers[i + 1].badAgain == 0 <==>
              ledgers[i].okAgain == 0 && ledgers[i].badAgain == 0 && NothingLost(ledgers, events, i)
  {
    if events[i].Sync? {
      var s, jobs := ledgers[i], events[i].jobs;
      var known := Recorded(s.status.history);
      EmptyDifference(CompleteJobs(jobs) * s.ok, known);
      EmptyDifference(FailedJobs(jobs) * s.bad, known);
    }
  }

  /** The counters equal the numbers of distinct Jobs seen Complete and Failed exactly when the ten-record
      trim never dropped a Job that was listed again. */
  lemma CountersExact(ledgers: seq<Ledger>, events: seq<LedgerEvent>, i: nat)
    requires SyncRun(ledgers, events) && i < |ledgers|
    ensures ledgers[i].status.succeeded == |ledgers[i].ok| && ledgers[i].status.failed == |ledgers[i].bad| <==>
              forall k :: 0 <= k < i ==> NothingLost(ledgers, events, k)
    ensures |ledgers[i].status.history| <= 10 && CleanHistory(ledgers[i].status.history)
  {
    var s := RunBalanced(ledgers, events, i);
    AgainCounts(ledgers, events, i);
  }

  // ---- the phase of the Task ----------------------------------------------------------------------------

  predicate Done(j: Job) {
    j.complete || j.failed
  }

  lemma {:induction false} NoneActive(jobs: seq<Job>)
    ensures ActiveNames(jobs) == [] <==> forall j :: j in jobs ==> Done(j)
  {
    if jobs != [] {
      var n := |jobs| - 1;
      NoneActive(jobs[..n]);
      assert jobs == jobs[..n] + [jobs[n]];
      assert forall j :: j in jobs <==> j in jobs[..n] || j == jobs[n];
      assert Done(jobs[n]) <==> Transitioned(jobs[n]);
    }
  }

  /** After a sync the Task is Running while a listed Job is unfinished; else Succeeded if any Job was ever seen
      Complete, else Failed if any was ever seen Failed; with no outcome at all it is Pending from the start and
      otherwise keeps its phase. */
  lemma PhaseOfTask(s: Ledger, jobs: seq<Job>)
    requires Balanced(s) && Plausible(s, jobs)
    ensures var t := AfterSyncs(s, jobs);
            && ((exists j :: j in jobs && !j.complete && !j.failed) ==> t.status.phase == TaskRunning)
            && ((forall j :: j in jobs ==> j.complete || j.failed) ==>
                  && (t.ok != {} ==> t.status.phase == TaskSucceeded)
                  && (t.ok == {} && t.bad != {} ==> t.status.phase == TaskFailed)
                  && (t.ok == {} && t.bad == {} ==>
                        t.status.phase == if s.status.phase == TaskUnset then TaskPending else s.status.phase))
  {
    var t := SyncBalances(s, jobs);
    SyncedRest(s.status, jobs);
    NoneActive(jobs);
    assert t.ok != {} ==> |t.ok| > 0;
    assert t.bad != {} ==> |t.bad| > 0;
  }

  /** The history a sync leaves: the newest ten of the old records followed by the new ones. */
  lemma HistoryKeepsNewest(s: TaskState, jobs: seq<Job>)
    requires CleanHistory(s.history) && UniqueJobs(jobs)
    ensures var all, kept := s.history + Added(s.history, jobs), AfterSync(s, jobs).history;
            && (|all| <= 10 ==> kept == all)
            && (|all| > 10 ==> |kept| == 10 && forall i :: 0 <= i < 10 ==> kept[i] == all[|all| - 10 + i])
  {
    SyncedCounts(s, jobs);
  }

  // ---- repeating a sync ------------------------------------------------------------------------------------

  function ActiveNames(jobs: seq<Job>): seq<Name> {
    if jobs == [] then []
    else
      var n := |jobs| - 1;
      ActiveNames(jobs[..n]) + if Transitioned(jobs[n]) then [] else [jobs[n].name]
  }

  function Completion(jobs: seq<Job>, last: Dag.Option<int>): Dag.Option<int> {
    if jobs == [] then last
    else
      var n := |jobs| - 1;
      if Transitioned(jobs[n]) && jobs[n].completionTime.Some? then jobs[n].completionTime
      else Completion(jobs[..n], last)
  }

  lemma {:induction false} VisitAllRest(l: Loop, jobs: seq<Job>)
    ensures VisitAll(l, jobs).active == l.active + ActiveNames(jobs)
    ensures VisitAll(l, jobs).lastCompletion == Completion(jobs, l.lastCompletion)
  {
    if jobs == [] {
      assert l.active + [] == l.active;
    } else {
      VisitAllRest(l, jobs[..|jobs| - 1]);
    }
  }

  lemma CompletionTwice(jobs: seq<Job>, last: Dag.Option<int>)
    ensures Completion(jobs, Completion(jobs, last)) == Completion(jobs, last)
  {
    CompletionStable(jobs, last, Completion(jobs, last));
  }

  lemma {:induction false} CompletionStable(jobs: seq<Job>, a: Dag.Option<int>, b: Dag.Option<int>)
    ensures Completion(jobs, a) == Completion(jobs, b) || (Completion(jobs, a) == a && Completion(jobs, b) == b)
  {
    if jobs != [] {
      CompletionStable(jobs[..|jobs| - 1], a, b);
    }
  }

  lemma {:induction false} WithPhaseTotal(records: seq<Record>)
    requires forall i :: 0 <= i < |records| ==> IsTerminalRecord(records[i])
    ensures WithPhase(records, TaskSucceeded) + WithPhase(records, TaskFailed) == |records|
  {
    if records != [] {
      WithPhaseTotal(records[..|records| - 1]);
    }
  }

  /** Every finished Job of the listing is still in the (trimmed) history. */
  ghost predicate AllKept(history: seq<Record>, jobs: seq<Job>) {
    forall j :: j in jobs && Transitioned(j) ==> j.name in Recorded(history)
  }

  lemma NothingAdded(history: seq<Record>, jobs: seq<Job>)
    ensures Added(history, jobs) == [] <==> AllKept(history, jobs)
  {
    AddedRecords(history, jobs);
    if Added(history, jobs) != [] {
      var r := Added(history, jobs)[0];
      assert r in Added(history, jobs);
      var j :| j in jobs && Transitioned(j) && j.name !in Recorded(history) && r == Record(j.name, JobPhase(j));
    }
    if !AllKept(history, jobs) {
      var j :| j in jobs && Transitioned(j) && j.name !in Recorded(history);
      assert Record(j.name, JobPhase(j)) in Added(history, jobs);
    }
  }

  lemma SyncedCounts(s: TaskState, jobs: seq<Job>)
    requires CleanHistory(s.history) && UniqueJobs(jobs)
    ensures var t := AfterSync(s, jobs);
            && t.history == LastTen(s.history + Added(s.history, jobs)) && CleanHistory(t.history)
            && t.succeeded == s.succeeded + WithPhase(Added(s.history, jobs), TaskSucceeded)
            && t.failed == s.failed + WithPhase(Added(s.history, jobs), TaskFailed)
  {
    VisitAllForm(s, jobs);
    TrimKeepsClean(VisitAll(LoopStart(s), jobs).history);
  }

  lemma SyncedRest(s: TaskState, jobs: seq<Job>)
    ensures var t := AfterSync(s, jobs);
            && t.activeJobs == ActiveNames(jobs)
            && t.lastCompletion == Completion(jobs, s.lastCompletion)
            && t.phase == OverallPhase(s.phase, t.succeeded, t.failed, t.activeJobs)
  {
    VisitAllRest(LoopStart(s), jobs);
    assert [] + ActiveNames(jobs) == ActiveNames(jobs);
  }

  lemma AddedTotal(history: seq<Record>, jobs: seq<Job>)
    ensures WithPhase(Added(history, jobs), TaskSucceeded) + WithPhase(Added(history, jobs), TaskFailed)
            == |Added(history, jobs)|
  {
    AddedRecords(history, jobs);
    var added := Added(history, jobs);
    forall i | 0 <= i < |added|
      ensures IsTerminalRecord(added[i])
    {
      assert added[i] in added;
    }
    WithPhaseTotal(added);
  }

  /** The history a sync leaves, in terms of the history before it. */
  ghost function Trimmed(s: TaskState, jobs: seq<Job>): seq<Record> {
    LastTen(s.history + Added(s.history, jobs))
  }

  /** Repeating a sync on unchanged Jobs changes nothing exactly when every listed finished Job is among the last ten
      records, the old ones followed by the new; otherwise it counts again. */
  lemma SyncIdempotent(s: TaskState, jobs: seq<Job>)
    requires CleanHistory(s.history) && UniqueJobs(jobs)
    ensures AfterSync(AfterSync(s, jobs), jobs) == AfterSync(s, jobs) <==> AllKept(Trimmed(s, jobs), jobs)
    ensures var t := AfterSync(s, jobs);
            !AllKept(Trimmed(s, jobs), jobs) ==>
              AfterSync(t, jobs).succeeded + AfterSync(t, jobs).failed > t.succeeded + t.failed
  {
    var t := AfterSync(s, jobs);
    SyncedCounts(s, jobs);
    SyncedRest(s, jobs);
    NothingAdded(t.history, jobs);
    if AllKept(t.history, jobs) {
      IdleSync(s, t, jobs);
    } else {
      SyncedCounts(t, jobs);
      AddedTotal(t.history, jobs);
    }
  }

  lemma IdleSync(s: TaskState, t: TaskState, jobs: seq<Job>)
    requires CleanHistory(t.history) && UniqueJobs(jobs) && Added(t.history, jobs) == [] && |t.history| <= 10
    requires t.activeJobs == ActiveNames(jobs) && t.lastCompletion == Completion(jobs, s.lastCompletion)
    requires t.phase == OverallPhase(s.phase, t.succeeded, t.failed, t.activeJobs)
    ensures AfterSync(t, jobs) == t
  {
    SyncedCounts(t, jobs);
    SyncedRest(t, jobs);
    CompletionTwice(jobs, s.lastCompletion);
    assert t.history + [] == t.history;
  }

  lemma {:induction false} RecordedSize(history: seq<Record>)
    ensures |Recorded(history)| <= |history|
  {
    if history != [] {
      var n := |history| - 1;
      RecordedSize(history[..n]);
      RecordedConcat(history[..n], [history[n]]);
      assert history == history[..n] + [history[n]];
      assert Recorded([history[n]]) == {history[n].job};
    }
  }

  /** With more than ten finished Jobs listed, the trim always loses one and every further sync counts it again. */
  lemma ElevenFinishedJobsRecount(s: TaskState, jobs: seq<Job>)
    requires CleanHistory(s.history) && UniqueJobs(jobs)
    requires |CompleteJobs(jobs) + FailedJobs(jobs)| > 10
    ensures var t := AfterSync(s, jobs);
            AfterSync(t, jobs).succeeded + AfterSync(t, jobs).failed > t.succeeded + t.failed
  {
    var kept := Trimmed(s, jobs);
    SyncIdempotent(s, jobs);
    RecordedSize(kept);
    if AllKept(kept, jobs) {
      DagTheory.SubsetSize(CompleteJobs(jobs) + FailedJobs(jobs), Recorded(kept));
    }
  }
}
