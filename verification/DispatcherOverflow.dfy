/** How many records there can be: exactly when the bound of queue, workers and completed list holds. */
module DispatcherOverflow {
  import opened Names
  import opened Dispatcher
  import opened DispatcherRuns
  import opened DispatcherTheorems

  ghost predicate EndsIn(maxRetries: nat, states: seq<System>, actions: seq<Action>, s: System) {
    Run(maxRetries, states, actions) && states[|actions|] == s
  }

  ghost predicate Reachable(maxRetries: nat, s: System) {
    exists states, actions :: EndsIn(maxRetries, states, actions, s)
  }

  lemma StartReachable(maxRetries: nat, clock: int)
    ensures Reachable(maxRetries, Start(clock))
  {
    assert EndsIn(maxRetries, [Start(clock)], [], Start(clock));
  }

  lemma Step(maxRetries: nat, s: System, action: Action) returns (t: System)
    requires Reachable(maxRetries, s) && Enabled(maxRetries, s, action)
    ensures t == Apply(maxRetries, s, action) && Reachable(maxRetries, t)
  {
    t := Apply(maxRetries, s, action);
    var states, actions :| EndsIn(maxRetries, states, actions, s);
    var states', actions' := states + [t], actions + [action];
    forall i | 0 <= i < |actions'|
      ensures StepAt(maxRetries, states', actions', i)
    {
      assert i < |actions| ==> StepAt(maxRetries, states, actions, i);
    }
    assert EndsIn(maxRetries, states', actions', t);
  }

  lemma ReachableInv(maxRetries: nat, s: System)
    requires Reachable(maxRetries, s)
    ensures Inv(maxRetries, s)
  {
    var states, actions :| EndsIn(maxRetries, states, actions, s);
    var t := RunInv(maxRetries, states, actions, |actions|);
  }

  // ---- a run in which nothing expires and ids never repeat ------------------------------------------

  function Ev(n: nat): Event {
    Event(Name(seq(n, _ => 'x')), "")
  }

  /** Time stands still, and every recorded id is shorter than n. */
  ghost predicate Tame(s: System, n: nat) {
    && s.clock == 0 && !s.shared.stopped
    && (forall i :: 0 <= i < |s.shared.completed| ==> s.shared.completed[i].at == 0)
    && forall id :: id in s.shared.records ==> |id.text| < n
  }

  /** t is s but for its queue and records. */
  ghost predicate OnlyQueueGrew(s: System, t: System, k: nat) {
    && |t.shared.queue| == |s.shared.queue| + k && s.shared.queue <= t.shared.queue
    && t.shared.completed == s.shared.completed
    && t.first == s.first && t.second == s.second && t.cancelled == s.cancelled
  }

  lemma ProduceOne(maxRetries: nat, s: System, n: nat) returns (t: System)
    requires Reachable(maxRetries, s) && Tame(s, n) && |s.shared.queue| < QUEUE_CAPACITY
    ensures Reachable(maxRetries, t) && Tame(t, n + 1) && OnlyQueueGrew(s, t, 1)
  {
    assert Pruned(s.shared, 0) == s.shared;
    assert |Ev(n).id.text| == n;
    t := Step(maxRetries, s, Produce(Ev(n), 0));
  }

  lemma {:induction false} ProduceMany(maxRetries: nat, s: System, n: nat, k: nat) returns (t: System)
    requires Reachable(maxRetries, s) && Tame(s, n) && |s.shared.queue| + k <= QUEUE_CAPACITY
    ensures Reachable(maxRetries, t) && Tame(t, n + k) && OnlyQueueGrew(s, t, k)
  {
    t := s;
    if k > 0 {
      t := ProduceMany(maxRetries, s, n, k - 1);
      t := ProduceOne(maxRetries, t, n + k - 1);
    }
  }

  const IDLE := Worker(Waiting, [])

  /** Nothing queued, both workers waiting, and k events completed. */
  ghost predicate Quiet(s: System, n: nat, k: nat) {
    && Tame(s, n) && s.shared.queue == [] && |s.shared.completed| == k
    && s.first == IDLE && s.second == IDLE && !s.cancelled
  }

  /** The first worker takes the only queued event and marks it. */
  lemma PickUp(maxRetries: nat, s: System, n: nat, second: bool) returns (t: System, e: Event)
    requires Reachable(maxRetries, s) && Tame(s, n) && |s.shared.queue| == 1 && !s.cancelled
    requires WorkerAt(s, second) == IDLE && s.shared.queue[0].id in s.shared.records
    ensures Reachable(maxRetries, t) && Tame(t, n) && e == s.shared.queue[0]
    ensures t == SetWorker(s.(shared := t.shared), second, Worker(Sending(e, 0), []))
    ensures t.shared.queue == [] && t.shared.completed == s.shared.completed
  {
    e := s.shared.queue[0];
    t := Step(maxRetries, s, Take(second));
    t := Step(maxRetries, t, Check(second));
    t := Step(maxRetries, t, Mark(second));
  }

  lemma QueuedIsRecorded(maxRetries: nat, s: System)
    requires Reachable(maxRetries, s) && s.shared.queue != []
    ensures s.shared.queue[0].id in s.shared.records
  {
    ReachableInv(maxRetries, s);
    assert RecordIs(s.shared.records, s.shared.queue[0].id, StatePending);
  }

  lemma DeliverOne(maxRetries: nat, s: System, n: nat, k: nat) returns (t: System)
    requires Reachable(maxRetries, s) && Quiet(s, n, k) && k < COMPLETED_CAPACITY
    ensures Reachable(maxRetries, t) && Quiet(t, n + 1, k + 1)
  {
    var e;
    t := ProduceOne(maxRetries, s, n);
    QueuedIsRecorded(maxRetries, t);
    t, e := PickUp(maxRetries, t, n + 1, false);
    ReachableInv(maxRetries, t);
    assert RecordIs(t.shared.records, e.id, StateSending);
    t := Step(maxRetries, t, Try(false, AttemptResult(true, false)));
    assert Trimmed(t.shared) == t.shared;
    t := Step(maxRetries, t, Complete(false, 0));
  }

  lemma {:induction false} DeliverMany(maxRetries: nat, k: nat) returns (s: System)
    requires k <= COMPLETED_CAPACITY
    ensures Reachable(maxRetries, s) && Quiet(s, k, k)
  {
    if k == 0 {
      s := Start(0);
      StartReachable(maxRetries, 0);
    } else {
      s := DeliverMany(maxRetries, k - 1);
      s := DeliverOne(maxRetries, s, k - 1, k - 1);
    }
  }

  // ---- cancellation -----------------------------------------------------------------------------------

  /** Both workers sending, nothing queued. */
  lemma BothSending(maxRetries: nat) returns (s: System, n: nat, a: Event, b: Event)
    ensures Reachable(maxRetries, s) && Tame(s, n) && !s.cancelled
    ensures s.shared.queue == [] && |s.shared.completed| == COMPLETED_CAPACITY
    ensures s.first == Worker(Sending(a, 0), []) && s.second == Worker(Sending(b, 0), [])
  {
    s := DeliverMany(maxRetries, COMPLETED_CAPACITY);
    n := COMPLETED_CAPACITY;
    s := ProduceOne(maxRetries, s, n);
    QueuedIsRecorded(maxRetries, s);
    s, a := PickUp(maxRetries, s, n + 1, false);
    s := ProduceOne(maxRetries, s, n + 1);
    QueuedIsRecorded(maxRetries, s);
    s, b := PickUp(maxRetries, s, n + 2, true);
    n := n + 2;
  }

  /** A cancelled worker abandons the event it is sending, may still receive another one, and leaves with it. */
  lemma AbandonTwo(maxRetries: nat, s: System, n: nat, second: bool) returns (t: System)
    requires Reachable(maxRetries, s) && Tame(s, n) && s.cancelled && s.shared.queue != []
    requires WorkerAt(s, second).activity.Sending? && WorkerAt(s, second).dropped == []
    ensures Reachable(maxRetries, t) && Tame(t, n)
    ensures t == SetWorker(s.(shared := s.shared.(queue := s.shared.queue[1..])), second, WorkerAt(t, second))
    ensures WorkerAt(t, second).activity.Exited? && |WorkerAt(t, second).dropped| == 2
  {
    t := Step(maxRetries, s, GiveUp(second));
    t := Step(maxRetries, t, Take(second));
    t := Step(maxRetries, t, Check(second));
  }

  /** A full completed list, a full queue, and two events abandoned by each worker. */
  lemma FourAbandoned(maxRetries: nat) returns (s: System)
    ensures Reachable(maxRetries, s) && s.cancelled
    ensures |s.shared.records| == 128 + 4 + 4096
  {
    var n, a, b;
    s, n, a, b := BothSending(maxRetries);
    s := ProduceMany(maxRetries, s, n, QUEUE_CAPACITY);
    n := n + QUEUE_CAPACITY;
    s := Step(maxRetries, s, Cancel);
    s := AbandonTwo(maxRetries, s, n, false);
    s := AbandonTwo(maxRetries, s, n, true);
    s := ProduceMany(maxRetries, s, n, 2);
    ReachableInv(maxRetries, s);
    RecordCount(s);
  }

  ghost predicate NoMoreThan(maxRetries: nat, cancelled: bool, bound: nat) {
    forall s :: Reachable(maxRetries, s) && s.cancelled == cancelled ==> |s.shared.records| <= bound
  }

  /** The records stay within queue, workers and completed list exactly while the context is not cancelled; after
      that the least bound is two higher. */
  lemma RecordBoundExact(maxRetries: nat, cancelled: bool, bound: nat)
    ensures NoMoreThan(maxRetries, cancelled, 128 + 2 + 4096) <==> !cancelled
    ensures NoMoreThan(maxRetries, true, bound) <==> bound >= 128 + 4 + 4096
  {
    forall s | Reachable(maxRetries, s)
      ensures |s.shared.records| <= 128 + 4 + 4096 && (!s.cancelled ==> |s.shared.records| <= 128 + 2 + 4096)
    {
      var states, actions :| EndsIn(maxRetries, states, actions, s);
      Bounds(maxRetries, states, actions, |actions|);
    }
    var s := FourAbandoned(maxRetries);
  }
}
