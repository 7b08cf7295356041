/** When an event id is accepted again: the law of the completed list over time, in every run. */
module DispatcherExpiry {
  import opened Names
  import opened Dispatcher
  import opened DispatcherRuns
  import opened DispatcherTheorems

  /** Step k accepts an event with this id. */
  ghost predicate AcceptsAt(states: seq<System>, actions: seq<Action>, k: nat, id: Name)
    requires k < |actions| < |states|
  {
    actions[k].Produce? && actions[k].event.id == id && states[k + 1].accepted == states[k].accepted + 1
  }

  /** Step k finishes the event with this id at the given time. */
  ghost predicate FinishesAt(states: seq<System>, actions: seq<Action>, k: nat, id: Name, at: int)
    requires k < |actions| < |states|
  {
    && actions[k].Complete? && actions[k].now == at
    && Holds(WorkerAt(states[k], actions[k].second).activity)
    && WorkerAt(states[k], actions[k].second).activity.event.id == id
  }

  /** How many events finish in steps i + 1 to k - 1. */
  ghost function Completions(actions: seq<Action>, i: nat, k: nat): nat
    requires i < k <= |actions|
    decreases k
  {
    if k == i + 1 then 0 else Completions(actions, i, k - 1) + if actions[k - 1].Complete? then 1 else 0
  }

  /** The id is neither queued nor held nor abandoned, and its completed entry, if there still is one, was made at the
      given time and has the given number of entries after it. */
  ghost predicate Resting(s: System, id: Name, at: int, later: nat) {
    && id !in QueueIds(s.shared.queue) && id !in Claims(s.first) && id !in Claims(s.second)
    && forall p :: 0 <= p < |s.shared.completed| && s.shared.completed[p].id == id ==>
         s.shared.completed[p].at == at && |s.shared.completed| - 1 - p == later
  }

  ghost predicate Entered(s: System, id: Name) {
    Lists(s.shared.completed, id)
  }

  ghost predicate Lists(c: seq<CompletedEvent>, id: Name) {
    exists p :: 0 <= p < |c| && c[p].id == id
  }

  // ---- one step --------------------------------------------------------------------------------------

  lemma {:induction false} PrunedKeeps(d: Shared, now: int, p: nat)
    requires p < |d.completed| && now - d.completed[p].at < 86400
    ensures |Pruned(d, now).completed| >= |d.completed| - p
    decreases |d.completed|
  {
    if p > 0 && Expired(d.completed[0], now) {
      PrunedKeeps(DropFront(d), now, p - 1);
    }
  }

  lemma SuffixRests(a: seq<CompletedEvent>, b: seq<CompletedEvent>, id: Name, at: int, later: nat)
    requires |b| <= |a| && b == a[|a| - |b|..]
    requires forall p :: 0 <= p < |a| && a[p].id == id ==> a[p].at == at && |a| - 1 - p == later
    ensures forall p :: 0 <= p < |b| && b[p].id == id ==> b[p].at == at && |b| - 1 - p == later
  {
    forall p | 0 <= p < |b| && b[p].id == id
      ensures b[p].at == at && |b| - 1 - p == later
    {
      assert b[p] == a[|a| - |b| + p];
    }
  }

  lemma QueueTail(q: seq<Event>, id: Name)
    requires q != [] && id !in QueueIds(q)
    ensures id !in QueueIds(q[1..]) && q[0].id != id
  {
    assert QueueIds(q)[0] == q[0].id;
    assert forall i :: 0 <= i < |q| - 1 ==> QueueIds(q[1..])[i] == QueueIds(q)[i + 1];
  }

  lemma QueueMore(q: seq<Event>, e: Event, id: Name)
    requires id !in QueueIds(q) && e.id != id
    ensures id !in QueueIds(q + [e])
  {
    assert forall i :: 0 <= i < |q| ==> QueueIds(q + [e])[i] == QueueIds(q)[i];
  }

  ghost function After(action: Action, later: nat): nat {
    if action.Complete? then later + 1 else later
  }

  lemma WorkerRests(maxRetries: nat, s: System, action: Action, id: Name, at: int, later: nat)
    requires Enabled(maxRetries, s, action) && Resting(s, id, at, later)
    requires !action.Produce? && !action.Complete? && !action.Take?
    ensures Resting(Apply(maxRetries, s, action), id, at, later)
  {
  }

  lemma TakeRests(maxRetries: nat, s: System, second: bool, id: Name, at: int, later: nat)
    requires Enabled(maxRetries, s, Take(second)) && Resting(s, id, at, later)
    ensures Resting(Apply(maxRetries, s, Take(second)), id, at, later)
  {
    QueueTail(s.shared.queue, id);
  }

  lemma OneMoreRests(a: seq<CompletedEvent>, x: CompletedEvent, id: Name, at: int, later: nat)
    requires x.id != id
    requires forall p :: 0 <= p < |a| && a[p].id == id ==> a[p].at == at && |a| - 1 - p == later
    ensures var b := a + [x];
            forall p :: 0 <= p < |b| && b[p].id == id ==> b[p].at == at && |b| - 1 - p == later + 1
  {
  }

  lemma FinishedList(d: Shared, id: Name, state: DeliveryState, now: int)
    ensures Finished(d, id, state, now).completed == Trimmed(d).completed + [CompletedEvent(id, now)]
    ensures Finished(d, id, state, now).queue == d.queue
    ensures var kept := Trimmed(d).completed;
            |kept| <= |d.completed| && kept == d.completed[|d.completed| - |kept|..]
  {
    TrimmedIsSuffix(d);
  }

  lemma CompleteRests(maxRetries: nat, s: System, second: bool, now: int, id: Name, at: int, later: nat)
    requires Enabled(maxRetries, s, Complete(second, now)) && Resting(s, id, at, later)
    ensures Resting(Apply(maxRetries, s, Complete(second, now)), id, at, later + 1)
  {
    var w := WorkerAt(s, second);
    assert Claims(w)[|Claims(w)| - 1] == w.activity.event.id;
    var kept := Trimmed(s.shared).completed;
    FinishedList(s.shared, w.activity.event.id, w.activity.state, now);
    SuffixRests(s.shared.completed, kept, id, at, later);
    OneMoreRests(kept, CompletedEvent(w.activity.event.id, now), id, at, later);
    CompleteClaims(maxRetries, s, second, now, id);
  }

  lemma CompleteClaims(maxRetries: nat, s: System, second: bool, now: int, id: Name)
    requires Enabled(maxRetries, s, Complete(second, now))
    ensures var t, w := Apply(maxRetries, s, Complete(second, now)), WorkerAt(s, second);
            && t.shared == Finished(s.shared, w.activity.event.id, w.activity.state, now)
            && (id !in Claims(s.first) ==> id !in Claims(t.first))
            && (id !in Claims(s.second) ==> id !in Claims(t.second))
  {
  }

  lemma ProduceRests(maxRetries: nat, s: System, e: Event, now: int, id: Name, at: int, later: nat)
    requires Enabled(maxRetries, s, Produce(e, now)) && Resting(s, id, at, later)
    requires e.id == id ==> !Accepts(s.shared, e, now)
    ensures Resting(Apply(maxRetries, s, Produce(e, now)), id, at, later)
  {
    PrunedIsSuffix(s.shared, now);
    SuffixRests(s.shared.completed, Pruned(s.shared, now).completed, id, at, later);
    if e.id != id {
      QueueMore(s.shared.queue, e, id);
    }
  }

  lemma StepRests(maxRetries: nat, s: System, action: Action, id: Name, at: int, later: nat)
    requires Enabled(maxRetries, s, action) && Resting(s, id, at, later)
    requires action.Produce? && action.event.id == id ==> Apply(maxRetries, s, action).accepted == s.accepted
    ensures Resting(Apply(maxRetries, s, action), id, at, After(action, later))
  {
    match action
    case Produce(e, now) => ProduceRests(maxRetries, s, e, now, id, at, later);
    case Take(second) => TakeRests(maxRetries, s, second, id, at, later);
    case Complete(second, now) => CompleteRests(maxRetries, s, second, now, id, at, later);
    case _ => WorkerRests(maxRetries, s, action, id, at, later);
  }

  lemma SuffixLists(a: seq<CompletedEvent>, b: seq<CompletedEvent>, p: nat)
    requires p < |a| && |a| - p <= |b| <= |a| && b == a[|a| - |b|..]
    ensures Lists(b, a[p].id)
  {
    assert b[p - (|a| - |b|)] == a[p];
  }

  lemma ProduceKeepsEntry(maxRetries: nat, s: System, e: Event, now: int, p: nat)
    requires Enabled(maxRetries, s, Produce(e, now))
    requires p < |s.shared.completed| && now - s.shared.completed[p].at < 86400
    ensures Entered(Apply(maxRetries, s, Produce(e, now)), s.shared.completed[p].id)
  {
    PrunedIsSuffix(s.shared, now);
    PrunedKeeps(s.shared, now, p);
    SuffixLists(s.shared.completed, Pruned(s.shared, now).completed, p);
  }

  lemma ListsMore(c: seq<CompletedEvent>, x: CompletedEvent, id: Name)
    requires Lists(c, id)
    ensures Lists(c + [x], id)
  {
    var p :| 0 <= p < |c| && c[p].id == id;
    assert (c + [x])[p] == c[p];
  }

  lemma FinishedKeeps(d: Shared, id: Name, state: DeliveryState, now: int, p: nat)
    requires p < |d.completed| && |d.completed| - p < 4096
    ensures Lists(Finished(d, id, state, now).completed, d.completed[p].id)
  {
    var kept := Trimmed(d).completed;
    FinishedList(d, id, state, now);
    TrimmedKeeps(d, p);
    SuffixLists(d.completed, kept, p);
    ListsMore(kept, CompletedEvent(id, now), d.completed[p].id);
  }

  lemma CompleteKeepsEntry(maxRetries: nat, s: System, second: bool, now: int, p: nat)
    requires Enabled(maxRetries, s, Complete(second, now))
    requires p < |s.shared.completed| && |s.shared.completed| - p < 4096
    ensures Entered(Apply(maxRetries, s, Complete(second, now)), s.shared.completed[p].id)
  {
    var w := WorkerAt(s, second);
    FinishedKeeps(s.shared, w.activity.event.id, w.activity.state, now, p);
    CompleteClaims(maxRetries, s, second, now, w.activity.event.id);
  }

  /** The entry stays until it is a day old or 4096 events have finished after it. */
  lemma StepKeepsEntry(maxRetries: nat, s: System, action: Action, id: Name, at: int, later: nat)
    requires Enabled(maxRetries, s, action) && Resting(s, id, at, later) && Entered(s, id)
    requires Apply(maxRetries, s, action).clock < at + 86400 && After(action, later) < 4096
    ensures Entered(Apply(maxRetries, s, action), id)
  {
    var p :| 0 <= p < |s.shared.completed| && s.shared.completed[p].id == id;
    match action
    case Produce(e, now) => ProduceKeepsEntry(maxRetries, s, e, now, p);
    case Complete(second, now) => CompleteKeepsEntry(maxRetries, s, second, now, p);
    case _ =>
  }

  lemma {:induction false} TrimmedKeeps(d: Shared, p: nat)
    requires p < |d.completed| && |d.completed| - p < 4096
    ensures |Trimmed(d).completed| >= |d.completed| - p
    decreases |d.completed|
  {
    if |d.completed| >= COMPLETED_CAPACITY {
      TrimmedKeeps(DropFront(d), p - 1);
    }
  }

  // ---- runs -------------------------------------------------------------------------------------------

  lemma LastAlone(c: seq<CompletedEvent>, id: Name)
    requires c != [] && c[|c| - 1].id == id && multiset(CompletedIds(c))[id] <= 1
    ensures forall p :: 0 <= p < |c| && c[p].id == id ==> p == |c| - 1
  {
    var ids, n := CompletedIds(c), |c| - 1;
    forall p | 0 <= p < n
      ensures c[p].id != id
    {
      assert ids == ids[..p] + [ids[p]] + ids[p + 1..n] + [ids[n]];
      assert ids[p] == c[p].id && ids[n] == id;
    }
  }

  lemma AtMostOnePlace(s: System, id: Name)
    requires PlacedOnce(s) && id in CompletedIds(s.shared.completed)
    ensures id !in QueueIds(s.shared.queue) && id !in Claims(s.first) && id !in Claims(s.second)
    ensures multiset(CompletedIds(s.shared.completed))[id] <= 1
  {
    assert PlacedAt(s, id);
    assert multiset(CompletedIds(s.shared.completed))[id] >= 1;
  }

  lemma FinishedLast(maxRetries: nat, s: System, second: bool, now: int)
    requires Enabled(maxRetries, s, Complete(second, now))
    ensures var t, c := Apply(maxRetries, s, Complete(second, now)), Apply(maxRetries, s, Complete(second, now)).shared.completed;
            t.clock == now && c != [] && c[|c| - 1] == CompletedEvent(WorkerAt(s, second).activity.event.id, now)
  {
  }

  /** Right after an event finishes, its id rests. */
  lemma FinishedRests(maxRetries: nat, s: System, second: bool, now: int, id: Name)
    requires Inv(maxRetries, s) && Enabled(maxRetries, s, Complete(second, now))
    requires WorkerAt(s, second).activity.event.id == id
    ensures var t := Apply(maxRetries, s, Complete(second, now));
            Resting(t, id, now, 0) && Entered(t, id) && t.clock == now
  {
    var t := StepKeeps(maxRetries, s, Complete(second, now));
    FinishedLast(maxRetries, s, second, now);
    var c := t.shared.completed;
    assert CompletedIds(c)[|c| - 1] == id;
    AtMostOnePlace(t, id);
    LastAlone(c, id);
  }

  /** While the id is not accepted again, it rests, and its entry stays for a day or 4096 completions. */
  lemma {:induction false} RestsUntilAccepted(maxRetries: nat, states: seq<System>, actions: seq<Action>,
                                              i: nat, k: nat, id: Name, at: int)
    requires Run(maxRetries, states, actions) && i < k <= |actions| && FinishesAt(states, actions, i, id, at)
    requires forall m :: i < m < k ==> !AcceptsAt(states, actions, m, id)
    ensures Resting(states[k], id, at, Completions(actions, i, k))
    ensures states[k].clock < at + 86400 && Completions(actions, i, k) < 4096 ==> Entered(states[k], id)
    decreases k
  {
    if k == i + 1 {
      var s := RunInv(maxRetries, states, actions, i);
      assert StepAt(maxRetries, states, actions, i);
      FinishedRests(maxRetries, states[i], actions[i].second, at, id);
    } else {
      RestsUntilAccepted(maxRetries, states, actions, i, k - 1, id, at);
      assert StepAt(maxRetries, states, actions, k - 1);
      assert !AcceptsAt(states, actions, k - 1, id);
      var later := Completions(actions, i, k - 1);
      StepRests(maxRetries, states[k - 1], actions[k - 1], id, at, later);
      if states[k].clock < at + 86400 && Completions(actions, i, k) < 4096 {
        StepKeepsEntry(maxRetries, states[k - 1], actions[k - 1], id, at, later);
      }
    }
  }

  /** A resting id is recorded after pruning exactly while its entry is there and younger than a day. */
  lemma RecordedWhileFresh(maxRetries: nat, s: System, id: Name, at: int, later: nat, now: int)
    requires Inv(maxRetries, s) && Resting(s, id, at, later) && now >= s.clock
    ensures id in Pruned(s.shared, now).records <==> Entered(s, id) && now < at + 86400
  {
    PruneIsFilter(s.shared, now);
    AllPlaces(s);
    assert id in s.shared.records <==> id in CompletedIds(s.shared.completed);
    assert id in CompletedIds(s.shared.completed) <==> Entered(s, id) by {
      if Entered(s, id) {
        var p :| 0 <= p < |s.shared.completed| && s.shared.completed[p].id == id;
        assert CompletedIds(s.shared.completed)[p] == id;
      }
    }
    assert id in ExpiredIds(s.shared.completed, now) <==> Entered(s, id) && now - at >= 86400 by {
      if Entered(s, id) && now - at >= 86400 {
        var p :| 0 <= p < |s.shared.completed| && s.shared.completed[p].id == id;
        assert s.shared.completed[p] in s.shared.completed && Expired(s.shared.completed[p], now);
      }
    }
  }

  /** An id that finished and was not accepted since is accepted again exactly when the dispatcher runs, the queue has
      room, and a day has passed or 4096 later events have finished. */
  lemma FinishedIdReturns(maxRetries: nat, states: seq<System>, actions: seq<Action>, i: nat, k: nat, id: Name, at: int)
    requires Run(maxRetries, states, actions) && i < k < |actions| && FinishesAt(states, actions, i, id, at)
    requires forall m :: i < m < k ==> !AcceptsAt(states, actions, m, id)
    requires actions[k].Produce? && actions[k].event.id == id
    ensures AcceptsAt(states, actions, k, id) <==>
              && !states[k].shared.stopped && |states[k].shared.queue| < 128
              && (actions[k].now >= at + 86400 || Completions(actions, i, k) >= 4096)
  {
    var s := RunInv(maxRetries, states, actions, k);
    var now := actions[k].now;
    var later := Completions(actions, i, k);
    assert StepAt(maxRetries, states, actions, k);
    RestsUntilAccepted(maxRetries, states, actions, i, k, id, at);
    RecordedWhileFresh(maxRetries, states[k], id, at, later, now);
    PrunedIsSuffix(states[k].shared, now);
    assert |states[k].shared.completed| <= 4096;
  }

  /** Two accepts of an id that finished in between are a day apart, unless 4096 later events have finished. */
  lemma AcceptsAreADayApart(maxRetries: nat, states: seq<System>, actions: seq<Action>, i: nat, k: nat, id: Name, at: int)
    requires Run(maxRetries, states, actions) && i < k < |actions| && FinishesAt(states, actions, i, id, at)
    requires forall m :: i < m < k ==> !AcceptsAt(states, actions, m, id)
    requires AcceptsAt(states, actions, k, id)
    ensures actions[k].now - at >= 86400 || Completions(actions, i, k) >= 4096
  {
    FinishedIdReturns(maxRetries, states, actions, i, k, id, at);
  }

  // ---- ids that have not finished -----------------------------------------------------------------------

  /** An id that was never accepted is accepted exactly when the dispatcher runs and the queue has room. */
  lemma NewIdAccepted(maxRetries: nat, states: seq<System>, actions: seq<Action>, k: nat, id: Name)
    requires Run(maxRetries, states, actions) && k < |actions|
    requires forall m :: 0 <= m < k ==> !AcceptsAt(states, actions, m, id)
    requires actions[k].Produce? && actions[k].event.id == id
    ensures AcceptsAt(states, actions, k, id) <==> !states[k].shared.stopped && |states[k].shared.queue| < 128
  {
    assert StepAt(maxRetries, states, actions, k);
    NeverRecorded(maxRetries, states, actions, k, id);
    PrunedIsSuffix(states[k].shared, actions[k].now);
    PrunedRecords(states[k].shared, actions[k].now);
  }

  lemma {:induction false} PrunedRecords(d: Shared, now: int)
    ensures Pruned(d, now).records.Keys <= d.records.Keys
    decreases |d.completed|
  {
    if d.completed != [] && Expired(d.completed[0], now) {
      PrunedRecords(DropFront(d), now);
    }
  }

  lemma {:induction false} TrimmedRecords(d: Shared)
    ensures Trimmed(d).records.Keys <= d.records.Keys
    decreases |d.completed|
  {
    if |d.completed| >= COMPLETED_CAPACITY {
      TrimmedRecords(DropFront(d));
    }
  }

  lemma {:induction false} NeverRecorded(maxRetries: nat, states: seq<System>, actions: seq<Action>, k: nat, id: Name)
    requires Run(maxRetries, states, actions) && k <= |actions|
    requires forall m :: 0 <= m < k ==> !AcceptsAt(states, actions, m, id)
    ensures id !in states[k].shared.records
  {
    if k > 0 {
      NeverRecorded(maxRetries, states, actions, k - 1, id);
      var s := RunInv(maxRetries, states, actions, k - 1);
      assert StepAt(maxRetries, states, actions, k - 1);
      assert !AcceptsAt(states, actions, k - 1, id);
      match actions[k - 1] {
        case Produce(_, now) => PrunedRecords(states[k - 1].shared, now);
        case Complete(_, _) => TrimmedRecords(states[k - 1].shared);
        case _ =>
      }
    }
  }

  /** An id that is queued or held is refused. */
  lemma OpenIdRefused(maxRetries: nat, states: seq<System>, actions: seq<Action>, k: nat, id: Name)
    requires Run(maxRetries, states, actions) && k < |actions|
    requires id in OpenIds(states[k]) && actions[k].Produce? && actions[k].event.id == id
    ensures !AcceptsAt(states, actions, k, id)
  {
    var s := RunInv(maxRetries, states, actions, k);
    assert StepAt(maxRetries, states, actions, k);
    PruneIsFilter(states[k].shared, actions[k].now);
    AllPlaces(states[k]);
    var all := OpenIds(states[k]) + CompletedIds(states[k].shared.completed);
    assert id in Elements(all);
    OpenNotCompleted(states[k], id);
  }

  lemma OpenNotCompleted(s: System, id: Name)
    requires PlacedOnce(s) && id in OpenIds(s)
    ensures forall c :: c in s.shared.completed ==> c.id != id
  {
    assert PlacedAt(s, id);
    assert multiset(OpenIds(s))[id] > 0;
    forall c | c in s.shared.completed
      ensures c.id != id
    {
      var p :| 0 <= p < |s.shared.completed| && s.shared.completed[p] == c;
      assert CompletedIds(s.shared.completed)[p] == c.id;
      assert multiset(CompletedIds(s.shared.completed))[c.id] > 0;
    }
  }

  // ---- order --------------------------------------------------------------------------------------------

  /** The events accepted, and those taken by either worker, in the first k steps. */
  ghost function Accepted(states: seq<System>, actions: seq<Action>, k: nat): seq<Event>
    requires k <= |actions| < |states|
  {
    if k == 0 then []
    else
      Accepted(states, actions, k - 1) +
      if actions[k - 1].Produce? && AcceptsAt(states, actions, k - 1, actions[k - 1].event.id)
      then [actions[k - 1].event] else []
  }

  ghost function TakenEvents(states: seq<System>, actions: seq<Action>, k: nat): seq<Event>
    requires k <= |actions| < |states|
  {
    if k == 0 then []
    else
      TakenEvents(states, actions, k - 1) +
      if actions[k - 1].Take? && states[k - 1].shared.queue != [] then [states[k - 1].shared.queue[0]] else []
  }

  lemma QueueStep(maxRetries: nat, s: System, action: Action)
    requires Enabled(maxRetries, s, action)
    ensures var t := Apply(maxRetries, s, action);
            t.shared.queue ==
              if action.Produce? && t.accepted == s.accepted + 1 then s.shared.queue + [action.event]
              else if action.Take? then s.shared.queue[1..]
              else s.shared.queue
  {
    match action
    case Produce(_, now) => PrunedIsSuffix(s.shared, now);
    case Complete(_, _) => TrimmedIsSuffix(s.shared);
    case _ =>
  }

  /** Events are taken in the order in which they were accepted, unchanged and none left out. */
  lemma {:induction false} FirstInFirstOut(maxRetries: nat, states: seq<System>, actions: seq<Action>, k: nat)
    requires Run(maxRetries, states, actions) && k <= |actions|
    ensures Accepted(states, actions, k) == TakenEvents(states, actions, k) + states[k].shared.queue
  {
    if k > 0 {
      FirstInFirstOut(maxRetries, states, actions, k - 1);
      assert StepAt(maxRetries, states, actions, k - 1);
      var s := states[k - 1];
      QueueStep(maxRetries, s, actions[k - 1]);
      TakeMoves(TakenEvents(states, actions, k - 1), s.shared.queue);
    }
  }

  lemma TakeMoves(taken: seq<Event>, queue: seq<Event>)
    ensures queue != [] ==> taken + queue == taken + [queue[0]] + queue[1..]
    ensures forall e :: taken + (queue + [e]) == taken + queue + [e]
    ensures taken + [] + queue == taken + queue
  {
  }
}
