/** What holds in every reachable state of the dispatcher. */
module DispatcherTheorems {
  import opened Names
  import opened Dispatcher
  import opened DispatcherRuns

  ghost predicate Run(maxRetries: nat, states: seq<System>, actions: seq<Action>) {
    && |states| == |actions| + 1
    && states[0] == Start(states[0].clock)
    && forall i :: 0 <= i < |actions| ==> StepAt(maxRetries, states, actions, i)
  }

  ghost predicate StepAt(maxRetries: nat, states: seq<System>, actions: seq<Action>, i: nat)
    requires i < |actions| < |states|
  {
    Enabled(maxRetries, states[i], actions[i]) && states[i + 1] == Apply(maxRetries, states[i], actions[i])
  }

  lemma StartInv(maxRetries: nat, s: System)
    requires s == Start(s.clock)
    ensures Inv(maxRetries, s)
  {
    forall id
      ensures PlacedAt(s, id)
    {
    }
  }

  /** The state after i steps of a run satisfies the invariant. */
  lemma {:induction false} RunInv(maxRetries: nat, states: seq<System>, actions: seq<Action>, i: nat)
    returns (s: System)
    requires Run(maxRetries, states, actions) && i < |states|
    ensures s == states[i] && Inv(maxRetries, s)
  {
    if i == 0 {
      s := states[0];
      StartInv(maxRetries, s);
    } else {
      s := RunInv(maxRetries, states, actions, i - 1);
      assert StepAt(maxRetries, states, actions, i - 1);
      s := StepKeeps(maxRetries, s, actions[i - 1]);
    }
  }

  /** Exclusion: no id is queued twice, held by both workers, or both queued and held. */
  lemma Exclusion(maxRetries: nat, states: seq<System>, actions: seq<Action>, i: nat)
    requires Run(maxRetries, states, actions) && i < |states|
    ensures NoRepeats(QueueIds(states[i].shared.queue))
    ensures forall w :: (w == states[i].first || w == states[i].second) && Holds(w.activity) ==>
              w.activity.event.id !in QueueIds(states[i].shared.queue)
    ensures Holds(states[i].first.activity) && Holds(states[i].second.activity) ==>
              states[i].first.activity.event.id != states[i].second.activity.event.id
  {
    var s := RunInv(maxRetries, states, actions, i);
    Exclusive(s);
    assert Holds(s.first.activity) ==> s.first.activity.event.id in Claims(s.first);
    assert Holds(s.second.activity) ==> s.second.activity.event.id in Claims(s.second);
  }

  // ---- sizes and conservation ------------------------------------------------------------------

  ghost function OpenIds(s: System): seq<Name> {
    QueueIds(s.shared.queue) + Claims(s.first) + Claims(s.second)
  }

  lemma AllPlaces(s: System)
    requires PlacedOnce(s)
    ensures var all := OpenIds(s) + CompletedIds(s.shared.completed);
            NoRepeats(all) && Elements(all) == s.shared.records.Keys
  {
    var all := OpenIds(s) + CompletedIds(s.shared.completed);
    forall id
      ensures multiset(all)[id] == Occurrences(s, id)
    {
    }
    SingleNoRepeats(all, s);
    forall id
      ensures id in all <==> id in s.shared.records
    {
      assert PlacedAt(s, id);
      assert id in all <==> multiset(all)[id] > 0;
    }
  }

  /** Every record is accounted for, one by one. */
  lemma RecordCount(s: System)
    requires PlacedOnce(s)
    ensures |s.shared.records| ==
            |s.shared.queue| + |Claims(s.first)| + |Claims(s.second)| + |s.shared.completed|
  {
    AllPlaces(s);
    NoRepeatsSize(OpenIds(s) + CompletedIds(s.shared.completed));
    assert |s.shared.records| == |s.shared.records.Keys|;
  }

  lemma OpenIsUnfinished(maxRetries: nat, s: System, id: Name)
    requires Inv(maxRetries, s)
    ensures id in OpenIds(s) ==> RecordOpen(s.shared.records, id)
    ensures id in CompletedIds(s.shared.completed) ==> RecordClosed(s.shared.records, id)
  {
    if id in QueueIds(s.shared.queue) {
      var i :| 0 <= i < |s.shared.queue| && QueueIds(s.shared.queue)[i] == id;
      assert RecordIs(s.shared.records, s.shared.queue[i].id, StatePending);
    }
    if id in CompletedIds(s.shared.completed) {
      var i :| 0 <= i < |s.shared.completed| && CompletedIds(s.shared.completed)[i] == id;
      assert RecordClosed(s.shared.records, s.shared.completed[i].id);
    }
  }

  lemma UnfinishedCount(maxRetries: nat, s: System)
    requires Inv(maxRetries, s)
    ensures |Unfinished(s.shared.records)| == |s.shared.queue| + |Claims(s.first)| + |Claims(s.second)|
  {
    var all := OpenIds(s) + CompletedIds(s.shared.completed);
    AllPlaces(s);
    assert NoRepeats(OpenIds(s)) by {
      assert forall i :: 0 <= i < |OpenIds(s)| ==> all[i] == OpenIds(s)[i];
    }
    NoRepeatsSize(OpenIds(s));
    forall id
      ensures id in Unfinished(s.shared.records) <==> id in OpenIds(s)
    {
      OpenIsUnfinished(maxRetries, s, id);
      assert id in s.shared.records <==> id in Elements(all);
    }
    assert Unfinished(s.shared.records) == Elements(OpenIds(s));
  }

  /** Bounds: the queue, the completed list and the record map never outgrow their capacities. */
  lemma Bounds(maxRetries: nat, states: seq<System>, actions: seq<Action>, i: nat)
    requires Run(maxRetries, states, actions) && i < |states|
    ensures |states[i].shared.queue| <= 128 && |states[i].shared.completed| <= 4096
    ensures |states[i].shared.records| <= 128 + 4 + 4096
    ensures !states[i].cancelled ==> |states[i].shared.records| <= 128 + 2 + 4096
  {
    var s := RunInv(maxRetries, states, actions, i);
    RecordCount(states[i]);
  }

  /** Conservation: accepted enqueues are finished events plus the unfinished records counted at shutdown. */
  lemma Conservation(maxRetries: nat, states: seq<System>, actions: seq<Action>, i: nat)
    requires Run(maxRetries, states, actions) && i < |states|
    ensures states[i].accepted == states[i].finished + |Unfinished(states[i].shared.records)|
  {
    var s := RunInv(maxRetries, states, actions, i);
    UnfinishedCount(maxRetries, states[i]);
  }

  /** Two accepted enqueues of one id are separated by the eviction of its record. */
  lemma AcceptsAreSeparated(maxRetries: nat, states: seq<System>, actions: seq<Action>, i: nat, a: nat, b: nat)
    returns (k: nat)
    requires Run(maxRetries, states, actions) && i < |states|
    requires a < b < |states[i].log| && states[i].log[a].Accept? && states[i].log[b] == states[i].log[a]
    ensures a < k < b && states[i].log[k] == Evict(states[i].log[a].id)
  {
    var s := RunInv(maxRetries, states, actions, i);
    assert AcceptOk(states[i].log, b);
    k := LastWord(states[i].log, a, b);
  }

  lemma {:induction false} LastWord(log: seq<Entry>, a: nat, b: nat) returns (k: nat)
    requires a < b <= |log| && log[a].Accept? && !Recent(log[..b], log[a].id)
    ensures a < k < b && log[k] == Evict(log[a].id)
    decreases b
  {
    assert log[..b][..b - 1] == log[..b - 1];
    if log[b - 1].id == log[a].id {
      k := b - 1;
    } else {
      k := LastWord(log, a, b - 1);
    }
  }

  // ---- eviction ------------------------------------------------------------------------------------

  lemma {:induction false} DropManyRemoves(d: Shared, n: nat, id: Name)
    requires n <= |d.completed|
    requires id in d.records && id !in DropMany(d, n).records
    ensures id in CompletedIds(d.completed)
    decreases n
  {
    if id == d.completed[0].id {
      assert CompletedIds(d.completed)[0] == id;
    } else {
      DropManyRemoves(DropFront(d), n - 1, id);
      var i :| 0 <= i < |d.completed| - 1 && CompletedIds(d.completed[1..])[i] == id;
      assert CompletedIds(d.completed)[i + 1] == id;
    }
  }

  /** Only completed records are ever removed. */
  lemma OnlyCompletedEvicted(maxRetries: nat, s: System, action: Action, id: Name)
    requires Inv(maxRetries, s) && Enabled(maxRetries, s, action)
    requires id in s.shared.records && id !in Apply(maxRetries, s, action).shared.records
    ensures IsCompleted(s.shared.records[id])
  {
    match action {
      case Produce(e, now) =>
        PrunedDrops(s.shared, now);
        DropManyRemoves(s.shared, |s.shared.completed| - |Pruned(s.shared, now).completed|, id);
      case Complete(_, _) =>
        TrimmedDrops(s.shared);
        DropManyRemoves(s.shared, |s.shared.completed| - |Trimmed(s.shared).completed|, id);
      case _ =>
    }
    OpenIsUnfinished(maxRetries, s, id);
  }

  /** The reference: keep what has not expired, wherever it stands in the list. */
  function Unexpired(c: seq<CompletedEvent>, now: int): seq<CompletedEvent> {
    if c == [] then []
    else if Expired(c[0], now) then Unexpired(c[1..], now)
    else [c[0]] + Unexpired(c[1..], now)
  }

  function ExpiredIds(c: seq<CompletedEvent>, now: int): set<Name> {
    set x | x in c && Expired(x, now) :: x.id
  }

  lemma {:induction false} NothingExpired(c: seq<CompletedEvent>, now: int)
    requires OldestFirst(c) && (c == [] || !Expired(c[0], now))
    ensures Unexpired(c, now) == c
    ensures ExpiredIds(c, now) == {}
  {
    if c != [] {
      assert forall i :: 0 < i < |c| ==> c[0].at <= c[i].at;
      NothingExpired(c[1..], now);
    }
  }

  /** With oldest first, the front scan of prune removes exactly what a full filter by age removes. */
  lemma {:induction false} PruneIsFilter(d: Shared, now: int)
    requires OldestFirst(d.completed)
    ensures Pruned(d, now).completed == Unexpired(d.completed, now)
    ensures Pruned(d, now).records == d.records - ExpiredIds(d.completed, now)
    decreases |d.completed|
  {
    var c := d.completed;
    if c != [] && Expired(c[0], now) {
      PruneIsFilter(DropFront(d), now);
      assert ExpiredIds(c, now) == ExpiredIds(c[1..], now) + {c[0].id} by {
        assert c == [c[0]] + c[1..];
      }
    } else {
      NothingExpired(c, now);
    }
  }

  /** In every run the list is oldest first, so the fast prune is always exact. */
  lemma PruneIsExact(maxRetries: nat, states: seq<System>, actions: seq<Action>, i: nat, now: int)
    requires Run(maxRetries, states, actions) && i < |states|
    ensures Pruned(states[i].shared, now).completed == Unexpired(states[i].shared.completed, now)
    ensures Pruned(states[i].shared, now).records ==
            states[i].shared.records - ExpiredIds(states[i].shared.completed, now)
  {
    var s := RunInv(maxRetries, states, actions, i);
    PruneIsFilter(states[i].shared, now);
  }
}
