/** All interleavings of producers, two workers, cancellation and shutdown. */
module DispatcherRuns {
  import opened Names
  import opened Dispatcher

  /** Where a worker stands; taking an event, checking for cancellation and marking it are separate steps. */
  datatype Activity =
    | Waiting
    | Taken(event: Event)
    | Checked(event: Event)
    | Sending(event: Event, attempt: nat)
    | Ended(event: Event, state: DeliveryState)
    | Exited

  /** dropped lists the events the worker abandoned because of cancellation. */
  datatype Worker = Worker(activity: Activity, dropped: seq<Name>)

  datatype Entry = Accept(id: Name) | Evict(id: Name)

  datatype System = System(
    shared: Shared, first: Worker, second: Worker, cancelled: bool, clock: int,
    accepted: nat, finished: nat, log: seq<Entry>)

  datatype Action =
    | Produce(event: Event, now: int)
    | Take(second: bool)
    | Check(second: bool)
    | Mark(second: bool)
    | RejectEncoding(second: bool)
    | Try(second: bool, result: AttemptResult)
    | GiveUp(second: bool)
    | Complete(second: bool, now: int)
    | Leave(second: bool)
    | Cancel
    | Stop

  function WorkerAt(s: System, second: bool): Worker {
    if second then s.second else s.first
  }

  function SetWorker(s: System, second: bool, w: Worker): System {
    if second then s.(second := w) else s.(first := w)
  }

  predicate Holds(a: Activity) {
    a.Taken? || a.Checked? || a.Sending? || a.Ended?
  }

  /** The ids evicted when the completed list shrinks from a to its suffix b. */
  function Evictions(a: seq<CompletedEvent>, b: seq<CompletedEvent>): seq<Entry>
    requires |b| <= |a|
  {
    seq(|a| - |b|, i requires 0 <= i < |a| - |b| => Evict(a[i].id))
  }

  predicate Enabled(maxRetries: nat, s: System, action: Action) {
    match action
    case Produce(_, now) => now >= s.clock
    case Take(second) => WorkerAt(s, second).activity.Waiting? && s.shared.queue != []
    case Check(second) => WorkerAt(s, second).activity.Taken?
    case Mark(second) => WorkerAt(s, second).activity.Checked?
    case RejectEncoding(second) =>
      WorkerAt(s, second).activity.Sending? && WorkerAt(s, second).activity.attempt == 0
    case Try(second, _) => WorkerAt(s, second).activity.Sending?
    case GiveUp(second) => WorkerAt(s, second).activity.Sending? && s.cancelled
    case Complete(second, now) => WorkerAt(s, second).activity.Ended? && now >= s.clock
    case Leave(second) => WorkerAt(s, second).activity.Waiting? && s.cancelled
    case Cancel => true
    case Stop => s.cancelled
  }

  lemma {:induction false} PrunedIsSuffix(d: Shared, now: int)
    ensures var p := Pruned(d, now);
            p.queue == d.queue && p.stopped == d.stopped
            && |p.completed| <= |d.completed| && p.completed == d.completed[|d.completed| - |p.completed|..]
    decreases |d.completed|
  {
    if d.completed != [] && Expired(d.completed[0], now) {
      PrunedIsSuffix(DropFront(d), now);
    }
  }

  lemma {:induction false} TrimmedIsSuffix(d: Shared)
    ensures var p := Trimmed(d);
            p.queue == d.queue && p.stopped == d.stopped && |p.completed| < COMPLETED_CAPACITY
            && |p.completed| <= |d.completed| && p.completed == d.completed[|d.completed| - |p.completed|..]
    decreases |d.completed|
  {
    if |d.completed| >= COMPLETED_CAPACITY {
      TrimmedIsSuffix(DropFront(d));
    }
  }

  /** What an attempt leads to. */
  function AfterAttempt(maxRetries: nat, e: Event, attempt: nat, result: AttemptResult): Activity {
    if result.delivered then Ended(e, Delivered)
    else if !result.retry then Ended(e, Rejected)
    else if attempt >= maxRetries then Ended(e, Exhausted)
    else Sending(e, attempt + 1)
  }

  function Apply(maxRetries: nat, s: System, action: Action): System
    requires Enabled(maxRetries, s, action)
  {
    match action
    case Produce(e, now) =>
      var d := Enqueued(s.shared, e, now);
      PrunedIsSuffix(s.shared, now);
      var accepted := Accepts(s.shared, e, now);
      s.(shared := d, clock := now,
         accepted := if accepted then s.accepted + 1 else s.accepted,
         log := s.log + Evictions(s.shared.completed, d.completed) + if accepted then [Accept(e.id)] else [])
    case Take(second) =>
      var w := WorkerAt(s, second);
      SetWorker(s.(shared := s.shared.(queue := s.shared.queue[1..])), second, w.(activity := Taken(s.shared.queue[0])))
    case Check(second) =>
      var w := WorkerAt(s, second);
      if s.cancelled then SetWorker(s, second, Worker(Exited, w.dropped + [w.activity.event.id]))
      else SetWorker(s, second, w.(activity := Checked(w.activity.event)))
    case Mark(second) =>
      var w := WorkerAt(s, second);
      var d := s.shared.(records := s.shared.records[w.activity.event.id := StateSending]);
      SetWorker(s.(shared := d), second, w.(activity := Sending(w.activity.event, 0)))
    case RejectEncoding(second) =>
      var w := WorkerAt(s, second);
      SetWorker(s, second, w.(activity := Ended(w.activity.event, Rejected)))
    case Try(second, result) =>
      var w := WorkerAt(s, second);
      SetWorker(s, second, w.(activity := AfterAttempt(maxRetries, w.activity.event, w.activity.attempt, result)))
    case GiveUp(second) =>
      var w := WorkerAt(s, second);
      SetWorker(s, second, Worker(Waiting, w.dropped + [w.activity.event.id]))
    case Complete(second, now) =>
      var w := WorkerAt(s, second);
      var d := Finished(s.shared, w.activity.event.id, w.activity.state, now);
      TrimmedIsSuffix(s.shared);
      SetWorker(s.(shared := d, clock := now, finished := s.finished + 1,
                   log := s.log + Evictions(s.shared.completed, Trimmed(s.shared).completed)),
                second, w.(activity := Waiting))
    case Leave(second) => SetWorker(s, second, WorkerAt(s, second).(activity := Exited))
    case Cancel => s.(cancelled := true)
    case Stop => s.(shared := s.shared.(stopped := true))
  }

  function Start(clock: int): System {
    System(Shared([], map[], [], false), Worker(Waiting, []), Worker(Waiting, []), false, clock, 0, 0, [])
  }

  // ---- the invariant -------------------------------------------------------------------------

  function QueueIds(q: seq<Event>): seq<Name> {
    seq(|q|, i requires 0 <= i < |q| => q[i].id)
  }

  function CompletedIds(c: seq<CompletedEvent>): seq<Name> {
    seq(|c|, i requires 0 <= i < |c| => c[i].id)
  }

  /** The ids a worker holds or has abandoned. */
  function Claims(w: Worker): seq<Name> {
    w.dropped + if Holds(w.activity) then [w.activity.event.id] else []
  }

  /** How often an id is queued, claimed by a worker, or listed as completed. */
  ghost function Occurrences(s: System, id: Name): nat {
    multiset(QueueIds(s.shared.queue))[id] + multiset(Claims(s.first))[id] + multiset(Claims(s.second))[id]
    + multiset(CompletedIds(s.shared.completed))[id]
  }

  ghost predicate PlacedAt(s: System, id: Name) {
    Occurrences(s, id) == if id in s.shared.records then 1 else 0
  }

  /** Every recorded id is in exactly one place, and no other id is anywhere. */
  ghost predicate PlacedOnce(s: System) {
    forall id {:trigger PlacedAt(s, id)} :: PlacedAt(s, id)
  }

  ghost predicate RecordIs(records: map<Name, DeliveryState>, id: Name, state: DeliveryState) {
    id in records && records[id] == state
  }

  ghost predicate RecordOpen(records: map<Name, DeliveryState>, id: Name) {
    id in records && !IsCompleted(records[id])
  }

  ghost predicate RecordClosed(records: map<Name, DeliveryState>, id: Name) {
    id in records && IsCompleted(records[id])
  }

  ghost predicate QueueOk(records: map<Name, DeliveryState>, queue: seq<Event>) {
    && |queue| <= QUEUE_CAPACITY
    && forall i :: 0 <= i < |queue| ==> RecordIs(records, queue[i].id, StatePending)
  }

  /** The completed list is bounded, oldest first, and its records are closed. */
  ghost predicate CompletedOk(records: map<Name, DeliveryState>, completed: seq<CompletedEvent>, clock: int) {
    && |completed| <= COMPLETED_CAPACITY
    && (forall i :: 0 <= i < |completed| ==> RecordClosed(records, completed[i].id))
    && (forall i :: 0 <= i < |completed| ==> completed[i].at <= clock)
    && OldestFirst(completed)
  }

  ghost predicate OldestFirst(completed: seq<CompletedEvent>) {
    forall i, j :: 0 <= i < j < |completed| ==> completed[i].at <= completed[j].at
  }

  ghost predicate ActivityOk(maxRetries: nat, records: map<Name, DeliveryState>, a: Activity) {
    match a
    case Taken(e) => RecordIs(records, e.id, StatePending)
    case Checked(e) => RecordIs(records, e.id, StatePending)
    case Sending(e, attempt) => RecordIs(records, e.id, StateSending) && attempt <= maxRetries
    case Ended(e, state) => RecordIs(records, e.id, StateSending) && IsCompleted(state)
    case _ => true
  }

  ghost predicate WorkerOk(maxRetries: nat, records: map<Name, DeliveryState>, cancelled: bool, w: Worker) {
    && ActivityOk(maxRetries, records, w.activity)
    && (forall i :: 0 <= i < |w.dropped| ==> RecordOpen(records, w.dropped[i]))
    && (!cancelled ==> w.dropped == [])
    && (w.activity.Checked? || w.activity.Sending? || w.activity.Ended? ==> w.dropped == [])
    && |w.dropped| <= (if w.activity.Exited? then 2 else 1)
  }

  /** The last entry about id is an accept. */
  ghost predicate Recent(log: seq<Entry>, id: Name) {
    if log == [] then false
    else
      var e := log[|log| - 1];
      if e.id == id then e.Accept? else Recent(log[..|log| - 1], id)
  }

  /** An id is accepted only when every earlier accept of it has been evicted. */
  ghost predicate AcceptOk(log: seq<Entry>, i: nat)
    requires i < |log|
  {
    log[i].Accept? ==> !Recent(log[..i], log[i].id)
  }

  ghost predicate LogOk(log: seq<Entry>, records: map<Name, DeliveryState>) {
    && (forall i :: 0 <= i < |log| ==> AcceptOk(log, i))
    && (forall id {:trigger Recent(log, id)} :: Recent(log, id) <==> id in records)
  }

  /** Accepted enqueues are finished or still queued, held or abandoned. */
  ghost predicate Conserved(s: System) {
    s.accepted == s.finished + |s.shared.queue| + |Claims(s.first)| + |Claims(s.second)|
  }

  ghost predicate Inv(maxRetries: nat, s: System) {
    && PlacedOnce(s)
    && QueueOk(s.shared.records, s.shared.queue)
    && CompletedOk(s.shared.records, s.shared.completed, s.clock)
    && WorkerOk(maxRetries, s.shared.records, s.cancelled, s.first)
    && WorkerOk(maxRetries, s.shared.records, s.cancelled, s.second)
    && Conserved(s)
    && LogOk(s.log, s.shared.records)
  }

  // ---- the two workers are interchangeable -----------------------------------------------------

  function Swap(s: System): System {
    s.(first := s.second, second := s.first)
  }

  function ForFirst(action: Action): Action {
    match action
    case Take(_) => Take(false)
    case Check(_) => Check(false)
    case Mark(_) => Mark(false)
    case RejectEncoding(_) => RejectEncoding(false)
    case Try(_, result) => Try(false, result)
    case GiveUp(_) => GiveUp(false)
    case Complete(_, now) => Complete(false, now)
    case Leave(_) => Leave(false)
    case _ => action
  }

  predicate BySecond(action: Action) {
    match action
    case Produce(_, _) => false
    case Cancel => false
    case Stop => false
    case _ => action.second
  }

  lemma SwapApply(maxRetries: nat, s: System, action: Action)
    requires Enabled(maxRetries, s, action) && BySecond(action)
    ensures Enabled(maxRetries, Swap(s), ForFirst(action))
    ensures Apply(maxRetries, s, action) == Swap(Apply(maxRetries, Swap(s), ForFirst(action)))
  {
  }

  lemma SwapInv(maxRetries: nat, s: System)
    ensures Inv(maxRetries, s) <==> Inv(maxRetries, Swap(s))
  {
    forall id
      ensures PlacedAt(s, id) <==> PlacedAt(Swap(s), id)
    {
    }
  }

  // ---- one id, one place ---------------------------------------------------------------------------

  /** No id is queued twice, held twice, or both queued and held. */
  lemma Exclusive(s: System)
    requires PlacedOnce(s)
    ensures NoRepeats(QueueIds(s.shared.queue)) && NoRepeats(CompletedIds(s.shared.completed))
    ensures forall id :: id in Claims(s.first) ==> id !in QueueIds(s.shared.queue) && id !in Claims(s.second)
    ensures forall id :: id in Claims(s.second) ==> id !in QueueIds(s.shared.queue)
  {
    SingleNoRepeats(QueueIds(s.shared.queue), s);
    SingleNoRepeats(CompletedIds(s.shared.completed), s);
    forall id
      ensures id in Claims(s.first) ==> id !in QueueIds(s.shared.queue) && id !in Claims(s.second)
      ensures id in Claims(s.second) ==> id !in QueueIds(s.shared.queue)
    {
      assert PlacedAt(s, id);
    }
  }

  lemma SingleNoRepeats(ids: seq<Name>, s: System)
    requires PlacedOnce(s)
    requires forall id :: multiset(ids)[id] <= Occurrences(s, id)
    ensures NoRepeats(ids)
  {
    forall i, j | 0 <= i < j < |ids|
      ensures ids[i] != ids[j]
    {
      assert ids == ids[..i] + [ids[i]] + ids[i + 1..j] + [ids[j]] + ids[j + 1..];
      assert PlacedAt(s, ids[i]);
    }
  }

  // ---- evictions ---------------------------------------------------------------------------------

  /** Remove the n oldest completed events. */
  function DropMany(d: Shared, n: nat): Shared
    requires n <= |d.completed|
    decreases n
  {
    if n == 0 then d else DropMany(DropFront(d), n - 1)
  }

  lemma {:induction false} PrunedDrops(d: Shared, now: int)
    ensures |Pruned(d, now).completed| <= |d.completed|
    ensures Pruned(d, now) == DropMany(d, |d.completed| - |Pruned(d, now).completed|)
    decreases |d.completed|
  {
    if d.completed != [] && Expired(d.completed[0], now) {
      PrunedDrops(DropFront(d), now);
      PrunedIsSuffix(DropFront(d), now);
    }
  }

  lemma {:induction false} TrimmedDrops(d: Shared)
    ensures |Trimmed(d).completed| <= |d.completed|
    ensures Trimmed(d) == DropMany(d, |d.completed| - |Trimmed(d).completed|)
    decreases |d.completed|
  {
    if |d.completed| >= COMPLETED_CAPACITY {
      TrimmedDrops(DropFront(d));
      TrimmedIsSuffix(DropFront(d));
    }
  }

  function EvictOne(s: System): System
    requires s.shared.completed != []
  {
    s.(shared := DropFront(s.shared), log := s.log + [Evict(s.shared.completed[0].id)])
  }

  /** The oldest completed id sits nowhere else. */
  lemma OldestIsAlone(s: System)
    requires PlacedOnce(s) && s.shared.completed != []
    ensures var id := s.shared.completed[0].id;
            && PlacedOnce(EvictOne(s))
            && (forall i :: 0 <= i < |s.shared.queue| ==> s.shared.queue[i].id != id)
            && (forall i :: 0 < i < |s.shared.completed| ==> s.shared.completed[i].id != id)
            && id !in Claims(s.first) && id !in Claims(s.second)
  {
    var c := s.shared.completed;
    var id := c[0].id;
    assert PlacedAt(s, id);
    assert CompletedIds(c) == [id] + CompletedIds(c[1..]);
    assert multiset(CompletedIds(c)) == multiset{id} + multiset(CompletedIds(c[1..]));
    forall i | 0 <= i < |s.shared.queue|
      ensures s.shared.queue[i].id != id
    {
      assert QueueIds(s.shared.queue)[i] in multiset(QueueIds(s.shared.queue));
    }
    forall i | 0 < i < |c|
      ensures c[i].id != id
    {
      assert CompletedIds(c[1..])[i - 1] in multiset(CompletedIds(c[1..]));
    }
    forall x
      ensures PlacedAt(EvictOne(s), x)
    {
      assert PlacedAt(s, x);
    }
  }

  lemma WorkerOkFrame(maxRetries: nat, records: map<Name, DeliveryState>, records': map<Name, DeliveryState>,
                      cancelled: bool, w: Worker, id: Name)
    requires WorkerOk(maxRetries, records, cancelled, w)
    requires id !in Claims(w)
    requires records' - {id} == records - {id}
    ensures WorkerOk(maxRetries, records', cancelled, w)
  {
    assert forall x :: x != id && x in records ==> x in records - {id} && (records - {id})[x] == records[x];
    assert forall x :: x != id && x in records - {id} ==> x in records' && records'[x] == (records' - {id})[x];
    assert Holds(w.activity) ==> w.activity.event.id in Claims(w);
    forall i | 0 <= i < |w.dropped|
      ensures RecordOpen(records', w.dropped[i])
    {
      assert RecordOpen(records, w.dropped[i]) && w.dropped[i] in Claims(w);
    }
  }

  lemma RecentAppend(log: seq<Entry>, e: Entry, id: Name)
    ensures Recent(log + [e], id) <==> if e.id == id then e.Accept? else Recent(log, id)
  {
    assert (log + [e])[..|log|] == log;
  }

  /** The log stays truthful when one entry is appended and the record map follows it. */
  lemma LogAppend(log: seq<Entry>, records: map<Name, DeliveryState>, e: Entry, records': map<Name, DeliveryState>)
    requires LogOk(log, records)
    requires e.Accept? ==> e.id !in records
    requires records'.Keys == if e.Accept? then records.Keys + {e.id} else records.Keys - {e.id}
    ensures LogOk(log + [e], records')
  {
    var log' := log + [e];
    forall i | 0 <= i < |log'|
      ensures AcceptOk(log', i)
    {
      if i < |log| {
        assert AcceptOk(log, i);
        assert log'[..i] == log[..i];
      } else {
        assert log'[..i] == log;
        assert Recent(log, e.id) <==> e.id in records;
      }
    }
    forall id
      ensures Recent(log', id) <==> id in records'
    {
      RecentAppend(log, e, id);
      assert Recent(log, id) <==> id in records;
    }
  }

  lemma LogSameKeys(log: seq<Entry>, records: map<Name, DeliveryState>, records': map<Name, DeliveryState>)
    requires LogOk(log, records) && records'.Keys == records.Keys
    ensures LogOk(log, records')
  {
    forall id
      ensures Recent(log, id) <==> id in records'
    {
      assert Recent(log, id) <==> id in records;
    }
  }

  lemma EvictOneKeeps(maxRetries: nat, s: System) returns (t: System)
    requires Inv(maxRetries, s) && s.shared.completed != []
    ensures t == EvictOne(s) && Inv(maxRetries, t)
  {
    t := EvictOne(s);
    var id := s.shared.completed[0].id;
    OldestIsAlone(s);
    assert t.shared.records - {id} == s.shared.records - {id};
    assert QueueOk(t.shared.records, t.shared.queue) by {
      assert forall i :: 0 <= i < |s.shared.queue| ==> RecordIs(s.shared.records, s.shared.queue[i].id, StatePending);
    }
    assert CompletedOk(t.shared.records, t.shared.completed, t.clock) by {
      CompletedTail(s.shared.records, s.shared.completed, s.clock);
    }
    WorkerOkFrame(maxRetries, s.shared.records, t.shared.records, s.cancelled, s.first, id);
    WorkerOkFrame(maxRetries, s.shared.records, t.shared.records, s.cancelled, s.second, id);
    LogAppend(s.log, s.shared.records, Evict(id), t.shared.records);
  }

  lemma CompletedTail(records: map<Name, DeliveryState>, c: seq<CompletedEvent>, clock: int)
    requires c != [] && CompletedOk(records, c, clock)
    requires forall i :: 0 < i < |c| ==> c[i].id != c[0].id
    ensures CompletedOk(records - {c[0].id}, c[1..], clock)
  {
    forall i | 0 <= i < |c[1..]|
      ensures RecordClosed(records - {c[0].id}, c[1..][i].id)
    {
      assert RecordClosed(records, c[i + 1].id);
    }
  }

  function EvictMany(s: System, n: nat): System
    requires n <= |s.shared.completed|
    decreases n
  {
    if n == 0 then s else EvictMany(EvictOne(s), n - 1)
  }

  lemma {:induction false} EvictManyKeeps(maxRetries: nat, s: System, n: nat) returns (t: System)
    requires Inv(maxRetries, s) && n <= |s.shared.completed|
    ensures Inv(maxRetries, t) && t == EvictMany(s, n)
    decreases n
  {
    t := s;
    if n > 0 {
      t := EvictOneKeeps(maxRetries, s);
      t := EvictManyKeeps(maxRetries, t, n - 1);
    }
  }

  lemma {:induction false} EvictManyShape(s: System, n: nat)
    requires n <= |s.shared.completed|
    ensures DropMany(s.shared, n).completed == s.shared.completed[n..]
    ensures EvictMany(s, n) == s.(shared := DropMany(s.shared, n),
                                  log := s.log + Evictions(s.shared.completed, s.shared.completed[n..]))
    decreases n
  {
    var c := s.shared.completed;
    if n == 0 {
      assert s.log + Evictions(c, c[0..]) == s.log;
    } else {
      EvictManyShape(EvictOne(s), n - 1);
      assert c[1..][n - 1..] == c[n..];
      assert EvictOne(s).log + Evictions(c[1..], c[n..]) == s.log + Evictions(c, c[n..]);
    }
  }

  // ---- every step keeps the invariant ----------------------------------------------------------

  /** prune inside enqueue, as a step of its own. */
  lemma PruneKeeps(maxRetries: nat, s: System, now: int) returns (t: System)
    requires Inv(maxRetries, s)
    ensures Inv(maxRetries, t)
    ensures |Pruned(s.shared, now).completed| <= |s.shared.completed|
    ensures t == s.(shared := Pruned(s.shared, now),
                    log := s.log + Evictions(s.shared.completed, Pruned(s.shared, now).completed))
  {
    PrunedDrops(s.shared, now);
    PrunedIsSuffix(s.shared, now);
    var n := |s.shared.completed| - |Pruned(s.shared, now).completed|;
    EvictManyShape(s, n);
    t := EvictManyKeeps(maxRetries, s, n);
  }

  /** The eviction inside finish, as a step of its own. */
  lemma TrimKeeps(maxRetries: nat, s: System) returns (t: System)
    requires Inv(maxRetries, s)
    ensures Inv(maxRetries, t)
    ensures |Trimmed(s.shared).completed| <= |s.shared.completed|
    ensures t == s.(shared := Trimmed(s.shared),
                    log := s.log + Evictions(s.shared.completed, Trimmed(s.shared).completed))
    ensures |t.shared.completed| < COMPLETED_CAPACITY
  {
    TrimmedDrops(s.shared);
    TrimmedIsSuffix(s.shared);
    var n := |s.shared.completed| - |Trimmed(s.shared).completed|;
    EvictManyShape(s, n);
    t := EvictManyKeeps(maxRetries, s, n);
  }

  lemma SamePlaces(s: System, t: System)
    requires PlacedOnce(s) && t.shared.records.Keys == s.shared.records.Keys
    requires forall id :: Occurrences(t, id) == Occurrences(s, id)
    ensures PlacedOnce(t)
  {
    forall id
      ensures PlacedAt(t, id)
    {
      assert PlacedAt(s, id);
    }
  }

  lemma ClockKeeps(maxRetries: nat, s: System, now: int) returns (t: System)
    requires Inv(maxRetries, s) && now >= s.clock
    ensures t == s.(clock := now) && Inv(maxRetries, t)
  {
    t := s.(clock := now);
    SamePlaces(s, t);
  }

  lemma AcceptPlaces(s: System, e: Event, t: System)
    requires PlacedOnce(s) && e.id !in s.shared.records
    requires t.first == s.first && t.second == s.second && t.shared.completed == s.shared.completed
    requires t.shared.queue == s.shared.queue + [e] && t.shared.records.Keys == s.shared.records.Keys + {e.id}
    ensures PlacedOnce(t)
  {
    assert QueueIds(t.shared.queue) == QueueIds(s.shared.queue) + [e.id];
    forall x
      ensures PlacedAt(t, x)
    {
      assert PlacedAt(s, x);
    }
  }

  lemma AcceptKeeps(maxRetries: nat, s: System, e: Event) returns (t: System)
    requires Inv(maxRetries, s) && e.id !in s.shared.records && |s.shared.queue| < QUEUE_CAPACITY
    ensures Inv(maxRetries, t)
    ensures t == s.(shared := s.shared.(queue := s.shared.queue + [e],
                                        records := s.shared.records[e.id := StatePending]),
                    accepted := s.accepted + 1, log := s.log + [Accept(e.id)])
  {
    t := s.(shared := s.shared.(queue := s.shared.queue + [e], records := s.shared.records[e.id := StatePending]),
            accepted := s.accepted + 1, log := s.log + [Accept(e.id)]);
    AcceptPlaces(s, e, t);
    AcceptLabels(maxRetries, s, e, t.shared.records);
    LogAppend(s.log, s.shared.records, Accept(e.id), t.shared.records);
  }

  lemma UnrecordedIsNowhere(s: System, id: Name)
    requires PlacedOnce(s) && id !in s.shared.records
    ensures id !in Claims(s.first) && id !in Claims(s.second)
  {
    assert PlacedAt(s, id);
    assert multiset(Claims(s.first))[id] == 0 && multiset(Claims(s.second))[id] == 0;
  }

  lemma AcceptLabels(maxRetries: nat, s: System, e: Event, records': map<Name, DeliveryState>)
    requires Inv(maxRetries, s) && e.id !in s.shared.records && |s.shared.queue| < QUEUE_CAPACITY
    requires records' == s.shared.records[e.id := StatePending]
    ensures QueueOk(records', s.shared.queue + [e])
    ensures CompletedOk(records', s.shared.completed, s.clock)
    ensures WorkerOk(maxRetries, records', s.cancelled, s.first)
    ensures WorkerOk(maxRetries, records', s.cancelled, s.second)
  {
    UnrecordedIsNowhere(s, e.id);
    ListsAfterAccept(s.shared, e, s.clock);
    assert records' - {e.id} == s.shared.records - {e.id};
    WorkerOkFrame(maxRetries, s.shared.records, records', s.cancelled, s.first, e.id);
    WorkerOkFrame(maxRetries, s.shared.records, records', s.cancelled, s.second, e.id);
  }

  lemma ListsAfterAccept(d: Shared, e: Event, clock: int)
    requires QueueOk(d.records, d.queue) && CompletedOk(d.records, d.completed, clock)
    requires e.id !in d.records && |d.queue| < QUEUE_CAPACITY
    ensures QueueOk(d.records[e.id := StatePending], d.queue + [e])
    ensures CompletedOk(d.records[e.id := StatePending], d.completed, clock)
  {
    assert forall i :: 0 <= i < |d.queue| ==> RecordIs(d.records, d.queue[i].id, StatePending);
    assert forall i :: 0 <= i < |d.completed| ==> RecordClosed(d.records, d.completed[i].id);
  }

  lemma ProduceKeeps(maxRetries: nat, s: System, e: Event, now: int) returns (t: System)
    requires Inv(maxRetries, s) && now >= s.clock
    ensures Inv(maxRetries, t) && t == Apply(maxRetries, s, Produce(e, now))
  {
    t := ClockKeeps(maxRetries, s, now);
    if s.shared.stopped {
      assert t.log + Evictions(s.shared.completed, s.shared.completed) + [] == t.log;
    } else {
      t := PruneKeeps(maxRetries, t, now);
      PrunedIsSuffix(s.shared, now);
      if Accepts(s.shared, e, now) {
        t := AcceptKeeps(maxRetries, t, e);
      } else {
        assert t.log + [] == t.log;
      }
    }
  }

  lemma TakePlaces(s: System, w: Worker, t: System)
    requires PlacedOnce(s) && s.shared.queue != [] && Claims(w) == Claims(s.first) + [s.shared.queue[0].id]
    requires t == s.(shared := s.shared.(queue := s.shared.queue[1..]), first := w)
    ensures PlacedOnce(t)
  {
    var q := s.shared.queue;
    assert QueueIds(q) == [q[0].id] + QueueIds(q[1..]);
    forall x
      ensures PlacedAt(t, x)
    {
      assert PlacedAt(s, x);
    }
  }

  lemma TakeKeeps(maxRetries: nat, s: System) returns (t: System)
    requires Inv(maxRetries, s) && Enabled(maxRetries, s, Take(false))
    ensures Inv(maxRetries, t) && t == Apply(maxRetries, s, Take(false))
  {
    var q := s.shared.queue;
    var w := s.first.(activity := Taken(q[0]));
    assert RecordIs(s.shared.records, q[0].id, StatePending);
    assert Claims(w) == Claims(s.first) + [q[0].id];
    t := s.(shared := s.shared.(queue := q[1..]), first := w);
    TakePlaces(s, w, t);
    assert QueueOk(t.shared.records, t.shared.queue) by {
      assert forall i :: 0 <= i < |q| ==> RecordIs(s.shared.records, q[i].id, StatePending);
    }
  }

  /** Steps after which the first worker claims the same ids. */
  lemma WorkerKeeps(maxRetries: nat, s: System, w: Worker) returns (t: System)
    requires Inv(maxRetries, s) && Claims(w) == Claims(s.first)
    requires WorkerOk(maxRetries, s.shared.records, s.cancelled, w)
    ensures t == s.(first := w) && Inv(maxRetries, t)
  {
    t := s.(first := w);
    SamePlaces(s, t);
  }

  lemma CheckKeeps(maxRetries: nat, s: System) returns (t: System)
    requires Inv(maxRetries, s) && Enabled(maxRetries, s, Check(false))
    ensures Inv(maxRetries, t) && t == Apply(maxRetries, s, Check(false))
  {
    var e := s.first.activity.event;
    var w := if s.cancelled then Worker(Exited, s.first.dropped + [e.id]) else s.first.(activity := Checked(e));
    assert Claims(w) == Claims(s.first);
    t := WorkerKeeps(maxRetries, s, w);
  }

  lemma TryKeeps(maxRetries: nat, s: System, result: AttemptResult) returns (t: System)
    requires Inv(maxRetries, s) && Enabled(maxRetries, s, Try(false, result))
    ensures Inv(maxRetries, t) && t == Apply(maxRetries, s, Try(false, result))
  {
    var a := s.first.activity;
    var w := s.first.(activity := AfterAttempt(maxRetries, a.event, a.attempt, result));
    assert Claims(w) == Claims(s.first);
    t := WorkerKeeps(maxRetries, s, w);
  }

  lemma RejectKeeps(maxRetries: nat, s: System) returns (t: System)
    requires Inv(maxRetries, s) && Enabled(maxRetries, s, RejectEncoding(false))
    ensures Inv(maxRetries, t) && t == Apply(maxRetries, s, RejectEncoding(false))
  {
    var w := s.first.(activity := Ended(s.first.activity.event, Rejected));
    assert Claims(w) == Claims(s.first);
    t := WorkerKeeps(maxRetries, s, w);
  }

  lemma GiveUpKeeps(maxRetries: nat, s: System) returns (t: System)
    requires Inv(maxRetries, s) && Enabled(maxRetries, s, GiveUp(false))
    ensures Inv(maxRetries, t) && t == Apply(maxRetries, s, GiveUp(false))
  {
    var w := Worker(Waiting, s.first.dropped + [s.first.activity.event.id]);
    assert Claims(w) == Claims(s.first);
    t := WorkerKeeps(maxRetries, s, w);
  }

  lemma LeaveKeeps(maxRetries: nat, s: System) returns (t: System)
    requires Inv(maxRetries, s) && Enabled(maxRetries, s, Leave(false))
    ensures Inv(maxRetries, t) && t == Apply(maxRetries, s, Leave(false))
  {
    t := WorkerKeeps(maxRetries, s, s.first.(activity := Exited));
  }

  /** An id held by the first worker is nowhere else, so its record can change freely. */
  lemma HeldIsAlone(s: System)
    requires PlacedOnce(s) && Holds(s.first.activity)
    ensures var id := s.first.activity.event.id;
            && id in s.shared.records && id !in s.first.dropped && id !in Claims(s.second)
            && (forall i :: 0 <= i < |s.shared.queue| ==> s.shared.queue[i].id != id)
            && (forall i :: 0 <= i < |s.shared.completed| ==> s.shared.completed[i].id != id)
  {
    var id := s.first.activity.event.id;
    assert PlacedAt(s, id);
    assert Claims(s.first) == s.first.dropped + [id];
    forall i | 0 <= i < |s.shared.queue|
      ensures s.shared.queue[i].id != id
    {
      assert QueueIds(s.shared.queue)[i] in multiset(QueueIds(s.shared.queue));
    }
    forall i | 0 <= i < |s.shared.completed|
      ensures s.shared.completed[i].id != id
    {
      assert CompletedIds(s.shared.completed)[i] in multiset(CompletedIds(s.shared.completed));
    }
  }

  /** Rewriting the record of the held id leaves the queue, the completed list and the other worker alone. */
  lemma RewriteKeeps(maxRetries: nat, s: System, state: DeliveryState, records': map<Name, DeliveryState>)
    requires Inv(maxRetries, s) && Holds(s.first.activity)
    requires records' == s.shared.records[s.first.activity.event.id := state]
    ensures records'.Keys == s.shared.records.Keys
    ensures QueueOk(records', s.shared.queue)
    ensures CompletedOk(records', s.shared.completed, s.clock)
    ensures WorkerOk(maxRetries, records', s.cancelled, s.second)
    ensures LogOk(s.log, records')
  {
    var r := s.shared.records;
    HeldIsAlone(s);
    assert records' - {s.first.activity.event.id} == r - {s.first.activity.event.id};
    WorkerOkFrame(maxRetries, r, records', s.cancelled, s.second, s.first.activity.event.id);
    assert forall i :: 0 <= i < |s.shared.queue| ==> RecordIs(r, s.shared.queue[i].id, StatePending);
    assert forall i :: 0 <= i < |s.shared.completed| ==> RecordClosed(r, s.shared.completed[i].id);
    LogSameKeys(s.log, r, records');
  }

  lemma MarkKeeps(maxRetries: nat, s: System) returns (t: System)
    requires Inv(maxRetries, s) && Enabled(maxRetries, s, Mark(false))
    ensures Inv(maxRetries, t) && t == Apply(maxRetries, s, Mark(false))
  {
    t := Apply(maxRetries, s, Mark(false));
    RewriteKeeps(maxRetries, s, StateSending, t.shared.records);
    assert Claims(t.first) == Claims(s.first);
    SamePlaces(s, t);
  }

  lemma CloseKeeps(maxRetries: nat, s: System) returns (t: System)
    requires Inv(maxRetries, s) && s.first.activity.Ended? && |s.shared.completed| < COMPLETED_CAPACITY
    ensures Inv(maxRetries, t)
    ensures var a := s.first.activity;
            t == s.(shared := s.shared.(records := s.shared.records[a.event.id := a.state],
                                        completed := s.shared.completed + [CompletedEvent(a.event.id, s.clock)]),
                    finished := s.finished + 1, first := s.first.(activity := Waiting))
  {
    var a := s.first.activity;
    var id := a.event.id;
    t := s.(shared := s.shared.(records := s.shared.records[id := a.state],
                                completed := s.shared.completed + [CompletedEvent(id, s.clock)]),
            finished := s.finished + 1, first := s.first.(activity := Waiting));
    RewriteKeeps(maxRetries, s, a.state, t.shared.records);
    assert PlacedOnce(t) by {
      assert Claims(s.first) == Claims(t.first) + [id];
      assert CompletedIds(t.shared.completed) == CompletedIds(s.shared.completed) + [id];
      SamePlaces(s, t);
    }
    assert CompletedOk(t.shared.records, t.shared.completed, t.clock) by {
      assert forall i :: 0 <= i < |s.shared.completed| ==> RecordClosed(t.shared.records, s.shared.completed[i].id);
    }
  }

  lemma CompleteKeeps(maxRetries: nat, s: System, now: int) returns (t: System)
    requires Inv(maxRetries, s) && Enabled(maxRetries, s, Complete(false, now))
    ensures Inv(maxRetries, t) && t == Apply(maxRetries, s, Complete(false, now))
  {
    t := ClockKeeps(maxRetries, s, now);
    t := TrimKeeps(maxRetries, t);
    t := CloseKeeps(maxRetries, t);
  }

  lemma FirstKeeps(maxRetries: nat, s: System, action: Action) returns (t: System)
    requires Inv(maxRetries, s) && Enabled(maxRetries, s, action) && !BySecond(action)
    ensures Inv(maxRetries, t) && t == Apply(maxRetries, s, action)
  {
    match action
    case Produce(e, now) => t := ProduceKeeps(maxRetries, s, e, now);
    case Take(_) => t := TakeKeeps(maxRetries, s);
    case Check(_) => t := CheckKeeps(maxRetries, s);
    case Mark(_) => t := MarkKeeps(maxRetries, s);
    case RejectEncoding(_) => t := RejectKeeps(maxRetries, s);
    case Try(_, result) => t := TryKeeps(maxRetries, s, result);
    case GiveUp(_) => t := GiveUpKeeps(maxRetries, s);
    case Complete(_, now) => t := CompleteKeeps(maxRetries, s, now);
    case Leave(_) => t := LeaveKeeps(maxRetries, s);
    case Cancel => t := FlagKeeps(maxRetries, s, true, s.shared.stopped);
    case Stop => t := FlagKeeps(maxRetries, s, s.cancelled, true);
  }

  lemma FlagKeeps(maxRetries: nat, s: System, cancelled: bool, stopped: bool) returns (t: System)
    requires Inv(maxRetries, s) && (s.cancelled ==> cancelled)
    ensures t == s.(cancelled := cancelled, shared := s.shared.(stopped := stopped)) && Inv(maxRetries, t)
  {
    t := s.(cancelled := cancelled, shared := s.shared.(stopped := stopped));
    SamePlaces(s, t);
  }

  /** Every step of every participant keeps the invariant. */
  lemma StepKeeps(maxRetries: nat, s: System, action: Action) returns (t: System)
    requires Inv(maxRetries, s) && Enabled(maxRetries, s, action)
    ensures Inv(maxRetries, t) && t == Apply(maxRetries, s, action)
  {
    if BySecond(action) {
      SwapInv(maxRetries, s);
      SwapApply(maxRetries, s, action);
      t := FirstKeeps(maxRetries, Swap(s), ForFirst(action));
      SwapInv(maxRetries, t);
      t := Swap(t);
    } else {
      t := FirstKeeps(maxRetries, s, action);
    }
  }
}
