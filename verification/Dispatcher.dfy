/** The notification dispatcher (internal/notification/dispatcher.go): its guarded state and delivery loop. */
module Dispatcher {
  import opened Names
  import Dag

  const QUEUE_CAPACITY := 128
  const COMPLETED_CAPACITY := 4096
  /** 24 hours, in seconds. */
  const COMPLETED_TTL := 86400

  datatype DeliveryState = StatePending | StateSending | Delivered | Rejected | Exhausted

  predicate IsCompleted(s: DeliveryState) {
    s.Delivered? || s.Rejected? || s.Exhausted?
  }

  datatype Event = Event(id: Name, body: string)

  datatype CompletedEvent = CompletedEvent(id: Name, at: int)

  /** What the mutex and the channel guard. */
  datatype Shared = Shared(
    queue: seq<Event>, records: map<Name, DeliveryState>, completed: seq<CompletedEvent>, stopped: bool)

  predicate Expired(c: CompletedEvent, now: int) {
    now - c.at >= COMPLETED_TTL
  }

  /** Drop the oldest completed event together with its record. */
  function DropFront(d: Shared): Shared
    requires d.completed != []
  {
    d.(records := d.records - {d.completed[0].id}, completed := d.completed[1..])
  }

  /** The front scan of prune. */
  function Pruned(d: Shared, now: int): Shared
    decreases |d.completed|
  {
    if d.completed != [] && Expired(d.completed[0], now) then Pruned(DropFront(d), now) else d
  }

  /** The eviction of finish. */
  function Trimmed(d: Shared): Shared
    decreases |d.completed|
  {
    if |d.completed| >= COMPLETED_CAPACITY then Trimmed(DropFront(d)) else d
  }

  function Finished(d: Shared, id: Name, state: DeliveryState, now: int): Shared {
    var t := Trimmed(d);
    t.(records := t.records[id := state], completed := t.completed + [CompletedEvent(id, now)])
  }

  predicate Accepts(d: Shared, e: Event, now: int) {
    !d.stopped && e.id !in Pruned(d, now).records && |Pruned(d, now).queue| < QUEUE_CAPACITY
  }

  function Enqueued(d: Shared, e: Event, now: int): Shared {
    if d.stopped then d
    else
      var p := Pruned(d, now);
      if Accepts(d, e, now) then p.(queue := p.queue + [e], records := p.records[e.id := StatePending]) else p
  }

  class DispatcherObject {
    var queue: seq<Event>
    var records: map<Name, DeliveryState>
    var completed: seq<CompletedEvent>
    var stopped: bool

    constructor ()
      ensures View() == Shared([], map[], [], false)
    {
      queue, records, completed, stopped := [], map[], [], false;
    }

    function View(): Shared
      reads this
    {
      Shared(queue, records, completed, stopped)
    }

    method Prune(now: int)
      modifies this`records, this`completed
      ensures View() == Pruned(old(View()), now)
    {
      while completed != [] && now - completed[0].at >= COMPLETED_TTL
        invariant Pruned(View(), now) == Pruned(old(View()), now)
        decreases |completed|
      {
        records, completed := records - {completed[0].id}, completed[1..];
      }
    }

    /** Reserve the id and publish the event, without ever waiting. */
    method Enqueue(e: Event, now: int) returns (accepted: bool)
      modifies this
      ensures View() == Enqueued(old(View()), e, now)
      ensures accepted == Accepts(old(View()), e, now)
    {
      if stopped {
        return false;
      }
      Prune(now);
      if e.id in records {
        return false;
      }
      if |queue| < QUEUE_CAPACITY {
        queue, records := queue + [e], records[e.id := StatePending];
        return true;
      }
      return false;
    }

    method Finish(id: Name, state: DeliveryState, now: int)
      modifies this`records, this`completed
      ensures View() == Finished(old(View()), id, state, now)
    {
      while |completed| >= COMPLETED_CAPACITY
        invariant Trimmed(View()) == Trimmed(old(View()))
        decreases |completed|
      {
        records, completed := records - {completed[0].id}, completed[1..];
      }
      records, completed := records[id := state], completed + [CompletedEvent(id, now)];
    }
  }

  ghost function Unfinished(records: map<Name, DeliveryState>): set<Name> {
    set id | id in records && !IsCompleted(records[id])
  }

  lemma UncoverOne(records: map<Name, DeliveryState>, rest: set<Name>, id: Name)
    requires id in rest && id in records
    ensures |Unfinished(records) - (rest - {id})| ==
            |Unfinished(records) - rest| + if IsCompleted(records[id]) then 0 else 1
  {
    var before, after := Unfinished(records) - rest, Unfinished(records) - (rest - {id});
    if IsCompleted(records[id]) {
      assert after == before;
    } else {
      assert after == before + {id};
    }
  }

  /** The number logged when the dispatcher stops. */
  method CountUnfinished(records: map<Name, DeliveryState>) returns (unfinished: nat)
    ensures unfinished == |Unfinished(records)|
  {
    unfinished := 0;
    var rest := records.Keys;
    assert Unfinished(records) - rest == {};
    while rest != {}
      invariant rest <= records.Keys
      invariant unfinished == |Unfinished(records) - rest|
      decreases |rest|
    {
      var id :| id in rest;
      UncoverOne(records, rest, id);
      if records[id].StatePending? || records[id].StateSending? {
        unfinished := unfinished + 1;
      }
      rest := rest - {id};
    }
    assert Unfinished(records) - {} == Unfinished(records);
  }

  // ---- the delivery loop --------------------------------------------------------------------

  datatype AttemptResult = AttemptResult(delivered: bool, retry: bool)

  /** What happens around attempt k: cancellation before or after the send, its result, and the wait. */
  datatype Attempt = Attempt(cancelledBefore: bool, result: AttemptResult, cancelledAfter: bool, waited: bool)

  predicate Clean(a: Attempt) {
    !a.cancelledBefore && !a.cancelledAfter
  }

  /** The first k attempts were all made, failed retryably and were followed by a full wait. */
  ghost predicate Retried(attempts: nat -> Attempt, k: nat) {
    forall j: nat :: j < k ==>
      Clean(attempts(j)) && !attempts(j).result.delivered && attempts(j).result.retry && attempts(j).waited
  }

  /** Attempt k is reached, is not cancelled, and returns this result. */
  ghost predicate Reports(attempts: nat -> Attempt, k: nat, delivered: bool, retry: bool) {
    Retried(attempts, k) && Clean(attempts(k)) && attempts(k).result == AttemptResult(delivered, retry)
  }

  /** Attempt k is the last one and gives the event this final state. */
  ghost predicate Returns(attempts: nat -> Attempt, maxRetries: nat, k: nat, state: DeliveryState) {
    && k <= maxRetries
    && match state
       case Exhausted => k == maxRetries && Reports(attempts, k, false, true)
       case Rejected => Reports(attempts, k, false, false)
       case Delivered => Reports(attempts, k, true, attempts(k).result.retry)
       case _ => false
  }

  function Pow2(n: nat): nat {
    if n == 0 then 1 else 2 * Pow2(n - 1)
  }

  /** Two's complement reading of a 64-bit word. */
  function Wrap64(x: int): int {
    var r := x % 0x1_0000_0000_0000_0000;
    if r >= 0x8000_0000_0000_0000 then r - 0x1_0000_0000_0000_0000 else r
  }

  const SECOND := 1_000_000_000

  /** time.Second << retry on int64 nanoseconds, capped at 30 seconds. */
  function RetryDelay(retry: nat): int {
    var delay := Wrap64(SECOND * Pow2(retry));
    if delay < 30 * SECOND then delay else 30 * SECOND
  }

  function Backoff(n: nat): int {
    if n == 0 then 0 else Backoff(n - 1) + RetryDelay(n - 1)
  }

  lemma {:induction false} Pow2Monotone(a: nat, b: nat)
    requires a <= b
    ensures Pow2(a) <= Pow2(b)
    decreases b
  {
    if a < b {
      Pow2Monotone(a, b - 1);
    }
  }

  lemma Pow2At33()
    ensures Pow2(33) == 0x2_0000_0000
  {
    assert Pow2(8) == 256;
    assert Pow2(16) == 65536;
    assert Pow2(24) == 0x100_0000;
    assert Pow2(32) == 0x1_0000_0000;
  }

  /** The delay is 2^retry seconds capped at 30, as long as the shift does not overflow. */
  lemma RetryDelayIsCappedPower(retry: nat)
    requires retry <= 33
    ensures RetryDelay(retry) == if Pow2(retry) <= 30 then Pow2(retry) * SECOND else 30 * SECOND
  {
    Pow2Monotone(retry, 33);
    Pow2At33();
  }

  /** With at most five retries, all waits together take at most 31 seconds. */
  lemma BackoffBound(n: nat)
    requires n <= 5
    ensures 0 <= Backoff(n) <= 31 * SECOND
  {
    assert Pow2(0) == 1 && Pow2(1) == 2 && Pow2(2) == 4 && Pow2(3) == 8 && Pow2(4) == 16;
    assert Backoff(1) == 1 * SECOND;
    assert Backoff(2) == 3 * SECOND;
    assert Backoff(3) == 7 * SECOND;
    assert Backoff(4) == 15 * SECOND;
    assert Backoff(5) == 31 * SECOND;
  }

  /** deliver: at most maxRetries + 1 sends of one body, and the exact law of its four endings. */
  method Deliver(e: Event, encodes: bool, attempts: nat -> Attempt, maxRetries: nat)
    returns (state: Dag.Option<DeliveryState>, sent: seq<string>, slept: int)
    ensures |sent| <= maxRetries + 1 && forall b :: b in sent ==> b == e.body
    ensures state == Dag.Some(Exhausted) <==> encodes && Reports(attempts, maxRetries, false, true)
    ensures state == Dag.Some(Rejected) <==>
      !encodes || exists k: nat :: k <= maxRetries && Reports(attempts, k, false, false)
    ensures state == Dag.Some(Delivered) <==>
      encodes && exists k: nat, retry: bool :: k <= maxRetries && Reports(attempts, k, true, retry)
    ensures state.Some? ==> IsCompleted(state.value)
    ensures exists n :: 0 <= n <= maxRetries && slept == Backoff(n)
    ensures encodes && state.Some? ==>
      sent != [] && slept == Backoff(|sent| - 1) && Returns(attempts, maxRetries, |sent| - 1, state.value)
    ensures encodes && state.None? ==> slept == Backoff(|sent|) || (sent != [] && slept == Backoff(|sent| - 1))
    ensures !encodes ==> sent == [] && slept == 0
  {
    sent, slept := [], 0;
    assert slept == Backoff(0);
    if !encodes {
      return Dag.Some(Rejected), sent, slept;
    }
    var attempt := 0;
    while attempt <= maxRetries
      invariant 0 <= attempt <= maxRetries
      invariant Retried(attempts, attempt)
      invariant |sent| == attempt && forall b :: b in sent ==> b == e.body
      invariant slept == Backoff(attempt)
      decreases maxRetries - attempt
    {
      var a := attempts(attempt);
      if a.cancelledBefore {
        EndsHere(attempts, attempt, maxRetries);
        return Dag.None, sent, slept;
      }
      sent := sent + [e.body];
      EndsHere(attempts, attempt, maxRetries);
      if a.cancelledAfter {
        return Dag.None, sent, slept;
      }
      if a.result.delivered {
        assert Reports(attempts, attempt, true, a.result.retry);
        return Dag.Some(Delivered), sent, slept;
      }
      if !a.result.retry || attempt == maxRetries {
        if a.result.retry {
          return Dag.Some(Exhausted), sent, slept;
        }
        assert Reports(attempts, attempt, false, false);
        return Dag.Some(Rejected), sent, slept;
      }
      slept := slept + RetryDelay(attempt);
      assert slept == Backoff(attempt + 1);
      if !a.waited {
        return Dag.None, sent, slept;
      }
      attempt := attempt + 1;
    }
    assert false;
    return Dag.Some(Exhausted), sent, slept;
  }

  /** If attempt k does not lead to another one, no later attempt is ever made. */
  lemma EndsHere(attempts: nat -> Attempt, k: nat, maxRetries: nat)
    requires Retried(attempts, k)
    ensures !Retried(attempts, k + 1) ==> forall m: nat :: m > k ==> !Retried(attempts, m)
    ensures forall m: nat :: m < k ==> Clean(attempts(m)) && !attempts(m).result.delivered && attempts(m).result.retry
  {
    if !Retried(attempts, k + 1) {
      forall m: nat | m > k
        ensures !Retried(attempts, m)
      {
        if Retried(attempts, m) {
          assert Retried(attempts, k + 1);
        }
      }
    }
  }
}
