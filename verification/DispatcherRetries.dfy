/** The retry law of the delivery loop, in every run of the dispatcher and for the loop itself. */
module DispatcherRetries {
  import opened Names
  import opened Dispatcher
  import opened DispatcherRuns
  import opened DispatcherTheorems

  datatype Sent = Sent(event: Event, result: AttemptResult)

  function EventOf(a: Activity): Event {
    if Holds(a) then a.event else Event(Name(""), "")
  }

  /** What a worker has sent since it last marked an event. */
  ghost function Sends(states: seq<System>, actions: seq<Action>, i: nat, second: bool): seq<Sent>
    requires i <= |actions| < |states|
  {
    if i == 0 then []
    else
      var before := Sends(states, actions, i - 1, second);
      match actions[i - 1]
      case Mark(worker) => if worker == second then [] else before
      case Try(worker, result) =>
        if worker == second then before + [Sent(EventOf(WorkerAt(states[i - 1], second).activity), result)] else before
      case _ => before
  }

  /** Every send failed and may be repeated. */
  predicate AllRetryable(sends: seq<Sent>) {
    forall i :: 0 <= i < |sends| ==> !sends[i].result.delivered && sends[i].result.retry
  }

  predicate EndsDelivered(sends: seq<Sent>) {
    sends != [] && AllRetryable(sends[..|sends| - 1]) && sends[|sends| - 1].result.delivered
  }

  predicate EndsRejected(sends: seq<Sent>) {
    && sends != [] && AllRetryable(sends[..|sends| - 1])
    && !sends[|sends| - 1].result.delivered && !sends[|sends| - 1].result.retry
  }

  /** At most maxRetries + 1 sends of one unchanged event, and each ending exactly for its reason; a rejection without
      any send is an event that could not be encoded. */
  ghost predicate Obeys(maxRetries: nat, sends: seq<Sent>, a: Activity) {
    && |sends| <= maxRetries + 1
    && (forall i :: 0 <= i < |sends| ==> sends[i].event == EventOf(a))
    && match a
       case Sending(_, attempt) => attempt == |sends| <= maxRetries && AllRetryable(sends)
       case Ended(_, state) =>
         && (state.Exhausted? <==> |sends| == maxRetries + 1 && AllRetryable(sends))
         && (state.Rejected? <==> sends == [] || EndsRejected(sends))
         && (state.Delivered? <==> EndsDelivered(sends))
         && IsCompleted(state)
       case _ => true
  }

  lemma TryObeys(maxRetries: nat, sends: seq<Sent>, e: Event, attempt: nat, result: AttemptResult)
    requires Obeys(maxRetries, sends, Sending(e, attempt))
    ensures Obeys(maxRetries, sends + [Sent(e, result)], AfterAttempt(maxRetries, e, attempt, result))
  {
    var more := sends + [Sent(e, result)];
    assert more[..|more| - 1] == sends && more[|sends|].result == result;
    assert AllRetryable(more) <==> !result.delivered && result.retry;
  }

  ghost predicate Busy(a: Activity) {
    a.Sending? || a.Ended?
  }

  /** In every run each worker obeys the retry law at every step. */
  lemma {:induction false} RetryLaw(maxRetries: nat, states: seq<System>, actions: seq<Action>, i: nat, second: bool)
    requires Run(maxRetries, states, actions) && i < |states| && Busy(WorkerAt(states[i], second).activity)
    ensures Obeys(maxRetries, Sends(states, actions, i, second), WorkerAt(states[i], second).activity)
  {
    if i > 0 {
      assert StepAt(maxRetries, states, actions, i - 1);
      var a := WorkerAt(states[i - 1], second).activity;
      if Busy(a) {
        RetryLaw(maxRetries, states, actions, i - 1, second);
        if a.Sending? && actions[i - 1].Try? && actions[i - 1].second == second {
          TryObeys(maxRetries, Sends(states, actions, i - 1, second), a.event, a.attempt, actions[i - 1].result);
        }
      }
    }
  }

  // ---- the same law holds of the loop --------------------------------------------------------------

  /** The undisturbed attempts with these results. */
  function Attempts(sends: seq<Sent>): nat -> Attempt {
    (k: nat) => Attempt(false, if k < |sends| then sends[k].result else AttemptResult(false, false), false, true)
  }

  /** A run ends an event that was sent exactly as the loop does on the same results. */
  lemma SameLaw(maxRetries: nat, e: Event, sends: seq<Sent>, state: DeliveryState)
    requires sends != [] && forall i :: 0 <= i < |sends| ==> sends[i].event == e
    ensures Obeys(maxRetries, sends, Ended(e, state)) <==>
              Returns(Attempts(sends), maxRetries, |sends| - 1, state)
  {
    var k := |sends| - 1;
    var attempts := Attempts(sends);
    assert Retried(attempts, k) <==> AllRetryable(sends[..k]) by {
      assert forall j: nat :: j < k ==> attempts(j).result == sends[..k][j].result;
    }
    assert attempts(k).result == sends[k].result;
    assert AllRetryable(sends) <==> AllRetryable(sends[..k]) && !sends[k].result.delivered && sends[k].result.retry;
  }

  /** Whatever a worker of a run reports about an event it sent is what Deliver returns for the results it saw. */
  lemma RunEndsAsLoop(maxRetries: nat, states: seq<System>, actions: seq<Action>, i: nat, second: bool)
    requires Run(maxRetries, states, actions) && i < |states| && WorkerAt(states[i], second).activity.Ended?
    ensures var sends := Sends(states, actions, i, second);
            var state := WorkerAt(states[i], second).activity.state;
            if sends == [] then state.Rejected? else Returns(Attempts(sends), maxRetries, |sends| - 1, state)
  {
    var a := WorkerAt(states[i], second).activity;
    var sends := Sends(states, actions, i, second);
    RetryLaw(maxRetries, states, actions, i, second);
    if sends != [] {
      SameLaw(maxRetries, a.event, sends, a.state);
    }
  }
}
