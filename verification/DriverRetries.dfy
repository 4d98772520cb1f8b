/**
 driver-service's Kafka consumer: skip what cannot be parsed, retry what threw, commit what returned.
 Retrying brings the driver table to where one clean attempt would have brought it.
 */
module DriverRetries {
  import opened Wrappers
  import opened GeoPool
  import opened Drivers
  import opened FailingHandlers

  datatype Topic = UserPhotoUpdated | DriverAssignedTopic | RideCompletedTopic | RideStatusUpdated

  /** `Null` is the JSON text `null`: it parses, and every handler throws when it reads a field of it. */
  datatype Payload =
    | Malformed
    | Null
    | PhotoPayload(photo: PhotoEvent)
    | AssignedPayload(assignment: Assigned)
    | RidePayload(ride: Finished)

  /** A topic carries its own kind of payload, or null, or something that is not JSON. */
  predicate Fits(topic: Topic, payload: Payload) {
    match payload
    case Malformed => true
    case Null => true
    case PhotoPayload(_) => topic == UserPhotoUpdated
    case AssignedPayload(_) => topic == DriverAssignedTopic
    case RidePayload(_) => topic == RideCompletedTopic || topic == RideStatusUpdated
  }

  /** What the handler registered for the topic decides to do. */
  ghost function MessagePlan(s: DriverState, topic: Topic, payload: Payload): Plan {
    match payload
    case Malformed => Plan(Ignored, [])
    case Null => Plan(ServerError, [])
    case PhotoPayload(e) => PlanPhoto(s, e)
    case AssignedPayload(e) => PlanAssigned(s, e)
    case RidePayload(e) =>
      if topic == RideStatusUpdated && e.status != Cancelled then Plan(Ignored, []) else PlanFinished(s, e)
  }

  /** Deliveries of one message until one is committed, the k-th failing after `budgets[k]` writes; and
      whether one was. */
  ghost function Retry(s: DriverState, topic: Topic, payload: Payload, budgets: seq<nat>): (DriverState, bool)
    decreases |budgets|
  {
    if budgets == [] then (s, false)
    else
      var plan := MessagePlan(s, topic, payload);
      var next := Attempt(s, plan, budgets[0]);
      if ReplyOf(plan, budgets[0]) != ServerError then (next, true) else Retry(next, topic, payload, budgets[1..])
  }

  /** No handler makes more than four writes, and only null makes one fail by itself. */
  lemma PlansAreShort(s: DriverState, topic: Topic, payload: Payload)
    ensures |MessagePlan(s, topic, payload).writes| <= 4
    ensures MessagePlan(s, topic, payload).reply == ServerError <==> payload.Null?
  {
  }

  lemma PhotoConverges(s: DriverState, e: PhotoEvent, budget: nat)
    requires UniqueUsers(s.rows) && e.role == DriverRole && DriverOfUser(s.rows, e.user).Some?
    ensures var stopped := Attempt(s, PlanPhoto(s, e), budget);
            && UniqueUsers(stopped.rows)
            && Attempt(stopped, PlanPhoto(stopped, e), 4).rows == Attempt(s, PlanPhoto(s, e), 4).rows
  {
    var stopped := Attempt(s, PlanPhoto(s, e), budget);
    var d := DriverOfUser(s.rows, e.user).value;
    PhotoAttempt(s, e, budget);
    PhotoAttempt(s, e, 4);
    assert stopped.rows[d].userId == e.user;
    assert DriverOfUser(stopped.rows, e.user) == Some(d);
    PhotoAttempt(stopped, e, 4);
  }

  lemma AssignedConverges(s: DriverState, e: Assigned, budget: nat)
    requires UniqueUsers(s.rows) && e.driver in s.rows && s.rows[e.driver].status != Busy
    ensures var stopped := Attempt(s, PlanAssigned(s, e), budget);
            && UniqueUsers(stopped.rows)
            && Attempt(stopped, PlanAssigned(stopped, e), 4).rows == Attempt(s, PlanAssigned(s, e), 4).rows
  {
    StatusAttempt(s, e.driver, Busy, Some(RideAssigned), Some(e.ride), budget);
    StatusAttempt(s, e.driver, Busy, Some(RideAssigned), Some(e.ride), 4);
    var stopped := Attempt(s, PlanAssigned(s, e), budget);
    StatusAttempt(stopped, e.driver, Busy, Some(RideAssigned), Some(e.ride), 4);
  }

  lemma FinishedConverges(s: DriverState, e: Finished, budget: nat)
    requires UniqueUsers(s.rows) && e.driver.Some? && e.driver.value in s.rows && s.rows[e.driver.value].status == Busy
    ensures var stopped := Attempt(s, PlanFinished(s, e), budget);
            && UniqueUsers(stopped.rows)
            && Attempt(stopped, PlanFinished(stopped, e), 4).rows == Attempt(s, PlanFinished(s, e), 4).rows
  {
    var d := e.driver.value;
    var next := if s.rows[d].hasPhoto then Available else Offline;
    var reason := if e.status == Cancelled then RideCancelled else RideCompleted;
    StatusAttempt(s, d, next, Some(reason), Some(e.ride), budget);
    StatusAttempt(s, d, next, Some(reason), Some(e.ride), 4);
    var stopped := Attempt(s, PlanFinished(s, e), budget);
    StatusAttempt(stopped, d, next, Some(reason), Some(e.ride), 4);
  }

  /** An attempt, wherever it stops, leaves the next clean attempt to end with the same table. */
  lemma AttemptsConverge(s: DriverState, topic: Topic, payload: Payload, budget: nat)
    requires UniqueUsers(s.rows)
    ensures var stopped := Attempt(s, MessagePlan(s, topic, payload), budget);
            && UniqueUsers(stopped.rows)
            && Attempt(stopped, MessagePlan(stopped, topic, payload), 4).rows
                 == Attempt(s, MessagePlan(s, topic, payload), 4).rows
  {
    if MessagePlan(s, topic, payload).writes == [] {
      assert Attempt(s, MessagePlan(s, topic, payload), budget) == s;
    } else {
      match payload
      case PhotoPayload(e) => PhotoConverges(s, e, budget);
      case AssignedPayload(e) => AssignedConverges(s, e, budget);
      case RidePayload(e) => FinishedConverges(s, e, budget);
    }
  }

  /** A schedule with one attempt that may make all its writes commits the message unless it is null, which is
      retried for ever; and the driver table ends as if the first attempt had got through. (The pool and the
      topic need not: see RetryReturnsEarly.) */
  lemma {:induction false} RetriesReachTheTable(s: DriverState, topic: Topic, payload: Payload, budgets: seq<nat>)
    requires UniqueUsers(s.rows) && Fits(topic, payload)
    requires exists i | 0 <= i < |budgets| :: budgets[i] >= 4
    ensures Retry(s, topic, payload, budgets).1 <==> !payload.Null?
    ensures Retry(s, topic, payload, budgets).0.rows == Attempt(s, MessagePlan(s, topic, payload), 4).rows
    decreases |budgets|
  {
    var plan := MessagePlan(s, topic, payload);
    PlansAreShort(s, topic, payload);
    if payload.Null? {
      NullIsRetriedForEver(s, topic, budgets);
    } else if ReplyOf(plan, budgets[0]) == ServerError {
      var i :| 0 <= i < |budgets| && budgets[i] >= 4;
      assert i > 0 && budgets[1..][i - 1] >= 4;
      AttemptsConverge(s, topic, payload, budgets[0]);
      RetriesReachTheTable(Attempt(s, plan, budgets[0]), topic, payload, budgets[1..]);
    }
  }

  /** A null message blocks its partition: no schedule commits it, and nothing is written. */
  lemma {:induction false} NullIsRetriedForEver(s: DriverState, topic: Topic, budgets: seq<nat>)
    ensures Retry(s, topic, Null, budgets) == (s, false)
    decreases |budgets|
  {
    if budgets != [] {
      NullIsRetriedForEver(s, topic, budgets[1..]);
    }
  }
}
