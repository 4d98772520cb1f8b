/** Which Kafka messages make a driver busy and which free them, from the topic and the payload alone. */
module RideMessages {
  import opened Wrappers
  import opened GeoPool
  import opened Drivers
  import opened Rides
  import opened Dispatch
  import opened FailingHandlers
  import opened DriverRetries
  import opened Exclusion

  /** A ride message that names `d` and says that the ride is over: any `ride.completed`, or a cancellation. */
  predicate EndsRideOf(topic: Topic, payload: Payload, d: DriverId) {
    && payload.RidePayload? && payload.ride.driver == Some(d)
    && (topic == RideCompletedTopic || payload.ride.status == Cancelled)
  }

  predicate AssignsRideTo(payload: Payload, d: DriverId) {
    payload.AssignedPayload? && payload.assignment.driver == d
  }

  /** The news that the user of `d` has no photo any more. */
  predicate TakesPhotoOf(payload: Payload, user: UserId) {
    payload.PhotoPayload? && payload.photo == PhotoEvent(user, DriverRole, false)
  }

  /** The status a driver has after one clean attempt of any message. */
  lemma MessageMoves(s: DriverState, topic: Topic, payload: Payload, d: DriverId)
    requires UniqueUsers(s.rows) && Fits(topic, payload) && d in s.rows
    ensures var before, t := s.rows[d], Attempt(s, MessagePlan(s, topic, payload), 4);
            && d in t.rows
            && t.rows[d].status ==
                 if before.status == Busy then
                   if !EndsRideOf(topic, payload, d) then Busy else if before.hasPhoto then Available else Offline
                 else if AssignsRideTo(payload, d) then Busy
                 else if before.status == Available && TakesPhotoOf(payload, before.userId) then Offline
                 else before.status
  {
    match payload
    case Malformed =>
    case Null =>
    case PhotoPayload(e) =>
      if e.role == DriverRole && DriverOfUser(s.rows, e.user).Some? { PhotoAttempt(s, e, 4); }
    case AssignedPayload(e) =>
      if e.driver in s.rows { StatusAttempt(s, e.driver, Busy, Some(RideAssigned), Some(e.ride), 4); }
    case RidePayload(e) =>
      if e.driver.Some? && e.driver.value in s.rows {
        StatusAttempt(s, e.driver.value, if s.rows[e.driver.value].hasPhoto then Available else Offline,
                      Some(if e.status == Cancelled then RideCancelled else RideCompleted), Some(e.ride), 4);
      }
  }

  /** A message, however often its attempts fail before one gets through, ends BUSY exactly if it ends a ride and
      names the driver, and starts it exactly if it assigns one to them. So `ride.status.updated` frees nobody
      unless it says cancelled. */
  lemma BusyEndsIff(s: DriverState, topic: Topic, payload: Payload, budgets: seq<nat>, d: DriverId)
    requires UniqueUsers(s.rows) && Fits(topic, payload) && d in s.rows
    requires exists i | 0 <= i < |budgets| :: budgets[i] >= 4
    ensures var before, t := s.rows[d].status, Retry(s, topic, payload, budgets).0;
            && d in t.rows
            && (before == Busy ==> (t.rows[d].status != Busy <==> EndsRideOf(topic, payload, d)))
            && (before != Busy ==> (t.rows[d].status == Busy <==> AssignsRideTo(payload, d)))
  {
    RetriesReachTheTable(s, topic, payload, budgets);
    MessageMoves(s, topic, payload, d);
  }

  // ---------------------------------------------------------------------------------------------
  // ride-service's events as driver-service receives them
  // ---------------------------------------------------------------------------------------------

  function TopicOf(e: RideEvent): Topic
    requires !e.RideRequested?
  {
    if e.RideCompletedEvent? then RideCompletedTopic else RideStatusUpdated
  }

  function PayloadOf(e: RideEvent): Payload
    requires !e.RideRequested?
  {
    RidePayload(Finished(e.ride, e.driver, if e.RideCompletedEvent? then Completed else e.status))
  }

  /** A patched ride frees its driver exactly if it is patched to COMPLETED or CANCELLED: the event ride-service
      publishes, handled to the end, takes the driver of the row out of BUSY, and no other. */
  lemma PatchFreesIff(rides: RideState, patch: RideStep, s: DriverState, budgets: seq<nat>, d: DriverId)
    requires patch.PatchRide? && patch.published && patch.id in rides.rides
    requires UniqueUsers(s.rows) && d in s.rows && s.rows[d].status == Busy
    requires exists i | 0 <= i < |budgets| :: budgets[i] >= 4
    ensures var after := ApplyRide(rides, patch);
            && |after.log| == |rides.log| + 1
            && var e := after.log[|rides.log|];
            && !e.RideRequested?
            && var t := Retry(s, TopicOf(e), PayloadOf(e), budgets).0;
            && d in t.rows
            && (t.rows[d].status != Busy <==>
                  && (patch.status == Completed || patch.status == Cancelled)
                  && rides.rides[patch.id].driver == Some(d))
  {
    PatchIsTold(rides, patch.id, patch.status, patch.fare, patch.now, true);
    var e := ApplyRide(rides, patch).log[|rides.log|];
    BusyEndsIff(s, TopicOf(e), PayloadOf(e), budgets, d);
  }

  /** The finish events of the protocol are those the consumer acts on: any other ride event changes nothing. */
  lemma FinishesAreWhatTheConsumerHandles(s: DriverState, e: RideEvent)
    requires !e.RideRequested?
    ensures PerformAll(s, MessagePlan(s, TopicOf(e), PayloadOf(e)).writes)
         == if AsFinish(e).Some? then PerformAll(s, DriverPlan(s, Finish(AsFinish(e).value)).writes) else s
  {
  }
}
