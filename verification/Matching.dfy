/** matching-service: claim the nearest driver for a requested ride and announce the assignment. */
module Matching {
  import opened Wrappers
  import opened GeoPool
  import opened Drivers

  /** `ride.requested`; a `driver.declined` is re-run as one. */
  datatype RideRequest = RideRequest(ride: RideId, rider: UserId, pickup: Point)

  /** What the claim call does to its caller. A call that fails may still have been executed by Redis. */
  datatype ClaimCall = Answered(answer: Option<DriverId>) | Failed(executed: Option<DriverId>)

  datatype MatchingState = MatchingState(assignments: seq<Assigned>, stranded: seq<Assigned>,
                                         attempts: nat, succeeded: nat, noDriver: nat, caught: nat)

  const NO_MATCHES := MatchingState([], [], 0, 0, 0, 0)

  /** The driver the call took out of the pool, whatever happened afterwards. */
  function Taken(call: ClaimCall): Option<DriverId> {
    match call
    case Answered(answer) => answer
    case Failed(executed) => executed
  }

  /** `stranded` lists the drivers claimed for a ride without an assignment being published. */
  function Match(m: MatchingState, request: RideRequest, call: ClaimCall, published: bool): MatchingState {
    var tried := m.(attempts := m.attempts + 1);
    match call
    case Failed(executed) =>
      tried.(caught := tried.caught + 1,
             stranded := if executed.Some? then tried.stranded + [Assigned(request.ride, executed.value)]
                         else tried.stranded)
    case Answered(None) => tried.(noDriver := tried.noDriver + 1)
    case Answered(Some(driver)) =>
      if published then
        tried.(assignments := tried.assignments + [Assigned(request.ride, driver)], succeeded := tried.succeeded + 1)
      else
        tried.(stranded := tried.stranded + [Assigned(request.ride, driver)], caught := tried.caught + 1)
  }

  /** `matching_attempts`, `matching_success`, `matching_failed`, and the errors only the log sees. */
  predicate CountersAgree(m: MatchingState) {
    && m.succeeded == |m.assignments|
    && m.attempts == m.succeeded + m.noDriver + m.caught
    && |m.stranded| <= m.caught
  }

  /** A claimed driver is assigned the ride asked for or stranded with it, never both and never neither; assigned
      exactly if the claim was answered and the publish succeeded. */
  lemma ClaimedIsAssignedOrStranded(m: MatchingState, request: RideRequest, call: ClaimCall, published: bool)
    ensures var t := Match(m, request, call, published);
            && (Taken(call).None? ==> t.assignments == m.assignments && t.stranded == m.stranded)
            && (Taken(call).Some? ==>
                  var claimed := Assigned(request.ride, Taken(call).value);
                  if call.Answered? && published then
                    t.assignments == m.assignments + [claimed] && t.stranded == m.stranded
                  else
                    t.assignments == m.assignments && t.stranded == m.stranded + [claimed])
  {
  }

  class MatchingService {
    ghost var assignments: seq<Assigned>
    ghost var stranded: seq<Assigned>
    ghost var caught: nat
    var attempts: nat
    var succeeded: nat
    var noDriver: nat
    const redis: GeoSet
    const radius: real
    const metric: Metric

    constructor (redis: GeoSet, radius: real, metric: Metric)
      ensures this.redis == redis && this.radius == radius && this.metric == metric
      ensures State() == NO_MATCHES
    {
      this.redis, this.radius, this.metric := redis, radius, metric;
      assignments, stranded := [], [];
      attempts, succeeded, noDriver, caught := 0, 0, 0, 0;
    }

    ghost function State(): MatchingState
      reads this
    {
      MatchingState(assignments, stranded, attempts, succeeded, noDriver, caught)
    }

    /** Errors are logged and swallowed: the message is committed whatever happens. */
    method HandleRideRequested(request: RideRequest, redisUp: bool, executed: bool, kafkaUp: bool)
      returns (ghost call: ClaimCall)
      modifies this, redis
      ensures call.Answered? <==> redisUp
      ensures redisUp || executed ==> IsClaimAnswer(old(redis.members), metric, request.pickup, radius, Taken(call))
      ensures !redisUp && !executed ==> Taken(call) == None
      ensures State() == Match(old(State()), request, call, kafkaUp)
      ensures redis.Contents() == Claim(old(redis.Contents()), Taken(call))
    {
      attempts := attempts + 1;
      var driver: Option<DriverId> := None;
      if redisUp || executed {
        driver := redis.ClaimNearestDriver(request.pickup, radius, metric);
      }
      if !redisUp {
        call := Failed(driver);
        caught := caught + 1;
        stranded := if driver.Some? then stranded + [Assigned(request.ride, driver.value)] else stranded;
        return;
      }
      call := Answered(driver);
      if driver.None? {
        noDriver := noDriver + 1;
        return;
      }
      if !kafkaUp {
        caught := caught + 1;
        stranded := stranded + [Assigned(request.ride, driver.value)];
        return;
      }
      assignments := assignments + [Assigned(request.ride, driver.value)];
      succeeded := succeeded + 1;
    }

    /** The declined driver is named in the payload but plays no part: the ride is simply matched again. */
    method HandleDriverDeclined(request: RideRequest, declined: DriverId, redisUp: bool, executed: bool, kafkaUp: bool)
      returns (ghost call: ClaimCall)
      modifies this, redis
      ensures call.Answered? <==> redisUp
      ensures redisUp || executed ==> IsClaimAnswer(old(redis.members), metric, request.pickup, radius, Taken(call))
      ensures !redisUp && !executed ==> Taken(call) == None
      ensures State() == Match(old(State()), request, call, kafkaUp)
      ensures redis.Contents() == Claim(old(redis.Contents()), Taken(call))
    {
      call := HandleRideRequested(request, redisUp, executed, kafkaUp);
    }
  }
}
