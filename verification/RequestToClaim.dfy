/** From `requestRide` to the claim and back: ride-service, matching-service and the topics between them. */
module RequestToClaim {
  import opened Wrappers
  import opened GeoPool
  import opened Drivers
  import opened Matching
  import opened Rides

  /** What matching-service reads of a `ride.requested` event. */
  function RequestOf(e: RideEvent): RideRequest
    requires e.RideRequested?
  {
    RideRequest(e.ride, e.rider, e.pickup)
  }

  /** Whatever happens to the rides meanwhile: the event of a request asks for the pickup and the rider given to
      `requestRide`, once; a driver answered for it is nearest to that pickup, and in range of it. */
  lemma ClaimServesTheRequest(before: seq<RideStep>, request: RideStep, after: seq<RideStep>, j: nat,
                              members: map<DriverId, Point>, metric: Metric, radius: real, answer: Option<DriverId>)
    requires request.Request? && LegalRides(NO_RIDES, before + [request] + after)
    requires var s := EndRides(NO_RIDES, before + [request] + after);
             && j < |s.log| && s.log[j].RideRequested? && s.log[j].ride == request.newId
             && IsClaimAnswer(members, metric, RequestOf(s.log[j]).pickup, radius, answer)
    ensures var s := EndRides(NO_RIDES, before + [request] + after);
            && RequestOf(s.log[j]) == RideRequest(request.newId, request.rider, request.pickup)
            && (answer.Some? ==>
                  && answer.value in members && metric(request.pickup, members[answer.value]) <= radius
                  && forall d | d in members ::
                       metric(request.pickup, members[answer.value]) <= metric(request.pickup, members[d]))
            && (answer.None? <==> forall d | d in members :: metric(request.pickup, members[d]) > radius)
            && (forall i | 0 <= i < |s.log| && s.log[i].RideRequested? && s.log[i].ride == request.newId :: i == j)
  {
    var s := EndRides(NO_RIDES, before + [request] + after);
    EventsTellTheRequests(before + [request] + after);
    RequestIsKept(before, request, after);
    assert EventTells(s.log[j], s.rides);
    if answer.None? {
      forall d | d in members ensures metric(request.pickup, members[d]) > radius {
        assert d !in InRange(members, metric, request.pickup, radius);
      }
    } else {
      forall d | d in members
        ensures metric(request.pickup, members[answer.value]) <= metric(request.pickup, members[d])
      {
      }
    }
  }

  lemma {:induction false} RequestIsKept(before: seq<RideStep>, request: RideStep, after: seq<RideStep>)
    requires request.Request? && LegalRides(NO_RIDES, before + [request] + after)
    ensures var s := EndRides(NO_RIDES, before + [request] + after);
            && request.newId in s.rides
            && s.rides[request.newId].rider == request.rider && s.rides[request.newId].createdAt == request.now
            && s.rides[request.newId].pickup == request.pickup
            && s.rides[request.newId].destination == request.destination
    decreases |after|
  {
    var steps := before + [request] + after;
    if after == [] {
      assert steps == before + [request] && steps[..|steps| - 1] == before;
    } else {
      assert steps[..|steps| - 1] == before + [request] + after[..|after| - 1];
      RequestIsKept(before, request, after[..|after| - 1]);
    }
  }

  /** And back: when the claim is published and ride-service handles the assignment, the requested ride, and no
      other, is matched with that driver. */
  lemma ClaimReachesTheRide(s: RideState, m: MatchingState, e: RideEvent, driver: DriverId, told: bool)
    requires EventsTell(s) && e in s.log && e.RideRequested?
    ensures var after := Match(m, RequestOf(e), Answered(Some(driver)), true);
            && after.assignments == m.assignments + [Assigned(e.ride, driver)]
            && var t := ApplyRide(s, AssignRide(after.assignments[|m.assignments|], told));
            && e.ride in s.rides && t.rides.Keys == s.rides.Keys
            && t.rides[e.ride] == s.rides[e.ride].(driver := Some(driver), status := Matched)
            && t.rides[e.ride].pickup == e.pickup
            && (forall r | r in s.rides && r != e.ride :: t.rides[r] == s.rides[r])
            && (told ==> t.log == s.log + [StatusUpdated(e.ride, e.rider, Some(driver), Matched, None)])
            && (!told ==> t.log == s.log)
  {
    var i :| 0 <= i < |s.log| && s.log[i] == e;
    assert EventTells(s.log[i], s.rides);
  }
}
