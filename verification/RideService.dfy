/** ride-service as a running object. */
module RideServices {
  import opened Wrappers
  import opened GeoPool
  import opened Drivers
  import opened Rides

  class RideService {
    var rides: map<RideId, RideRow>
    ghost var log: seq<RideEvent>

    constructor ()
      ensures State() == NO_RIDES
    {
      rides, log := map[], [];
    }

    ghost function State(): RideState
      reads this
    {
      RideState(rides, log)
    }

    /** `kafkaUp` says whether the publish succeeds; the row is saved before it is tried. */
    method RequestRide(newId: RideId, rider: UserId, pickup: Point, destination: Point, now: Time, kafkaUp: bool)
      returns (reply: RideReply)
      requires newId !in rides
      modifies this
      ensures State() == ApplyRide(old(State()), Request(newId, rider, pickup, destination, now, kafkaUp))
      ensures reply == if kafkaUp then RideDone(rides[newId]) else RideError
    {
      var saved := RideRow(rider, None, Requested, pickup, destination, None, now);
      rides := rides[newId := saved];
      if !kafkaUp { return RideError; }
      log := log + [RideRequested(newId, saved.rider, saved.pickup, saved.destination)];
      return RideDone(saved);
    }

    method UpdateStatus(id: RideId, status: RideStatus, fare: Option<real>, now: Time, kafkaUp: bool)
      returns (reply: RideReply)
      modifies this
      ensures State() == ApplyRide(old(State()), PatchRide(id, status, fare, now, kafkaUp))
      ensures id !in old(rides) ==> reply == RideNotFound
      ensures id in old(rides) ==>
                reply == if kafkaUp then
                           RideDone(old(rides)[id].(status := status, fare := PublishedFare(fare, old(rides)[id].fare)))
                         else RideError
    {
      if id !in rides { return RideNotFound; }
      var ride := rides[id];
      rides := rides[id := ride.(status := status)];
      if fare.Some? && fare.value != 0.0 {
        rides := rides[id := rides[id].(fare := fare)];
      }
      if !kafkaUp { return RideError; }
      var told := if fare.Some? then fare else ride.fare;
      if status == Completed {
        log := log + [RideCompletedEvent(id, ride.rider, ride.driver, told, ride.pickup, ride.destination,
                                         ride.createdAt, now)];
      } else {
        log := log + [StatusUpdated(id, ride.rider, ride.driver, status, told)];
      }
      return RideDone(ride.(status := status, fare := told));
    }

    method HandleDriverAssigned(e: Assigned, kafkaUp: bool) returns (handled: bool)
      modifies this
      ensures State() == ApplyRide(old(State()), AssignRide(e, kafkaUp))
      ensures handled <==> e.ride in old(rides) && kafkaUp
    {
      if e.ride in rides {
        rides := rides[e.ride := rides[e.ride].(driver := Some(e.driver), status := Matched)];
      }
      if e.ride !in rides { return false; }
      if !kafkaUp { return false; }
      log := log + [StatusUpdated(e.ride, rides[e.ride].rider, Some(e.driver), Matched, None)];
      return true;
    }
  }
}
