/** driver-service as a running object: its table, its two topics, and the GEO set it shares with matching-service. */
module DriverServices {
  import opened Wrappers
  import opened GeoPool
  import opened Drivers

  class DriverService {
    var rows: map<DriverId, DriverRow>
    ghost var statusLog: seq<StatusEvent>
    ghost var locationLog: seq<LocationEvent>
    const redis: GeoSet

    constructor (redis: GeoSet)
      ensures this.redis == redis
      ensures State() == DriverState(map[], redis.Contents(), [], [])
    {
      this.redis := redis;
      rows, statusLog, locationLog := map[], [], [];
    }

    ghost function State(): DriverState
      reads this, redis
    {
      DriverState(rows, redis.Contents(), statusLog, locationLog)
    }

    method CreateDriver(newId: DriverId, user: UserId, email: string, lat: Option<real>, lng: Option<real>, budget: nat)
      returns (reply: Reply)
      requires newId !in rows
      modifies this, redis
      ensures var plan := PlanCreate(old(State()), newId, user, email, lat, lng);
              State() == Attempt(old(State()), plan, budget) && reply == ReplyOf(plan, budget)
    {
      if exists d | d in rows :: rows[d].email == email { return Conflict; }
      if exists d | d in rows :: rows[d].userId == user { return ServerError; }
      if budget == 0 { return ServerError; }
      rows := rows[newId := DriverRow(user, email, Offline, false, lat, lng)];
      PerformTwo(old(State()), InsertRow(newId, rows[newId]), InsertRow(newId, rows[newId]));
      return Done;
    }

    method UpdateStatus(id: DriverId, status: DriverStatus, budget: nat) returns (reply: Reply)
      modifies this, redis
      ensures var plan := PlanStatus(old(State()), id, status);
              State() == Attempt(old(State()), plan, budget) && reply == ReplyOf(plan, budget)
    {
      if id !in rows { return NotFound; }
      var driver := rows[id];
      if status == Busy { return Unprocessable; }
      if driver.status == Busy { return Conflict; }
      if status == Available && !driver.hasPhoto { return Unprocessable; }
      var ok := ChangeStatus(id, driver, status, None, None, budget);
      reply := if ok then Done else ServerError;
    }

    /** `setStatusFromSystem`, and the same three writes of `updateStatus`. */
    method ChangeStatus(id: DriverId, driver: DriverRow, status: DriverStatus,
                        reason: Option<Reason>, ride: Option<RideId>, budget: nat) returns (ok: bool)
      requires id in rows
      modifies this, redis
      ensures var writes := StatusWrites(id, driver, status, reason, ride);
              && State() == Attempt(old(State()), Plan(Done, writes), budget)
              && ok == (|writes| <= budget)
      ensures rows.Keys == old(rows.Keys)
    {
      ghost var before := State();
      ghost var writes := StatusWrites(id, driver, status, reason, ride);
      PerformTwo(before, writes[0], writes[1]);
      PerformThree(before, writes[0], writes[1], writes[2]);
      assert writes[..1] == [writes[0]] && writes[..2] == [writes[0], writes[1]];
      if budget == 0 { return false; }
      rows := rows[id := rows[id].(status := status)];
      if budget == 1 { return false; }
      redis.HandleDriverStatusChange(id, status, driver.lat, driver.lng);
      if budget == 2 { return false; }
      statusLog := statusLog + [StatusEvent(id, status, reason, ride)];
      return true;
    }

    method UpdateLocation(id: DriverId, lat: real, lng: real, budget: nat) returns (reply: Reply)
      modifies this, redis
      ensures var plan := PlanLocation(old(State()), id, lat, lng);
              State() == Attempt(old(State()), plan, budget) && reply == ReplyOf(plan, budget)
    {
      if id !in rows { return NotFound; }
      ghost var before := State();
      ghost var writes := PlanLocation(before, id, lat, lng).writes;
      ghost var move, set_ := GeoMove(id, lat, lng), SetLocation(id, lat, lng);
      ghost var tell := PublishLocation(LocationEvent(id, lat, lng));
      var left: int := budget;
      if rows[id].status == Available {
        assert writes == [move, set_, tell];
        assert writes[..1] == [move] && writes[..2] == [move, set_];
        PerformTwo(before, move, set_);
        PerformThree(before, move, set_, tell);
        if left == 0 { return ServerError; }
        redis.UpdateDriverLocation(id, lat, lng);
        left := left - 1;
      } else {
        assert writes == [set_, tell] && writes[..1] == [set_];
        PerformTwo(before, set_, tell);
      }
      if left == 0 { return ServerError; }
      rows := rows[id := rows[id].(lat := Some(lat), lng := Some(lng))];
      if left == 1 { return ServerError; }
      locationLog := locationLog + [LocationEvent(id, lat, lng)];
      return Done;
    }

    method HandleUserPhotoUpdated(e: PhotoEvent, budget: nat) returns (reply: Reply)
      requires UniqueUsers(rows)
      modifies this, redis
      ensures var plan := PlanPhoto(old(State()), e);
              State() == Attempt(old(State()), plan, budget) && reply == ReplyOf(plan, budget)
    {
      if e.role != DriverRole { return Ignored; }
      if !exists d | d in rows :: rows[d].userId == e.user { return Ignored; }
      var id :| id in rows && rows[id].userId == e.user;
      var driver := rows[id];
      ghost var before := State();
      ghost var plan := PlanPhoto(before, e);
      ghost var flag := SetHasPhoto(id, e.hasPhoto);
      if budget == 0 { return ServerError; }
      rows := rows[id := driver.(hasPhoto := e.hasPhoto)];
      PerformTwo(before, flag, flag);
      if !e.hasPhoto && driver.status == Available {
        ghost var writes := StatusWrites(id, driver, Offline, Some(PhotoRemoved), None);
        assert plan.writes == [flag] + writes;
        PerformConcat(before, [flag], writes);
        if budget < |plan.writes| {
          assert plan.writes[..budget] == [flag] + writes[..budget - 1];
          PerformConcat(before, [flag], writes[..budget - 1]);
        }
        var ok := ChangeStatus(id, driver, Offline, Some(PhotoRemoved), None, budget - 1);
        return if ok then Done else ServerError;
      }
      assert plan.writes == [flag];
      return Done;
    }

    method HandleDriverAssigned(e: Assigned, budget: nat) returns (reply: Reply)
      modifies this, redis
      ensures var plan := PlanAssigned(old(State()), e);
              State() == Attempt(old(State()), plan, budget) && reply == ReplyOf(plan, budget)
    {
      if e.driver !in rows { return Ignored; }
      var driver := rows[e.driver];
      if driver.status == Busy { return Ignored; }
      var ok := ChangeStatus(e.driver, driver, Busy, Some(RideAssigned), Some(e.ride), budget);
      reply := if ok then Done else ServerError;
    }

    method HandleRideFinished(e: Finished, budget: nat) returns (reply: Reply)
      modifies this, redis
      ensures var plan := PlanFinished(old(State()), e);
              State() == Attempt(old(State()), plan, budget) && reply == ReplyOf(plan, budget)
    {
      if e.driver.None? { return Ignored; }
      var id := e.driver.value;
      if id !in rows || rows[id].status != Busy { return Ignored; }
      var driver := rows[id];
      var next := if driver.hasPhoto then Available else Offline;
      var reason := if e.status == Cancelled then RideCancelled else RideCompleted;
      var ok := ChangeStatus(id, driver, next, Some(reason), Some(e.ride), budget);
      reply := if ok then Done else ServerError;
    }

    /** The handler registered for `ride.status.updated`. */
    method HandleRideStatusUpdated(e: Finished, budget: nat) returns (reply: Reply)
      modifies this, redis
      ensures var plan := if e.status == Cancelled then PlanFinished(old(State()), e) else Plan(Ignored, []);
              State() == Attempt(old(State()), plan, budget) && reply == ReplyOf(plan, budget)
    {
      if e.status != Cancelled { return Ignored; }
      reply := HandleRideFinished(e, budget);
    }
  }
}
