/**
 Runs of driver-service and matching-service over the shared pool. Each handler is one atomic step.
 Messages are not taken from a log here: a step may carry any payload at any time, which covers every
 loss, redelivery and reordering of Kafka messages.
 */
module Dispatch {
  import opened Wrappers
  import opened GeoPool
  import opened Drivers
  import opened Matching

  datatype System = System(drivers: DriverState, matching: MatchingState)

  const EMPTY_SYSTEM := System(NO_DRIVERS, NO_MATCHES)

  datatype Step =
    | Create(newId: DriverId, user: UserId, email: string, lat0: Option<real>, lng0: Option<real>)
    | Patch(id: DriverId, status: DriverStatus)
    | Ping(id: DriverId, lat: real, lng: real)
    | Photo(photo: PhotoEvent)
    | Assign(assignment: Assigned)
    | Finish(finished: Finished)
    | MatchRide(request: RideRequest, call: ClaimCall, published: bool)

  /** A new row gets a fresh id; a claim takes a member of the pool (any: in particular a nearest one). */
  predicate Possible(sys: System, step: Step) {
    match step
    case Create(newId, _, _, _, _) => newId !in sys.drivers.rows
    case MatchRide(_, call, _) => Taken(call).Some? ==> Taken(call).value in sys.drivers.pool.members
    case _ => true
  }

  ghost function DriverPlan(s: DriverState, step: Step): Plan
    requires !step.MatchRide?
  {
    match step
    case Create(newId, user, email, lat, lng) => PlanCreate(s, newId, user, email, lat, lng)
    case Patch(id, status) => PlanStatus(s, id, status)
    case Ping(id, lat, lng) => PlanLocation(s, id, lat, lng)
    case Photo(e) => PlanPhoto(s, e)
    case Assign(e) => PlanAssigned(s, e)
    case Finish(e) => PlanFinished(s, e)
  }

  ghost function Apply(sys: System, step: Step): System {
    if step.MatchRide? then
      System(sys.drivers.(pool := Claim(sys.drivers.pool, Taken(step.call))),
             Match(sys.matching, step.request, step.call, step.published))
    else
      sys.(drivers := PerformAll(sys.drivers, DriverPlan(sys.drivers, step).writes))
  }

  ghost predicate Legal(sys: System, steps: seq<Step>) {
    steps == [] ||
    (Legal(sys, steps[..|steps| - 1]) && Possible(End(sys, steps[..|steps| - 1]), steps[|steps| - 1]))
  }

  ghost function End(sys: System, steps: seq<Step>): System {
    if steps == [] then sys else Apply(End(sys, steps[..|steps| - 1]), steps[|steps| - 1])
  }

  // ---------------------------------------------------------------------------------------------
  // What the writes of a step amount to
  // ---------------------------------------------------------------------------------------------

  function WithStatus(s: DriverState, d: DriverId, status: DriverStatus,
                      reason: Option<Reason>, ride: Option<RideId>): DriverState
    requires d in s.rows
  {
    DriverState(s.rows[d := s.rows[d].(status := status)],
                StatusChange(s.pool, d, status, s.rows[d].lat, s.rows[d].lng),
                s.statusLog + [StatusEvent(d, status, reason, ride)],
                s.locationLog)
  }

  function WithPosition(s: DriverState, d: DriverId, lat: real, lng: real): DriverState
    requires d in s.rows
  {
    DriverState(s.rows[d := s.rows[d].(lat := Some(lat), lng := Some(lng))],
                if s.rows[d].status == Available then Add(s.pool, d, Point(lat, lng)) else s.pool,
                s.statusLog,
                s.locationLog + [LocationEvent(d, lat, lng)])
  }

  function WithPhoto(s: DriverState, d: DriverId, hasPhoto: bool): DriverState
    requires d in s.rows
  {
    var flagged := s.(rows := s.rows[d := s.rows[d].(hasPhoto := hasPhoto)]);
    if !hasPhoto && s.rows[d].status == Available then WithStatus(flagged, d, Offline, Some(PhotoRemoved), None)
    else flagged
  }

  lemma StatusWritesDo(s: DriverState, row: DriverRow, d: DriverId, status: DriverStatus,
                       reason: Option<Reason>, ride: Option<RideId>)
    requires d in s.rows && row.lat == s.rows[d].lat && row.lng == s.rows[d].lng
    ensures PerformAll(s, StatusWrites(d, row, status, reason, ride)) == WithStatus(s, d, status, reason, ride)
  {
    var ws := StatusWrites(d, row, status, reason, ride);
    PerformThree(s, ws[0], ws[1], ws[2]);
  }

  lemma PositionWritesDo(s: DriverState, d: DriverId, lat: real, lng: real)
    requires d in s.rows
    ensures PerformAll(s, PlanLocation(s, d, lat, lng).writes) == WithPosition(s, d, lat, lng)
  {
    var move, store := GeoMove(d, lat, lng), SetLocation(d, lat, lng);
    var tell := PublishLocation(LocationEvent(d, lat, lng));
    if s.rows[d].status == Available {
      assert PlanLocation(s, d, lat, lng).writes == [move, store, tell];
      PerformThree(s, move, store, tell);
    } else {
      assert PlanLocation(s, d, lat, lng).writes == [store, tell];
      PerformTwo(s, store, tell);
    }
  }

  lemma PhotoWritesDo(s: DriverState, e: PhotoEvent)
    requires e.role == DriverRole && DriverOfUser(s.rows, e.user).Some?
    ensures PerformAll(s, PlanPhoto(s, e).writes) == WithPhoto(s, DriverOfUser(s.rows, e.user).value, e.hasPhoto)
  {
    var d := DriverOfUser(s.rows, e.user).value;
    var flag := SetHasPhoto(d, e.hasPhoto);
    PerformTwo(s, flag, flag);
    if !e.hasPhoto && s.rows[d].status == Available {
      var ws := StatusWrites(d, s.rows[d], Offline, Some(PhotoRemoved), None);
      PerformConcat(s, [flag], ws);
      StatusWritesDo(Perform(s, flag), s.rows[d], d, Offline, Some(PhotoRemoved), None);
    } else {
      assert PlanPhoto(s, e).writes == [flag];
    }
  }

  /** What an atomic step of driver-service does, once decided. */
  datatype Change =
    | Nothing
    | NewRow(driver: DriverId, row: DriverRow)
    | NewStatus(driver: DriverId, status: DriverStatus, reason: Option<Reason>, ride: Option<RideId>)
    | NewPosition(driver: DriverId, lat: real, lng: real)
    | NewFlag(driver: DriverId, hasPhoto: bool)

  ghost function ChangeOf(s: DriverState, step: Step): Change
    requires !step.MatchRide?
  {
    match step
    case Create(newId, user, email, lat, lng) =>
      if PlanCreate(s, newId, user, email, lat, lng).reply == Done
      then NewRow(newId, DriverRow(user, email, Offline, false, lat, lng)) else Nothing
    case Patch(id, status) =>
      if PlanStatus(s, id, status).reply == Done then NewStatus(id, status, None, None) else Nothing
    case Ping(id, lat, lng) => if id in s.rows then NewPosition(id, lat, lng) else Nothing
    case Photo(e) =>
      if e.role == DriverRole && DriverOfUser(s.rows, e.user).Some?
      then NewFlag(DriverOfUser(s.rows, e.user).value, e.hasPhoto) else Nothing
    case Assign(e) =>
      if e.driver in s.rows && s.rows[e.driver].status != Busy
      then NewStatus(e.driver, Busy, Some(RideAssigned), Some(e.ride)) else Nothing
    case Finish(e) =>
      if e.driver.Some? && e.driver.value in s.rows && s.rows[e.driver.value].status == Busy
      then NewStatus(e.driver.value, if s.rows[e.driver.value].hasPhoto then Available else Offline,
                     Some(if e.status == Cancelled then RideCancelled else RideCompleted), Some(e.ride))
      else Nothing
  }

  predicate AboutKnownDriver(s: DriverState, c: Change) {
    c.NewStatus? || c.NewPosition? || c.NewFlag? ==> c.driver in s.rows
  }

  function Make(s: DriverState, c: Change): DriverState
    requires AboutKnownDriver(s, c)
  {
    match c
    case Nothing => s
    case NewRow(d, row) => s.(rows := s.rows[d := row])
    case NewStatus(d, status, reason, ride) => WithStatus(s, d, status, reason, ride)
    case NewPosition(d, lat, lng) => WithPosition(s, d, lat, lng)
    case NewFlag(d, hasPhoto) => WithPhoto(s, d, hasPhoto)
  }

  /** The writes of an atomic step make exactly its change. */
  lemma StepMakes(s: DriverState, step: Step)
    requires !step.MatchRide?
    ensures AboutKnownDriver(s, ChangeOf(s, step))
    ensures PerformAll(s, DriverPlan(s, step).writes) == Make(s, ChangeOf(s, step))
  {
    var plan := DriverPlan(s, step);
    if plan.writes != [] {
      match step
      case Create(newId, user, email, lat, lng) =>
        PerformTwo(s, plan.writes[0], plan.writes[0]);
        assert plan.writes == [plan.writes[0]];
      case Patch(id, status) => StatusWritesDo(s, s.rows[id], id, status, None, None);
      case Ping(id, lat, lng) => PositionWritesDo(s, id, lat, lng);
      case Photo(e) => PhotoWritesDo(s, e);
      case Assign(e) => StatusWritesDo(s, s.rows[e.driver], e.driver, Busy, Some(RideAssigned), Some(e.ride));
      case Finish(e) =>
        var d := e.driver.value;
        StatusWritesDo(s, s.rows[d], d, if s.rows[d].hasPhoto then Available else Offline,
                       Some(if e.status == Cancelled then RideCancelled else RideCompleted), Some(e.ride));
    }
  }
}
