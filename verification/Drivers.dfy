/**
 driver-service: the driver table, the pool it maintains and the two topics it publishes.

 Every operation is first a decision (the reply and the writes it is going to make, in order) and then
 the execution of those writes. A failing attempt executes a prefix of them, which is what an exception
 thrown by Postgres, Redis or Kafka leaves behind.
 */
module Drivers {
  import opened Wrappers
  import opened GeoPool

  type UserId = string
  type RideId = string

  datatype Role = RiderRole | DriverRole

  datatype DriverRow = DriverRow(userId: UserId, email: string, status: DriverStatus, hasPhoto: bool,
                                 lat: Option<real>, lng: Option<real>)

  datatype Reason = PhotoRemoved | RideAssigned | RideCompleted | RideCancelled

  /** `driver.status.updated`; a change the driver makes carries neither reason nor ride. */
  datatype StatusEvent = StatusEvent(driver: DriverId, status: DriverStatus,
                                     reason: Option<Reason>, ride: Option<RideId>)

  /** `driver.location.updated` */
  datatype LocationEvent = LocationEvent(driver: DriverId, lat: real, lng: real)

  /** `user.photo.updated` */
  datatype PhotoEvent = PhotoEvent(user: UserId, role: Role, hasPhoto: bool)

  /** `driver.assigned` */
  datatype Assigned = Assigned(ride: RideId, driver: DriverId)

  datatype RideStatus = Requested | Matched | InProgress | Completed | Cancelled

  /** `ride.completed`, or a `ride.status.updated` */
  datatype Finished = Finished(ride: RideId, driver: Option<DriverId>, status: RideStatus)

  datatype DriverState = DriverState(rows: map<DriverId, DriverRow>, pool: Pool,
                                     statusLog: seq<StatusEvent>, locationLog: seq<LocationEvent>)

  const NO_DRIVERS := DriverState(map[], EMPTY_POOL, [], [])

  datatype Reply = Done | Ignored | NotFound | Conflict | Unprocessable | ServerError

  datatype Write =
    | InsertRow(driver: DriverId, row: DriverRow)
    | SetStatus(driver: DriverId, status: DriverStatus)
    | SetHasPhoto(driver: DriverId, hasPhoto: bool)
    | SetLocation(driver: DriverId, lat: real, lng: real)
    | GeoStatusChange(driver: DriverId, status: DriverStatus, oldLat: Option<real>, oldLng: Option<real>)
    | GeoMove(driver: DriverId, lat: real, lng: real)
    | PublishStatus(statusEvent: StatusEvent)
    | PublishLocation(locationEvent: LocationEvent)

  datatype Plan = Plan(reply: Reply, writes: seq<Write>)

  function Perform(s: DriverState, w: Write): DriverState {
    match w
    case InsertRow(d, row) => s.(rows := s.rows[d := row])
    case SetStatus(d, status) =>
      if d in s.rows then s.(rows := s.rows[d := s.rows[d].(status := status)]) else s
    case SetHasPhoto(d, hasPhoto) =>
      if d in s.rows then s.(rows := s.rows[d := s.rows[d].(hasPhoto := hasPhoto)]) else s
    case SetLocation(d, lat, lng) =>
      if d in s.rows then s.(rows := s.rows[d := s.rows[d].(lat := Some(lat), lng := Some(lng))]) else s
    case GeoStatusChange(d, status, lat, lng) => s.(pool := StatusChange(s.pool, d, status, lat, lng))
    case GeoMove(d, lat, lng) => s.(pool := Add(s.pool, d, Point(lat, lng)))
    case PublishStatus(e) => s.(statusLog := s.statusLog + [e])
    case PublishLocation(e) => s.(locationLog := s.locationLog + [e])
  }

  function PerformAll(s: DriverState, ws: seq<Write>): DriverState
    decreases |ws|
  {
    if ws == [] then s else PerformAll(Perform(s, ws[0]), ws[1..])
  }

  /** What an attempt that runs out after `budget` writes leaves. */
  function Attempt(s: DriverState, plan: Plan, budget: nat): DriverState {
    PerformAll(s, if budget < |plan.writes| then plan.writes[..budget] else plan.writes)
  }

  /** What the caller sees: an HTTP 500, or a rethrown error and an uncommitted offset. */
  function ReplyOf(plan: Plan, budget: nat): Reply {
    if budget < |plan.writes| then ServerError else plan.reply
  }

  // ---------------------------------------------------------------------------------------------
  // Decisions
  // ---------------------------------------------------------------------------------------------

  ghost predicate UniqueUsers(rows: map<DriverId, DriverRow>) {
    forall d, e | d in rows && e in rows && rows[d].userId == rows[e].userId :: d == e
  }

  /** `findOne({ where: { userId } })` */
  ghost function DriverOfUser(rows: map<DriverId, DriverRow>, user: UserId): (d: Option<DriverId>)
    ensures d.Some? ==> d.value in rows && rows[d.value].userId == user
    ensures d.None? ==> forall e | e in rows :: rows[e].userId != user
  {
    if e :| e in rows && rows[e].userId == user then Some(e) else None
  }

  /** The status, the pool and the announcement, in the order every status change makes them. */
  function StatusWrites(driver: DriverId, row: DriverRow, status: DriverStatus,
                        reason: Option<Reason>, ride: Option<RideId>): seq<Write> {
    [SetStatus(driver, status),
     GeoStatusChange(driver, status, row.lat, row.lng),
     PublishStatus(StatusEvent(driver, status, reason, ride))]
  }

  /** The database picks `newId`; a second profile for one user violates the unique index on user_id. */
  function PlanCreate(s: DriverState, newId: DriverId, user: UserId, email: string,
                        lat: Option<real>, lng: Option<real>): Plan {
    if exists d | d in s.rows :: s.rows[d].email == email then Plan(Conflict, [])
    else if exists d | d in s.rows :: s.rows[d].userId == user then Plan(ServerError, [])
    else Plan(Done, [InsertRow(newId, DriverRow(user, email, Offline, false, lat, lng))])
  }

  function PlanStatus(s: DriverState, id: DriverId, status: DriverStatus): Plan {
    if id !in s.rows then Plan(NotFound, [])
    else if status == Busy then Plan(Unprocessable, [])
    else if s.rows[id].status == Busy then Plan(Conflict, [])
    else if status == Available && !s.rows[id].hasPhoto then Plan(Unprocessable, [])
    else Plan(Done, StatusWrites(id, s.rows[id], status, None, None))
  }

  function PlanLocation(s: DriverState, id: DriverId, lat: real, lng: real): Plan {
    if id !in s.rows then Plan(NotFound, [])
    else
      Plan(Done,
           (if s.rows[id].status == Available then [GeoMove(id, lat, lng)] else [])
           + [SetLocation(id, lat, lng), PublishLocation(LocationEvent(id, lat, lng))])
  }

  ghost function PlanPhoto(s: DriverState, e: PhotoEvent): Plan {
    var driver := DriverOfUser(s.rows, e.user);
    if e.role != DriverRole || driver.None? then Plan(Ignored, [])
    else
      var d := driver.value;
      Plan(Done,
           [SetHasPhoto(d, e.hasPhoto)]
           + if !e.hasPhoto && s.rows[d].status == Available
             then StatusWrites(d, s.rows[d], Offline, Some(PhotoRemoved), None)
             else [])
  }

  function PlanAssigned(s: DriverState, e: Assigned): Plan {
    if e.driver !in s.rows || s.rows[e.driver].status == Busy then Plan(Ignored, [])
    else Plan(Done, StatusWrites(e.driver, s.rows[e.driver], Busy, Some(RideAssigned), Some(e.ride)))
  }

  function PlanFinished(s: DriverState, e: Finished): Plan {
    if e.driver.None? || e.driver.value !in s.rows || s.rows[e.driver.value].status != Busy then Plan(Ignored, [])
    else
      var d := e.driver.value;
      Plan(Done, StatusWrites(d, s.rows[d], if s.rows[d].hasPhoto then Available else Offline,
                              Some(if e.status == Cancelled then RideCancelled else RideCompleted), Some(e.ride)))
  }

  // ---------------------------------------------------------------------------------------------
  // Executing a few writes
  // ---------------------------------------------------------------------------------------------

  lemma PerformTwo(s: DriverState, a: Write, b: Write)
    ensures PerformAll(s, [a]) == Perform(s, a)
    ensures PerformAll(s, [a, b]) == Perform(Perform(s, a), b)
  {
    assert [a][1..] == [] && [a, b][1..] == [b] && [b][1..] == [];
    assert PerformAll(Perform(s, a), [b]) == PerformAll(Perform(Perform(s, a), b), []);
  }

  lemma PerformThree(s: DriverState, a: Write, b: Write, c: Write)
    ensures PerformAll(s, [a, b, c]) == Perform(Perform(Perform(s, a), b), c)
  {
    assert [a, b, c][1..] == [b, c];
    PerformTwo(Perform(s, a), b, c);
  }

  lemma {:induction false} PerformConcat(s: DriverState, xs: seq<Write>, ys: seq<Write>)
    ensures PerformAll(s, xs + ys) == PerformAll(PerformAll(s, xs), ys)
    decreases |xs|
  {
    if xs == [] {
      assert xs + ys == ys;
    } else {
      assert (xs + ys)[0] == xs[0] && (xs + ys)[1..] == xs[1..] + ys;
      PerformConcat(Perform(s, xs[0]), xs[1..], ys);
    }
  }

  // ---------------------------------------------------------------------------------------------
  // What the HTTP handlers answer
  // ---------------------------------------------------------------------------------------------

  /** A profile is refused for a known email first, and then for a known user; otherwise it is stored as given,
      offline and without a photo. A refusal writes nothing. */
  lemma CreateAnswers(s: DriverState, newId: DriverId, user: UserId, email: string,
                      lat: Option<real>, lng: Option<real>)
    ensures var plan := PlanCreate(s, newId, user, email, lat, lng);
            var t := PerformAll(s, plan.writes);
            && (plan.reply == Conflict <==> exists d :: d in s.rows && s.rows[d].email == email)
            && (plan.reply == ServerError <==>
                  && (exists d :: d in s.rows && s.rows[d].userId == user)
                  && (forall d | d in s.rows :: s.rows[d].email != email))
            && plan.reply in {Conflict, ServerError, Done}
            && t == (if plan.reply == Done
                     then s.(rows := s.rows[newId := DriverRow(user, email, Offline, false, lat, lng)]) else s)
  {
    var plan := PlanCreate(s, newId, user, email, lat, lng);
    if plan.reply == Done {
      assert plan.writes == [plan.writes[0]];
      PerformTwo(s, plan.writes[0], plan.writes[0]);
    }
  }

  /** A driver may not set BUSY, nor leave it, nor be available without a photo; each refusal has its own answer,
      and writes nothing. */
  lemma PatchAnswers(s: DriverState, id: DriverId, status: DriverStatus)
    ensures var plan := PlanStatus(s, id, status);
            && (plan.reply == NotFound <==> id !in s.rows)
            && (plan.reply == Conflict <==> id in s.rows && s.rows[id].status == Busy && status != Busy)
            && (plan.reply == Unprocessable <==>
                  && id in s.rows
                  && (status == Busy || (s.rows[id].status != Busy && status == Available && !s.rows[id].hasPhoto)))
            && plan.reply in {NotFound, Conflict, Unprocessable, Done}
            && (plan.reply != Done ==> PerformAll(s, plan.writes) == s)
  {
  }
}
