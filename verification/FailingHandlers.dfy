/**
 driver-service when its writes fail: every attempt of every handler may stop after any prefix of its
 writes, and a Kafka message is retried until an attempt gets through. Handlers run one at a time.
 */
module FailingHandlers {
  import opened Wrappers
  import opened GeoPool
  import opened PoolHistory
  import opened Drivers
  import opened Dispatch
  import opened DispatchRuns

  /** driver-service beside the `user.photo.updated` partition it reads, and its committed offset. */
  datatype Service = Service(drivers: DriverState, topic: seq<PhotoEvent>, offset: nat)

  datatype Event =
    | Handle(step: Step, budget: nat)
    | HandlePhoto(budget: nat)
    | Rewind(to: nat)
    | PublishPhoto(photo: PhotoEvent)
    | ClaimDriver(driver: DriverId)

  /** Photo events come from the partition; everything else may arrive at any time with any payload. */
  predicate CanHappen(v: Service, e: Event) {
    match e
    case Handle(step, _) => !step.Photo? && !step.MatchRide? && (step.Create? ==> step.newId !in v.drivers.rows)
    case HandlePhoto(_) => v.offset < |v.topic|
    case Rewind(to) => to <= v.offset
    case PublishPhoto(_) => true
    case ClaimDriver(d) => d in v.drivers.pool.members
  }

  /** The offset moves only when the attempt got through. */
  ghost function Run(v: Service, e: Event): Service
    requires CanHappen(v, e)
  {
    match e
    case Handle(step, budget) => v.(drivers := Attempt(v.drivers, DriverPlan(v.drivers, step), budget))
    case HandlePhoto(budget) =>
      var plan := PlanPhoto(v.drivers, v.topic[v.offset]);
      v.(drivers := Attempt(v.drivers, plan, budget),
         offset := if ReplyOf(plan, budget) == ServerError then v.offset else v.offset + 1)
    case Rewind(to) => v.(offset := to)
    case PublishPhoto(photo) => v.(topic := v.topic + [photo])
    case ClaimDriver(d) => v.(drivers := v.drivers.(pool := Claim(v.drivers.pool, Some(d))))
  }

  ghost predicate Happens(v: Service, events: seq<Event>)
    decreases |events|
  {
    events == [] || (CanHappen(v, events[0]) && Happens(Run(v, events[0]), events[1..]))
  }

  ghost function RunAll(v: Service, events: seq<Event>): Service
    requires Happens(v, events)
    decreases |events|
  {
    if events == [] then v else RunAll(Run(v, events[0]), events[1..])
  }

  // ---------------------------------------------------------------------------------------------
  // Available without a photo only while the removal is uncommitted
  // ---------------------------------------------------------------------------------------------

  /** The removal of `user`'s photo is still to be committed. */
  ghost predicate RemovalUncommitted(v: Service, user: UserId) {
    exists k | v.offset <= k < |v.topic| :: v.topic[k] == PhotoEvent(user, DriverRole, false)
  }

  ghost predicate Safe(v: Service) {
    && UniqueUsers(v.drivers.rows)
    && v.offset <= |v.topic|
    && forall d | d in v.drivers.rows && v.drivers.rows[d].status == Available && !v.drivers.rows[d].hasPhoto ::
         RemovalUncommitted(v, v.drivers.rows[d].userId)
  }

  /** A prefix of the three status writes changes the table by the status or not at all. */
  lemma PartialStatusRows(s: DriverState, row: DriverRow, d: DriverId, status: DriverStatus, reason: Option<Reason>,
                          ride: Option<RideId>, n: nat)
    requires d in s.rows && n <= 3
    ensures var ws := StatusWrites(d, row, status, reason, ride);
            var t := PerformAll(s, ws[..n]);
            && t.rows == (if n == 0 then s.rows else s.rows[d := s.rows[d].(status := status)])
            && t.pool == (if n < 2 then s.pool else StatusChange(s.pool, d, status, row.lat, row.lng))
  {
    var ws := StatusWrites(d, row, status, reason, ride);
    PerformTwo(s, ws[0], ws[1]);
    PerformThree(s, ws[0], ws[1], ws[2]);
    assert ws[..1] == [ws[0]] && ws[..2] == [ws[0], ws[1]] && ws[..3] == ws;
  }

  lemma StatusAttempt(s: DriverState, d: DriverId, status: DriverStatus, reason: Option<Reason>,
                      ride: Option<RideId>, budget: nat)
    requires d in s.rows
    ensures var t := Attempt(s, Plan(Done, StatusWrites(d, s.rows[d], status, reason, ride)), budget);
            && t.rows == (if budget == 0 then s.rows else s.rows[d := s.rows[d].(status := status)])
            && t.pool == (if budget < 2 then s.pool else StatusChange(s.pool, d, status, s.rows[d].lat, s.rows[d].lng))
  {
    var ws := StatusWrites(d, s.rows[d], status, reason, ride);
    PartialStatusRows(s, s.rows[d], d, status, reason, ride, if budget < 3 then budget else 3);
    assert ws[..3] == ws;
  }

  lemma MoveAttempt(s: DriverState, d: DriverId, lat: real, lng: real, budget: nat)
    requires d in s.rows
    ensures var t := Attempt(s, PlanLocation(s, d, lat, lng), budget);
            var available := s.rows[d].status == Available;
            && t.rows == (if budget < (if available then 2 else 1) then s.rows
                          else s.rows[d := s.rows[d].(lat := Some(lat), lng := Some(lng))])
            && t.pool == (if available && budget > 0 then Add(s.pool, d, Point(lat, lng)) else s.pool)
  {
    var move, store := GeoMove(d, lat, lng), SetLocation(d, lat, lng);
    var tell := PublishLocation(LocationEvent(d, lat, lng));
    var ws := PlanLocation(s, d, lat, lng).writes;
    if s.rows[d].status == Available {
      assert ws == [move, store, tell] && ws[..1] == [move] && ws[..2] == [move, store];
      PerformTwo(s, move, store);
      PerformThree(s, move, store, tell);
    } else {
      assert ws == [store, tell] && ws[..1] == [store];
      PerformTwo(s, store, tell);
    }
  }

  /** The photo handler: first the flag, then, for a driver who is available, the three writes of going offline. */
  lemma PhotoAttempt(s: DriverState, e: PhotoEvent, budget: nat)
    requires e.role == DriverRole && DriverOfUser(s.rows, e.user).Some?
    ensures var d := DriverOfUser(s.rows, e.user).value;
            var plan := PlanPhoto(s, e);
            var t := Attempt(s, plan, budget);
            var leaves := !e.hasPhoto && s.rows[d].status == Available;
            && |plan.writes| == (if leaves then 4 else 1)
            && t.rows == (if budget == 0 then s.rows
                          else
                            var status := if leaves && budget > 1 then Offline else s.rows[d].status;
                            s.rows[d := s.rows[d].(hasPhoto := e.hasPhoto, status := status)])
            && t.pool == (if leaves && budget > 2 then Remove(s.pool, d) else s.pool)
  {
    var d := DriverOfUser(s.rows, e.user).value;
    var plan := PlanPhoto(s, e);
    var flag := SetHasPhoto(d, e.hasPhoto);
    PerformTwo(s, flag, flag);
    if !e.hasPhoto && s.rows[d].status == Available {
      var ws := StatusWrites(d, s.rows[d], Offline, Some(PhotoRemoved), None);
      assert plan.writes == [flag] + ws;
      var n: nat := if budget == 0 then 0 else if budget < 4 then budget - 1 else 3;
      PerformConcat(s, [flag], ws[..n]);
      PartialStatusRows(Perform(s, flag), s.rows[d], d, Offline, Some(PhotoRemoved), None, n);
      assert ws[..3] == ws;
      assert 0 < budget < 4 ==> plan.writes[..budget] == [flag] + ws[..n];
    } else {
      assert plan.writes == [flag];
    }
  }

  lemma CreateAttempt(s: DriverState, step: Step, budget: nat)
    requires step.Create?
    ensures var t := Attempt(s, DriverPlan(s, step), budget);
            && (t == s || t == PerformAll(s, DriverPlan(s, step).writes))
  {
    var ws := DriverPlan(s, step).writes;
    assert |ws| <= 1;
    if budget < |ws| { assert ws[..budget] == []; }
  }

  /** Nobody is newly available without a photo, and nobody's user changes. */
  ghost predicate NoNewGhost(before: map<DriverId, DriverRow>, after: map<DriverId, DriverRow>) {
    && UniqueUsers(after)
    && forall d | d in after && after[d].status == Available && !after[d].hasPhoto ::
         && d in before && before[d].userId == after[d].userId
         && before[d].status == Available && !before[d].hasPhoto
  }

  lemma StatusMakesNoGhost(s: DriverState, d: DriverId, status: DriverStatus, reason: Option<Reason>,
                           ride: Option<RideId>, budget: nat)
    requires UniqueUsers(s.rows) && d in s.rows && (status == Available ==> s.rows[d].hasPhoto)
    ensures NoNewGhost(s.rows, Attempt(s, Plan(Done, StatusWrites(d, s.rows[d], status, reason, ride)), budget).rows)
  {
    StatusAttempt(s, d, status, reason, ride, budget);
  }

  lemma HandleMakesNoGhost(s: DriverState, step: Step, budget: nat)
    requires UniqueUsers(s.rows) && !step.Photo? && !step.MatchRide? && (step.Create? ==> step.newId !in s.rows)
    ensures NoNewGhost(s.rows, Attempt(s, DriverPlan(s, step), budget).rows)
  {
    var plan := DriverPlan(s, step);
    if plan.writes != [] {
      match step
      case Create(_, _, _, _, _) =>
        CreateAttempt(s, step, budget);
        StepMakes(s, step);
      case Patch(id, status) => StatusMakesNoGhost(s, id, status, None, None, budget);
      case Ping(id, lat, lng) => MoveAttempt(s, id, lat, lng, budget);
      case Assign(e) => StatusMakesNoGhost(s, e.driver, Busy, Some(RideAssigned), Some(e.ride), budget);
      case Finish(e) =>
        var d := e.driver.value;
        StatusMakesNoGhost(s, d, if s.rows[d].hasPhoto then Available else Offline,
                           Some(if e.status == Cancelled then RideCancelled else RideCompleted), Some(e.ride), budget);
    }
  }

  lemma HandleKeepsSafe(v: Service, step: Step, budget: nat)
    requires Safe(v) && CanHappen(v, Handle(step, budget))
    ensures Safe(Run(v, Handle(step, budget)))
  {
    var u := Run(v, Handle(step, budget));
    HandleMakesNoGhost(v.drivers, step, budget);
    forall d | d in u.drivers.rows && u.drivers.rows[d].status == Available && !u.drivers.rows[d].hasPhoto
      ensures RemovalUncommitted(u, u.drivers.rows[d].userId)
    {
      assert RemovalUncommitted(v, u.drivers.rows[d].userId);
    }
  }

  lemma PhotoKeepsSafe(v: Service, budget: nat)
    requires Safe(v) && CanHappen(v, HandlePhoto(budget))
    ensures Safe(Run(v, HandlePhoto(budget)))
  {
    var u := Run(v, HandlePhoto(budget));
    var e := v.topic[v.offset];
    var driver := DriverOfUser(v.drivers.rows, e.user);
    if e.role == DriverRole && driver.Some? {
      PhotoAttempt(v.drivers, e, budget);
    }
    forall d | d in u.drivers.rows && u.drivers.rows[d].status == Available && !u.drivers.rows[d].hasPhoto
      ensures RemovalUncommitted(u, u.drivers.rows[d].userId)
    {
      var user := v.drivers.rows[d].userId;
      if v.drivers.rows[d].hasPhoto {
        assert e == PhotoEvent(user, DriverRole, false) && u.offset == v.offset;
      } else {
        var k :| v.offset <= k < |v.topic| && v.topic[k] == PhotoEvent(user, DriverRole, false);
        if k == v.offset {
          assert driver == Some(d);
        }
      }
    }
  }

  lemma {:induction false} RunKeepsSafe(v: Service, events: seq<Event>)
    requires Safe(v) && Happens(v, events)
    ensures Safe(RunAll(v, events))
    decreases |events|
  {
    if events != [] {
      var e := events[0];
      match e {
        case Handle(step, budget) => HandleKeepsSafe(v, step, budget);
        case HandlePhoto(budget) => PhotoKeepsSafe(v, budget);
        case Rewind(to) =>
          forall user | RemovalUncommitted(v, user) ensures RemovalUncommitted(Run(v, e), user) {}
        case PublishPhoto(photo) =>
          forall user | RemovalUncommitted(v, user) ensures RemovalUncommitted(Run(v, e), user) {
            var k :| v.offset <= k < |v.topic| && v.topic[k] == PhotoEvent(user, DriverRole, false);
            assert (v.topic + [photo])[k] == v.topic[k];
          }
        case ClaimDriver(d) =>
          forall user | RemovalUncommitted(v, user) ensures RemovalUncommitted(Run(v, e), user) {}
      }
      RunKeepsSafe(Run(v, e), events[1..]);
    }
  }

  const EMPTY_SERVICE := Service(NO_DRIVERS, [], 0)

  /** From the empty system on, however attempts fail, offsets fall back and messages interleave: a row that is
      AVAILABLE without a photo is one whose removal event has not been committed. */
  lemma AvailableWithoutPhotoIsPending(events: seq<Event>, d: DriverId)
    requires Happens(EMPTY_SERVICE, events)
    ensures var v := RunAll(EMPTY_SERVICE, events);
            d in v.drivers.rows && v.drivers.rows[d].status == Available && !v.drivers.rows[d].hasPhoto ==>
              RemovalUncommitted(v, v.drivers.rows[d].userId)
  {
    RunKeepsSafe(EMPTY_SERVICE, events);
  }

  // ---------------------------------------------------------------------------------------------
  // The exact index does not survive every failure, and a retry does not repair it
  // ---------------------------------------------------------------------------------------------

  /** A status change that stops after `budget` writes keeps the index exact, except when the database has the
      new status, Redis was not told, and the pool needed telling. */
  lemma PartialStatusChange(s: DriverState, d: DriverId, status: DriverStatus, reason: Option<Reason>,
                            ride: Option<RideId>, budget: nat)
    requires ExactIndex(s) && d in s.rows
    ensures ExactIndex(Attempt(s, Plan(Done, StatusWrites(d, s.rows[d], status, reason, ride)), budget)) <==>
              || budget != 1
              || (status != Available && d !in s.pool.members)
              || (status == Available && (s.rows[d].status == Available || s.rows[d].lat.None? || s.rows[d].lng.None?
                                          || ClaimedLast(s.pool.commands, d)))
  {
    var t := Attempt(s, Plan(Done, StatusWrites(d, s.rows[d], status, reason, ride)), budget);
    StatusAttempt(s, d, status, reason, ride, budget);
    assert IndexAgrees(s, d);
    if budget >= 2 {
      StatusKeepsIndex(s, d, status, reason, ride);
      SameIndex(WithStatus(s, d, status, reason, ride), t);
    } else {
      forall e | e != d ensures IndexAgrees(t, e) {
        assert IndexAgrees(s, e);
      }
      assert ExactIndex(t) <==> IndexAgrees(t, d);
    }
  }

  /** A photo event that stops early keeps the index exact, except when a pooled driver whose photo was removed
      has the flag and OFFLINE in the database, and Redis was not told. */
  lemma PartialPhoto(s: DriverState, e: PhotoEvent, budget: nat)
    requires ExactIndex(s)
    ensures ExactIndex(Attempt(s, PlanPhoto(s, e), budget)) <==> budget != 2 || !RemovesFromPool(s, e)
  {
    var t := Attempt(s, PlanPhoto(s, e), budget);
    var driver := DriverOfUser(s.rows, e.user);
    if e.role != DriverRole || driver.None? {
      assert t == s;
    } else {
      PhotoAttempt(s, e, budget);
      assert IndexAgrees(s, driver.value);
      forall d | d != driver.value ensures IndexAgrees(t, d) {
        assert IndexAgrees(s, d);
      }
      if budget > 2 {
        PhotoKeepsIndex(s, driver.value, e.hasPhoto);
        PhotoWritesDo(s, e);
        assert IndexAgrees(WithPhoto(s, driver.value, e.hasPhoto), driver.value);
      }
      assert ExactIndex(t) <==> IndexAgrees(t, driver.value);
    }
  }

  /** The event says that a pooled driver has no photo any more. */
  ghost predicate RemovesFromPool(s: DriverState, e: PhotoEvent) {
    && e.role == DriverRole && !e.hasPhoto
    && DriverOfUser(s.rows, e.user).Some?
    && DriverOfUser(s.rows, e.user).value in s.pool.members
  }

  lemma SameIndex(s: DriverState, t: DriverState)
    requires ExactIndex(s) && s.rows == t.rows && s.pool == t.pool
    ensures ExactIndex(t)
  {
    forall d ensures IndexAgrees(t, d) { assert IndexAgrees(s, d); }
  }

  /** A ping of an available driver that moves them in Redis but not in the database breaks the index,
      unless they did not move. */
  lemma PartialPing(s: DriverState, d: DriverId, lat: real, lng: real, budget: nat)
    requires ExactIndex(s) && d in s.rows
    ensures ExactIndex(Attempt(s, PlanLocation(s, d, lat, lng), budget)) <==>
              || budget != 1
              || s.rows[d].status != Available
              || (s.rows[d].lat == Some(lat) && s.rows[d].lng == Some(lng))
  {
    var t := Attempt(s, PlanLocation(s, d, lat, lng), budget);
    MoveAttempt(s, d, lat, lng, budget);
    var moved := WithPosition(s, d, lat, lng);
    PositionKeepsIndex(s, d, lat, lng);
    if budget >= 2 || (budget == 1 && s.rows[d].status != Available) {
      SameIndex(moved, t);
    } else if budget == 1 {
      if s.rows[d].lat == Some(lat) && s.rows[d].lng == Some(lng) {
        assert s.rows == moved.rows;
        SameIndex(moved, t);
      } else {
        assert !IndexAgrees(t, d);
      }
    } else {
      SameIndex(s, t);
    }
  }

  /** The handlers that stopped between the database and Redis find nothing left to do on the retry: they
      answer success and leave the pool as it was. */
  lemma RetryReturnsEarly(s: DriverState, a: Assigned, f: Finished)
    ensures var plan := PlanAssigned(s, a);
            plan.writes != [] ==>
              var stopped := Attempt(s, plan, 1);
              PlanAssigned(stopped, a) == Plan(Ignored, []) && stopped.pool == s.pool
    ensures var plan := PlanFinished(s, f);
            plan.writes != [] ==>
              var stopped := Attempt(s, plan, 1);
              PlanFinished(stopped, f) == Plan(Ignored, []) && stopped.pool == s.pool
  {
    if PlanAssigned(s, a).writes != [] {
      StatusAttempt(s, a.driver, Busy, Some(RideAssigned), Some(a.ride), 1);
    }
    if PlanFinished(s, f).writes != [] {
      var d := f.driver.value;
      StatusAttempt(s, d, if s.rows[d].hasPhoto then Available else Offline,
                    Some(if f.status == Cancelled then RideCancelled else RideCompleted), Some(f.ride), 1);
    }
  }

  /** So a driver pinged back into the pool before `driver.assigned`, whose handler then loses Redis once, is busy,
      claimable, and stays so after the successful retry. */
  lemma BusyAndStillPooled(s: DriverState, a: Assigned)
    requires ExactIndex(s) && a.driver in s.pool.members
    ensures var stopped := Attempt(s, PlanAssigned(s, a), 1);
            var retried := Attempt(stopped, PlanAssigned(stopped, a), 3);
            && a.driver in retried.rows && retried.rows[a.driver].status == Busy && a.driver in retried.pool.members
            && !ExactIndex(retried)
  {
    assert IndexAgrees(s, a.driver);
    StatusAttempt(s, a.driver, Busy, Some(RideAssigned), Some(a.ride), 1);
    RetryReturnsEarly(s, a, Finished(a.ride, None, Completed));
    var stopped := Attempt(s, PlanAssigned(s, a), 1);
    var retried := Attempt(stopped, PlanAssigned(stopped, a), 3);
    assert retried == stopped;
    assert !IndexAgrees(retried, a.driver);
  }

  /** After that stop the retry sets the flag once more, sees a driver who is not available, and commits: offline,
      without a photo, and claimable. */
  lemma OfflineAndStillPooled(s: DriverState, e: PhotoEvent, budget: nat)
    requires ExactIndex(s) && UniqueUsers(s.rows) && RemovesFromPool(s, e) && budget > 0
    ensures var d := DriverOfUser(s.rows, e.user).value;
            var stopped := Attempt(s, PlanPhoto(s, e), 2);
            var again := PlanPhoto(stopped, e);
            var retried := Attempt(stopped, again, budget);
            && ReplyOf(PlanPhoto(s, e), 2) == ServerError && ReplyOf(again, budget) == Done
            && again.writes == [SetHasPhoto(d, false)]
            && d in retried.pool.members && d in retried.rows
            && retried.rows[d].status == Offline && !retried.rows[d].hasPhoto
            && !ExactIndex(retried)
  {
    var d := DriverOfUser(s.rows, e.user).value;
    assert IndexAgrees(s, d);
    PhotoAttempt(s, e, 2);
    var stopped := Attempt(s, PlanPhoto(s, e), 2);
    assert stopped.rows[d].userId == e.user;
    assert DriverOfUser(stopped.rows, e.user) == Some(d);
    PhotoAttempt(stopped, e, budget);
    assert !IndexAgrees(Attempt(stopped, PlanPhoto(stopped, e), budget), d);
  }

  /** Wherever the attempt stopped: one clean retry leaves the index exact unless that was the stop. */
  lemma PhotoRetryRepairsIff(s: DriverState, e: PhotoEvent, budget: nat)
    requires ExactIndex(s) && UniqueUsers(s.rows)
    ensures var stopped := Attempt(s, PlanPhoto(s, e), budget);
            ExactIndex(Attempt(stopped, PlanPhoto(stopped, e), 4)) <==> budget != 2 || !RemovesFromPool(s, e)
  {
    PartialPhoto(s, e, budget);
    var stopped := Attempt(s, PlanPhoto(s, e), budget);
    if budget == 2 && RemovesFromPool(s, e) {
      OfflineAndStillPooled(s, e, 4);
    } else {
      PartialPhoto(stopped, e, 4);
    }
  }
}
