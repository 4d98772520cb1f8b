/**
 The whole protocol over its message logs: a driver is never on two unfinished rides.

 The code enforces this only under a delivery discipline, and `Allowed` is that discipline: one claim
 per ride, one delivery of each assignment to driver-service, and no ping or manual AVAILABLE from a
 driver between the claim and the handling of their `driver.assigned`. Everything else is free: order,
 delays, lost messages, any number of finish events for a ride and any number of deliveries of each.

 That is not enough: ride-service publishes a finish event whenever a ride is patched to COMPLETED or
 CANCELLED, and a second one can free the driver from another ride. `IsLate` names that input, and
 nobody is freed in the middle of a ride if and only if it does not happen.
 */
module Exclusion {
  import opened Wrappers
  import opened GeoPool
  import opened Drivers
  import opened Matching
  import opened Dispatch
  import opened DispatchRuns
  import opened Rides

  /** `handled`: the assignments driver-service has handled, as positions in the topic.
      `over`: the rides whose finish, naming a driver, driver-service has handled. */
  datatype World = World(dispatch: System, ride: RideState, handled: set<nat>, over: set<RideId>)

  const EMPTY_WORLD := World(EMPTY_SYSTEM, NO_RIDES, {}, {})

  datatype Move =
    | DriverSide(step: Step)
    | RideSide(rideStep: RideStep)
    | Rematch(request: RideRequest, call: ClaimCall, published: bool)
    | DriverTakesAssignment(i: nat)
    | RideTakesAssignment(i: nat, told: bool)
    | DriverTakesFinish(j: nat)

  function Assignments(w: World): seq<Assigned> {
    w.dispatch.matching.assignments
  }

  predicate Pooled(w: World, d: DriverId) {
    d in w.dispatch.drivers.pool.members
  }

  predicate IsBusy(w: World, d: DriverId) {
    d in w.dispatch.drivers.rows && w.dispatch.drivers.rows[d].status == Busy
  }

  /** `d` was claimed, and the assignment has not reached driver-service yet. */
  predicate InWindow(w: World, d: DriverId) {
    exists i | 0 <= i < |Assignments(w)| :: Assignments(w)[i].driver == d && i !in w.handled
  }

  /** The message driver-service sees, if the event is one that ends a ride. */
  function AsFinish(e: RideEvent): Option<Finished> {
    match e
    case RideCompletedEvent(ride, _, driver, _, _, _, _, _) => Some(Finished(ride, driver, Completed))
    case StatusUpdated(ride, _, driver, status, _) =>
      if status == Cancelled then Some(Finished(ride, driver, Cancelled)) else None
    case RideRequested(_, _, _, _) => None
  }

  /** What the assumptions forbid a driver in the window to send. */
  predicate Announces(step: Step, d: DriverId) {
    (step.Ping? && step.id == d) || (step.Patch? && step.id == d && step.status == Available)
  }

  predicate Allowed(w: World, m: Move) {
    match m
    case DriverSide(step) =>
      && (step.Create? || step.Patch? || step.Ping? || step.Photo?)
      && Possible(w.dispatch, step)
      && (forall i | 0 <= i < |Assignments(w)| && i !in w.handled :: !Announces(step, Assignments(w)[i].driver))
    case RideSide(step) => !step.AssignRide? && PossibleRide(w.ride, step)
    case Rematch(request, call, published) =>
      && Possible(w.dispatch, MatchRide(request, call, published))
      && (call.Answered? && call.answer.Some? && published ==>
            forall i | 0 <= i < |Assignments(w)| :: Assignments(w)[i].ride != request.ride)
    case DriverTakesAssignment(i) => i < |Assignments(w)| && i !in w.handled
    case RideTakesAssignment(i, _) => i < |Assignments(w)|
    case DriverTakesFinish(j) =>
      && j < |w.ride.log|
      && AsFinish(w.ride.log[j]).Some?
  }

  ghost function Next(w: World, m: Move): World
    requires Allowed(w, m)
  {
    match m
    case DriverSide(step) => w.(dispatch := Apply(w.dispatch, step))
    case RideSide(step) => w.(ride := ApplyRide(w.ride, step))
    case Rematch(request, call, published) => w.(dispatch := Apply(w.dispatch, MatchRide(request, call, published)))
    case DriverTakesAssignment(i) =>
      w.(dispatch := Apply(w.dispatch, Assign(Assignments(w)[i])), handled := w.handled + {i})
    case RideTakesAssignment(i, told) => w.(ride := ApplyRide(w.ride, AssignRide(Assignments(w)[i], told)))
    case DriverTakesFinish(j) =>
      var e := AsFinish(w.ride.log[j]).value;
      w.(dispatch := Apply(w.dispatch, Finish(e)), over := if e.driver.Some? then w.over + {e.ride} else w.over)
  }

  ghost predicate Disciplined(w: World, moves: seq<Move>)
    decreases |moves|
  {
    moves == [] || (Allowed(w, moves[0]) && Disciplined(Next(w, moves[0]), moves[1..]))
  }

  ghost function After(w: World, moves: seq<Move>): World
    requires Disciplined(w, moves)
    decreases |moves|
  {
    if moves == [] then w else After(Next(w, moves[0]), moves[1..])
  }

  // ---------------------------------------------------------------------------------------------
  // The ride a driver is on, by driver-service's own topic
  // ---------------------------------------------------------------------------------------------

  function LastStatus(log: seq<StatusEvent>, d: DriverId): Option<StatusEvent> {
    if log == [] then None
    else if log[|log| - 1].driver == d then Some(log[|log| - 1])
    else LastStatus(log[..|log| - 1], d)
  }

  lemma LastStatusAppended(log: seq<StatusEvent>, e: StatusEvent, d: DriverId)
    ensures LastStatus(log + [e], d) == if e.driver == d then Some(e) else LastStatus(log, d)
  {
    assert (log + [e])[..|log|] == log;
  }

  /** The last thing published about `d` is that ride `r` was assigned. */
  predicate IsOn(s: DriverState, d: DriverId, r: RideId) {
    LastStatus(s.statusLog, d) == Some(StatusEvent(d, Busy, Some(RideAssigned), Some(r)))
  }

  /** How one step moves one driver in and out of BUSY and into the pool. */
  lemma BusyChanges(sys: System, step: Step, d: DriverId)
    requires Sound(sys) && Possible(sys, step) && !step.MatchRide? && d in sys.drivers.rows
    ensures var s, t := sys.drivers, Apply(sys, step).drivers;
            && d in t.rows
            && (s.rows[d].status != Busy && t.rows[d].status == Busy <==>
                  s.rows[d].status != Busy && step.Assign? && step.assignment.driver == d)
            && (s.rows[d].status != Busy && t.rows[d].status == Busy ==> IsOn(t, d, step.assignment.ride))
            && (s.rows[d].status == Busy && t.rows[d].status != Busy <==>
                  s.rows[d].status == Busy && step.Finish? && step.finished.driver == Some(d))
            && (s.rows[d].status == Busy && t.rows[d].status == Busy ==>
                  LastStatus(t.statusLog, d) == LastStatus(s.statusLog, d))
  {
    StepMakes(sys.drivers, step);
    StatusOfStep(sys, step, d);
    LastStatusOfChange(sys.drivers, ChangeOf(sys.drivers, step), d);
  }

  lemma LastStatusOfChange(s: DriverState, c: Change, d: DriverId)
    requires AboutKnownDriver(s, c) && d in s.rows
    ensures LastStatus(Make(s, c).statusLog, d) ==
              if c.NewStatus? && c.driver == d then Some(StatusEvent(d, c.status, c.reason, c.ride))
              else if c.NewFlag? && c.driver == d && !c.hasPhoto && s.rows[d].status == Available
              then Some(StatusEvent(d, Offline, Some(PhotoRemoved), None))
              else LastStatus(s.statusLog, d)
  {
    if c.NewStatus? {
      LastStatusAppended(s.statusLog, StatusEvent(c.driver, c.status, c.reason, c.ride), d);
    } else if c.NewFlag? {
      LastStatusAppended(s.statusLog, StatusEvent(c.driver, Offline, Some(PhotoRemoved), None), d);
    }
  }

  // ---------------------------------------------------------------------------------------------
  // The invariant
  // ---------------------------------------------------------------------------------------------

  /** Assignment `i` is behind its driver: handled, and its ride over. */
  predicate Behind(w: World, i: nat)
    requires i < |Assignments(w)|
  {
    i in w.handled && Assignments(w)[i].ride in w.over
  }

  /** Some assignment of `d` is not behind them. */
  ghost predicate HasUnfinished(w: World, d: DriverId) {
    exists i: nat :: i < |Assignments(w)| && Assignments(w)[i].driver == d && !Behind(w, i)
  }

  /** A finish of a ride that was over already reaches a driver who is busy and has an unfinished ride. */
  ghost predicate IsLate(w: World, m: Move)
    requires Allowed(w, m)
  {
    && m.DriverTakesFinish?
    && var e := AsFinish(w.ride.log[m.j]).value;
    && e.driver.Some? && IsBusy(w, e.driver.value)
    && e.ride in w.over && HasUnfinished(w, e.driver.value)
  }

  /** No finish of the run is late. */
  ghost predicate NeverLate(w: World, moves: seq<Move>)
    requires Disciplined(w, moves)
    decreases |moves|
  {
    moves == [] || (!IsLate(w, moves[0]) && NeverLate(Next(w, moves[0]), moves[1..]))
  }

  /** Whoever has been told of an assignment whose ride is not over is busy. */
  ghost predicate RidingIsBusy(w: World) {
    forall i: nat | i < |Assignments(w)| && i in w.handled && Assignments(w)[i].ride !in w.over ::
      IsBusy(w, Assignments(w)[i].driver)
  }

  /** ... in every world of the run. */
  ghost predicate StaysBusy(w: World, moves: seq<Move>)
    requires Disciplined(w, moves)
    decreases |moves|
  {
    RidingIsBusy(w) && (moves == [] || StaysBusy(Next(w, moves[0]), moves[1..]))
  }

  /** A driver has at most one assignment that is not behind them. */
  ghost predicate OneAtATime(w: World) {
    forall i: nat, j: nat | i < |Assignments(w)| && j < |Assignments(w)| && i != j
                            && Assignments(w)[i].driver == Assignments(w)[j].driver ::
      Behind(w, i) || Behind(w, j)
  }

  /** Between the claim and its handling the driver is not busy and not pooled; after it, busy until the ride
      is over. */
  ghost predicate Phases(w: World) {
    forall i: nat | i < |Assignments(w)| ::
      && var d := Assignments(w)[i].driver;
      && d in w.dispatch.drivers.rows
      && (i !in w.handled ==> !IsBusy(w, d) && !Pooled(w, d))
      && (i in w.handled && Assignments(w)[i].ride !in w.over ==> IsBusy(w, d))
  }

  /** Assignment `i` is the one that made `d` busy, and the only one that may not be behind them. */
  ghost predicate IsCurrent(w: World, d: DriverId, i: nat) {
    && i < |Assignments(w)| && i in w.handled && Assignments(w)[i].driver == d
    && IsOn(w.dispatch.drivers, d, Assignments(w)[i].ride)
    && forall j: nat | j < |Assignments(w)| && j != i && Assignments(w)[j].driver == d :: Behind(w, j)
  }

  ghost predicate BusyIsOnARide(w: World) {
    forall d | IsBusy(w, d) :: exists i: nat :: IsCurrent(w, d, i)
  }

  ghost predicate ClaimedOnce(w: World) {
    forall i: nat, j: nat | i < |Assignments(w)| && j < |Assignments(w)|
                            && Assignments(w)[i].ride == Assignments(w)[j].ride ::
      i == j
  }

  /** Rows and events name a driver only if that driver was claimed for that ride. */
  ghost predicate NamesComeFromClaims(w: World) {
    && (forall r | r in w.ride.rides && w.ride.rides[r].driver.Some? ::
          Assigned(r, w.ride.rides[r].driver.value) in Assignments(w))
    && (forall j | 0 <= j < |w.ride.log|
                   && AsFinish(w.ride.log[j]).Some? && AsFinish(w.ride.log[j]).value.driver.Some? ::
          Assigned(w.ride.log[j].ride, AsFinish(w.ride.log[j]).value.driver.value) in Assignments(w))
  }

  ghost predicate Inv(w: World) {
    && Sound(w.dispatch)
    && (forall i | i in w.handled :: i < |Assignments(w)|)
    && OneAtATime(w) && Phases(w) && BusyIsOnARide(w) && ClaimedOnce(w) && NamesComeFromClaims(w)
  }

  lemma PooledIsFree(w: World, d: DriverId)
    requires Inv(w) && Pooled(w, d)
    ensures d in w.dispatch.drivers.rows && !IsBusy(w, d)
    ensures forall i: nat | i < |Assignments(w)| && Assignments(w)[i].driver == d :: Behind(w, i)
  {
    assert IndexAgrees(w.dispatch.drivers, d);
  }

  /** What keeps an assignment current. */
  lemma CurrentKept(w: World, v: World, d: DriverId, i: nat)
    requires IsCurrent(w, d, i)
    requires Assignments(w) <= Assignments(v) && w.handled <= v.handled && w.over <= v.over
    requires LastStatus(v.dispatch.drivers.statusLog, d) == LastStatus(w.dispatch.drivers.statusLog, d)
    requires forall j: nat | |Assignments(w)| <= j < |Assignments(v)| :: Assignments(v)[j].driver != d
    ensures IsCurrent(v, d, i)
  {
    forall j: nat | j < |Assignments(v)| && j != i && Assignments(v)[j].driver == d ensures Behind(v, j) {
      assert Assignments(v)[j] == Assignments(w)[j];
      assert Behind(w, j);
    }
  }

  /** Two worlds that differ in nothing the protocol is about. */
  lemma InvCarriesOver(w: World, v: World)
    requires Inv(w) && Sound(v.dispatch) && NamesComeFromClaims(v)
    requires v.handled == w.handled && v.over == w.over && Assignments(v) == Assignments(w)
    requires w.dispatch.drivers.rows.Keys <= v.dispatch.drivers.rows.Keys
    requires forall d :: IsBusy(v, d) <==> IsBusy(w, d)
    requires forall d | IsBusy(w, d) ::
               LastStatus(v.dispatch.drivers.statusLog, d) == LastStatus(w.dispatch.drivers.statusLog, d)
    requires forall i: nat | i < |Assignments(w)| && i !in w.handled :: !Pooled(v, Assignments(w)[i].driver)
    ensures Inv(v)
  {
    forall d | IsBusy(v, d)
      ensures exists i: nat :: IsCurrent(v, d, i)
    {
      assert IsBusy(w, d);
      var i: nat :| IsCurrent(w, d, i);
      CurrentKept(w, v, d, i);
    }
    forall i: nat, j: nat | i < |Assignments(v)| && j < |Assignments(v)| && i != j
                            && Assignments(v)[i].driver == Assignments(v)[j].driver
      ensures Behind(v, i) || Behind(v, j)
    {
      assert Behind(w, i) || Behind(w, j);
    }
  }

  lemma DriverSideKeeps(w: World, step: Step)
    requires Inv(w) && Allowed(w, DriverSide(step))
    ensures Inv(Next(w, DriverSide(step)))
  {
    PoolStep(w.dispatch, step);
    DriverSideEffect(w, step);
    InvCarriesOver(w, Next(w, DriverSide(step)));
  }

  lemma DriverSideEffect(w: World, step: Step)
    requires Inv(w) && Allowed(w, DriverSide(step))
    ensures var v := Next(w, DriverSide(step));
            && (forall d :: IsBusy(v, d) <==> IsBusy(w, d))
            && (forall d | IsBusy(w, d) ::
                  LastStatus(v.dispatch.drivers.statusLog, d) == LastStatus(w.dispatch.drivers.statusLog, d))
            && (forall i: nat | i < |Assignments(w)| && i !in w.handled :: !Pooled(v, Assignments(w)[i].driver))
  {
    var v := Next(w, DriverSide(step));
    forall d
      ensures IsBusy(v, d) <==> IsBusy(w, d)
      ensures IsBusy(w, d) ==>
                LastStatus(v.dispatch.drivers.statusLog, d) == LastStatus(w.dispatch.drivers.statusLog, d)
    {
      if d in w.dispatch.drivers.rows {
        BusyChanges(w.dispatch, step, d);
      } else {
        StepMakes(w.dispatch.drivers, step);
      }
    }
    forall i: nat | i < |Assignments(w)| && i !in w.handled
      ensures !Pooled(v, Assignments(w)[i].driver)
    {
      EnteringThePool(w.dispatch, step, Assignments(w)[i].driver);
    }
  }

  lemma PoolStep(sys: System, step: Step)
    requires Sound(sys) && Possible(sys, step)
    ensures Sound(Apply(sys, step))
    ensures sys.drivers.rows.Keys <= Apply(sys, step).drivers.rows.Keys
    ensures !step.MatchRide? ==> Apply(sys, step).matching == sys.matching
  {
    StepKeepsIndex(sys, step);
    StepKeepsTable(sys, step);
  }

  lemma RematchKeeps(w: World, request: RideRequest, call: ClaimCall, published: bool)
    requires Inv(w) && Allowed(w, Rematch(request, call, published))
    ensures Inv(Next(w, Rematch(request, call, published)))
  {
    var v := Next(w, Rematch(request, call, published));
    PoolStep(w.dispatch, MatchRide(request, call, published));
    var n := |Assignments(w)|;
    if Assignments(v) != Assignments(w) {
      var d := call.answer.value;
      PooledIsFree(w, d);
      assert Assignments(v) == Assignments(w) + [Assigned(request.ride, d)];
    }
    forall e | IsBusy(v, e)
      ensures exists i: nat :: IsCurrent(v, e, i)
    {
      assert IsBusy(w, e);
      var i: nat :| IsCurrent(w, e, i);
      CurrentKept(w, v, e, i);
    }
    forall i: nat, j: nat | i < |Assignments(v)| && j < |Assignments(v)| && i != j
                            && Assignments(v)[i].driver == Assignments(v)[j].driver
      ensures Behind(v, i) || Behind(v, j)
    {
      assert i < n && j < n ==> Behind(w, i) || Behind(w, j);
    }
  }

  lemma AssignmentEffect(w: World, i: nat)
    requires Inv(w) && Allowed(w, DriverTakesAssignment(i))
    ensures var v, d := Next(w, DriverTakesAssignment(i)), Assignments(w)[i].driver;
            && !IsBusy(w, d) && IsOn(v.dispatch.drivers, d, Assignments(w)[i].ride)
            && (forall e :: IsBusy(v, e) <==> IsBusy(w, e) || e == d)
            && (forall e | IsBusy(w, e) ::
                  LastStatus(v.dispatch.drivers.statusLog, e) == LastStatus(w.dispatch.drivers.statusLog, e))
            && (forall e | Pooled(v, e) :: Pooled(w, e))
  {
    var v, d, step := Next(w, DriverTakesAssignment(i)), Assignments(w)[i].driver, Assign(Assignments(w)[i]);
    BusyChanges(w.dispatch, step, d);
    forall e
      ensures IsBusy(v, e) <==> IsBusy(w, e) || e == d
      ensures IsBusy(w, e) ==>
                LastStatus(v.dispatch.drivers.statusLog, e) == LastStatus(w.dispatch.drivers.statusLog, e)
      ensures Pooled(v, e) ==> Pooled(w, e)
    {
      if e in w.dispatch.drivers.rows {
        BusyChanges(w.dispatch, step, e);
      } else {
        StepMakes(w.dispatch.drivers, step);
      }
      if !Pooled(w, e) { EnteringThePool(w.dispatch, step, e); }
    }
  }

  lemma AssignmentKeeps(w: World, i: nat)
    requires Inv(w) && Allowed(w, DriverTakesAssignment(i))
    ensures Inv(Next(w, DriverTakesAssignment(i)))
  {
    var v, d := Next(w, DriverTakesAssignment(i)), Assignments(w)[i].driver;
    PoolStep(w.dispatch, Assign(Assignments(w)[i]));
    AssignmentEffect(w, i);
    forall j: nat | j < |Assignments(w)| && j != i && Assignments(w)[j].driver == d
      ensures Behind(w, j) && Behind(v, j)
    {
      assert Behind(w, i) || Behind(w, j);
    }
    assert IsCurrent(v, d, i);
    forall e | IsBusy(v, e)
      ensures exists k: nat :: IsCurrent(v, e, k)
    {
      if e != d {
        assert IsBusy(w, e);
        var k: nat :| IsCurrent(w, e, k);
        CurrentKept(w, v, e, k);
      }
    }
    forall k: nat, j: nat | k < |Assignments(v)| && j < |Assignments(v)| && k != j
                            && Assignments(v)[k].driver == Assignments(v)[j].driver
      ensures Behind(v, k) || Behind(v, j)
    {
      assert Behind(w, k) || Behind(w, j);
    }
  }

  /** The first finish of a ride to reach its busy driver is for the ride that driver is on. */
  lemma FinishIsForTheCurrentRide(w: World, j: nat, d: DriverId)
    requires Inv(w) && Allowed(w, DriverTakesFinish(j))
    requires AsFinish(w.ride.log[j]).value.driver == Some(d) && IsBusy(w, d) && w.ride.log[j].ride !in w.over
    ensures IsOn(w.dispatch.drivers, d, w.ride.log[j].ride) && HasUnfinished(w, d)
    ensures exists i: nat :: IsCurrent(w, d, i) && Assignments(w)[i].ride == w.ride.log[j].ride
  {
    var i: nat :| IsCurrent(w, d, i);
    var k :| 0 <= k < |Assignments(w)| && Assignments(w)[k] == Assigned(w.ride.log[j].ride, d);
    assert k == i;
    assert !Behind(w, i);
  }

  /** A busy driver with an unfinished ride is on that ride and no other. */
  lemma TheUnfinishedIsCurrent(w: World, d: DriverId) returns (i: nat)
    requires Inv(w) && IsBusy(w, d) && HasUnfinished(w, d)
    ensures IsCurrent(w, d, i) && Assignments(w)[i].ride !in w.over
  {
    i :| IsCurrent(w, d, i);
    var k: nat :| k < |Assignments(w)| && Assignments(w)[k].driver == d && !Behind(w, k);
    assert k == i;
  }

  lemma FinishEffect(w: World, j: nat)
    requires Inv(w) && Allowed(w, DriverTakesFinish(j))
    ensures var v, e := Next(w, DriverTakesFinish(j)), AsFinish(w.ride.log[j]).value;
            && (forall d :: IsBusy(v, d) <==> IsBusy(w, d) && e.driver != Some(d))
            && (forall d | IsBusy(v, d) ::
                  LastStatus(v.dispatch.drivers.statusLog, d) == LastStatus(w.dispatch.drivers.statusLog, d))
            && (forall d | Pooled(v, d) :: Pooled(w, d) || (IsBusy(w, d) && e.driver == Some(d)))
  {
    var v, e := Next(w, DriverTakesFinish(j)), AsFinish(w.ride.log[j]).value;
    StepMakes(w.dispatch.drivers, Finish(e));
    forall d
      ensures IsBusy(v, d) <==> IsBusy(w, d) && e.driver != Some(d)
      ensures IsBusy(v, d) ==>
                LastStatus(v.dispatch.drivers.statusLog, d) == LastStatus(w.dispatch.drivers.statusLog, d)
      ensures Pooled(v, d) ==> Pooled(w, d) || (IsBusy(w, d) && e.driver == Some(d))
    {
      if d in w.dispatch.drivers.rows { BusyChanges(w.dispatch, Finish(e), d); }
      if !Pooled(w, d) { EnteringThePool(w.dispatch, Finish(e), d); }
    }
  }

  lemma FinishKeeps(w: World, j: nat)
    requires Inv(w) && Allowed(w, DriverTakesFinish(j)) && !IsLate(w, DriverTakesFinish(j))
    ensures Inv(Next(w, DriverTakesFinish(j)))
  {
    var v := Next(w, DriverTakesFinish(j));
    PoolStep(w.dispatch, Finish(AsFinish(w.ride.log[j]).value));
    FinishEffect(w, j);
    forall k: nat | k < |Assignments(w)| && Behind(w, k) ensures Behind(v, k) {}
    FinishKeepsCurrent(w, j);
    FinishKeepsPhases(w, j);
    forall i: nat, k: nat | i < |Assignments(v)| && k < |Assignments(v)| && i != k
                            && Assignments(v)[i].driver == Assignments(v)[k].driver
      ensures Behind(v, i) || Behind(v, k)
    {
      assert Behind(w, i) || Behind(w, k);
    }
  }

  lemma FinishKeepsCurrent(w: World, j: nat)
    requires Inv(w) && Allowed(w, DriverTakesFinish(j))
    ensures BusyIsOnARide(Next(w, DriverTakesFinish(j)))
  {
    var v := Next(w, DriverTakesFinish(j));
    FinishEffect(w, j);
    forall d | IsBusy(v, d)
      ensures exists i: nat :: IsCurrent(v, d, i)
    {
      assert IsBusy(w, d);
      var i: nat :| IsCurrent(w, d, i);
      CurrentKept(w, v, d, i);
    }
  }

  lemma FinishKeepsPhases(w: World, j: nat)
    requires Inv(w) && Allowed(w, DriverTakesFinish(j)) && !IsLate(w, DriverTakesFinish(j))
    ensures Phases(Next(w, DriverTakesFinish(j)))
  {
    var v, e := Next(w, DriverTakesFinish(j)), AsFinish(w.ride.log[j]).value;
    PoolStep(w.dispatch, Finish(e));
    FinishEffect(w, j);
    forall i: nat | i < |Assignments(v)|
      ensures var d := Assignments(v)[i].driver;
              && d in v.dispatch.drivers.rows
              && (i !in v.handled ==> !IsBusy(v, d) && !Pooled(v, d))
              && (i in v.handled && Assignments(v)[i].ride !in v.over ==> IsBusy(v, d))
    {
      var d := Assignments(w)[i].driver;
      if e.driver == Some(d) && IsBusy(w, d) && !Behind(w, i) {
        FinishIsForTheCurrentRide(w, j, d);
        var k: nat :| IsCurrent(w, d, k) && Assignments(w)[k].ride == e.ride;
        assert i == k;
      }
    }
  }

  /** A late finish frees its driver in the middle of a ride. */
  lemma LateFreesMidRide(w: World, j: nat)
    requires Inv(w) && Allowed(w, DriverTakesFinish(j)) && IsLate(w, DriverTakesFinish(j))
    ensures !RidingIsBusy(Next(w, DriverTakesFinish(j)))
  {
    FinishEffect(w, j);
    var i := TheUnfinishedIsCurrent(w, AsFinish(w.ride.log[j]).value.driver.value);
    assert Next(w, DriverTakesFinish(j)).over == w.over;
  }

  lemma RideNamesKept(w: World, m: Move)
    requires Inv(w) && Allowed(w, m) && (m.RideSide? || m.RideTakesAssignment?)
    ensures NamesComeFromClaims(Next(w, m))
  {
    var v := Next(w, m);
    if m.RideTakesAssignment? {
      assert Assigned(Assignments(w)[m.i].ride, Assignments(w)[m.i].driver) in Assignments(v);
    }
    forall j | 0 <= j < |v.ride.log| && AsFinish(v.ride.log[j]).Some? && AsFinish(v.ride.log[j]).value.driver.Some?
      ensures Assigned(v.ride.log[j].ride, AsFinish(v.ride.log[j]).value.driver.value) in Assignments(v)
    {
      if j < |w.ride.log| {
        assert v.ride.log[j] == w.ride.log[j];
      }
    }
  }

  lemma RideKeeps(w: World, m: Move)
    requires Inv(w) && Allowed(w, m) && (m.RideSide? || m.RideTakesAssignment?)
    ensures Inv(Next(w, m))
  {
    RideNamesKept(w, m);
    assert Next(w, m).dispatch == w.dispatch;
    InvCarriesOver(w, Next(w, m));
  }

  /** A move of the discipline keeps the invariant exactly if it is not a late finish. */
  lemma MoveKeeps(w: World, m: Move)
    requires Inv(w) && Allowed(w, m)
    ensures Inv(Next(w, m)) <==> !IsLate(w, m)
  {
    match m
    case DriverSide(step) => DriverSideKeeps(w, step);
    case RideSide(_) => RideKeeps(w, m);
    case Rematch(request, call, published) => RematchKeeps(w, request, call, published);
    case DriverTakesAssignment(i) => AssignmentKeeps(w, i);
    case RideTakesAssignment(_, _) => RideKeeps(w, m);
    case DriverTakesFinish(j) => if IsLate(w, m) { LateFreesMidRide(w, j); } else { FinishKeeps(w, j); }
  }

  lemma {:induction false} RunKeeps(w: World, moves: seq<Move>)
    requires Inv(w) && Disciplined(w, moves) && NeverLate(w, moves)
    ensures Inv(After(w, moves))
    decreases |moves|
  {
    if moves != [] {
      MoveKeeps(w, moves[0]);
      RunKeeps(Next(w, moves[0]), moves[1..]);
    }
  }

  lemma EmptyWorldIsFine()
    ensures Inv(EMPTY_WORLD)
  {
    EmptySystemIsSound();
  }

  // ---------------------------------------------------------------------------------------------
  // The theorems
  // ---------------------------------------------------------------------------------------------

  lemma {:induction false} StaysBusyIffNeverLate(w: World, moves: seq<Move>)
    requires Inv(w) && Disciplined(w, moves)
    ensures StaysBusy(w, moves) <==> NeverLate(w, moves)
    decreases |moves|
  {
    if moves != [] {
      if IsLate(w, moves[0]) {
        LateFreesMidRide(w, moves[0].j);
      } else {
        MoveKeeps(w, moves[0]);
        StaysBusyIffNeverLate(Next(w, moves[0]), moves[1..]);
      }
    }
  }

  /** However often rides are finished and finishes are delivered: through a whole disciplined run nobody is
      freed in the middle of a ride, exactly if no finish is late. */
  lemma NobodyIsFreedMidRide(moves: seq<Move>)
    requires Disciplined(EMPTY_WORLD, moves)
    ensures StaysBusy(EMPTY_WORLD, moves) <==> NeverLate(EMPTY_WORLD, moves)
  {
    EmptyWorldIsFine();
    StaysBusyIffNeverLate(EMPTY_WORLD, moves);
  }

  /** In every world a disciplined run without a late finish reaches: two different rides whose rows hold the
      same driver are never both unfinished, and neither are two claims of one driver. */
  lemma MutualExclusion(moves: seq<Move>)
    requires Disciplined(EMPTY_WORLD, moves) && NeverLate(EMPTY_WORLD, moves)
    ensures var w := After(EMPTY_WORLD, moves);
            && (forall r, q | r in w.ride.rides && q in w.ride.rides && r != q
                              && w.ride.rides[r].driver.Some?
                              && w.ride.rides[r].driver == w.ride.rides[q].driver ::
                  r in w.over || q in w.over)
            && (forall i: nat, j: nat | i < |Assignments(w)| && j < |Assignments(w)| && i != j
                                        && Assignments(w)[i].driver == Assignments(w)[j].driver ::
                  Assignments(w)[i].ride in w.over || Assignments(w)[j].ride in w.over)
  {
    EmptyWorldIsFine();
    RunKeeps(EMPTY_WORLD, moves);
    var w := After(EMPTY_WORLD, moves);
    forall r, q | r in w.ride.rides && q in w.ride.rides && r != q
                  && w.ride.rides[r].driver.Some? && w.ride.rides[r].driver == w.ride.rides[q].driver
      ensures r in w.over || q in w.over
    {
      var d := w.ride.rides[r].driver.value;
      var i :| 0 <= i < |Assignments(w)| && Assignments(w)[i] == Assigned(r, d);
      var j :| 0 <= j < |Assignments(w)| && Assignments(w)[j] == Assigned(q, d);
      assert Behind(w, i) || Behind(w, j);
    }
    forall i: nat, j: nat | i < |Assignments(w)| && j < |Assignments(w)| && i != j
                            && Assignments(w)[i].driver == Assignments(w)[j].driver
      ensures Assignments(w)[i].ride in w.over || Assignments(w)[j].ride in w.over
    {
      assert Behind(w, i) || Behind(w, j);
    }
  }

  /** Exactly when a finish that names a busy driver is for the ride they are on: if they have an unfinished
      ride, when the ride it names was not over before. If they have none, they were told of a ride that was
      over already, and the ride it names was over too. */
  lemma ReleaseIsRightIff(w: World, j: nat, d: DriverId)
    requires Inv(w) && Allowed(w, DriverTakesFinish(j))
    requires AsFinish(w.ride.log[j]).value.driver == Some(d) && IsBusy(w, d)
    ensures var ride := w.ride.log[j].ride;
            && (HasUnfinished(w, d) ==> (IsOn(w.dispatch.drivers, d, ride) <==> ride !in w.over))
            && (!HasUnfinished(w, d) ==> ride in w.over)
            && (!HasUnfinished(w, d) ==>
                  exists i: nat :: IsCurrent(w, d, i) && Assignments(w)[i].ride in w.over)
  {
    if w.ride.log[j].ride !in w.over {
      FinishIsForTheCurrentRide(w, j, d);
    } else if HasUnfinished(w, d) {
      var i := TheUnfinishedIsCurrent(w, d);
    } else {
      var i: nat :| IsCurrent(w, d, i);
      assert Behind(w, i);
    }
  }

  /** So after every such run, the first finish of a ride to take a driver out of BUSY is for the ride they are
      on, and one that takes them off an unfinished ride is for it only if it is the first. */
  lemma ReleasedOnlyByTheirOwnRide(moves: seq<Move>, j: nat, d: DriverId)
    requires Disciplined(EMPTY_WORLD, moves) && NeverLate(EMPTY_WORLD, moves)
    requires Allowed(After(EMPTY_WORLD, moves), DriverTakesFinish(j))
    requires IsBusy(After(EMPTY_WORLD, moves), d)
    requires !IsBusy(Next(After(EMPTY_WORLD, moves), DriverTakesFinish(j)), d)
    ensures var w := After(EMPTY_WORLD, moves);
            var ride := w.ride.log[j].ride;
            && (ride !in w.over ==> IsOn(w.dispatch.drivers, d, ride))
            && (HasUnfinished(w, d) ==> (IsOn(w.dispatch.drivers, d, ride) <==> ride !in w.over))
  {
    var w := After(EMPTY_WORLD, moves);
    EmptyWorldIsFine();
    RunKeeps(EMPTY_WORLD, moves);
    FinishEffect(w, j);
    ReleaseIsRightIff(w, j, d);
  }

  /** When a finish overtakes its assignment: the driver then becomes busy without an unfinished ride, and this
      is the only way to that. */
  lemma OvertakenByTheFinish(w: World, i: nat)
    requires Inv(w) && Allowed(w, DriverTakesAssignment(i))
    ensures var v, d := Next(w, DriverTakesAssignment(i)), Assignments(w)[i].driver;
            && IsBusy(v, d)
            && (HasUnfinished(v, d) <==> Assignments(w)[i].ride !in w.over)
  {
    AssignmentEffect(w, i);
    var v, d := Next(w, DriverTakesAssignment(i)), Assignments(w)[i].driver;
    assert !Behind(w, i);
    forall k: nat | k < |Assignments(w)| && k != i && Assignments(w)[k].driver == d
      ensures Behind(v, k)
    {
      assert Behind(w, i) || Behind(w, k);
    }
    if Assignments(w)[i].ride !in w.over { assert !Behind(v, i); }
  }

  /** Such a driver is freed only by one more finish of a ride that was over: a first finish never names them. */
  lemma OnlyARepeatFreesTheOvertaken(w: World, j: nat, d: DriverId)
    requires Inv(w) && Allowed(w, DriverTakesFinish(j)) && IsBusy(w, d) && !HasUnfinished(w, d)
    ensures IsBusy(Next(w, DriverTakesFinish(j)), d) <==> AsFinish(w.ride.log[j]).value.driver != Some(d)
    ensures !IsBusy(Next(w, DriverTakesFinish(j)), d) ==> w.ride.log[j].ride in w.over
  {
    FinishEffect(w, j);
    if AsFinish(w.ride.log[j]).value.driver == Some(d) { ReleaseIsRightIff(w, j, d); }
  }

  /** What a late finish opens: the next claim can put the driver on another ride, beside the one they are on,
      exactly if they have a photo and a position. */
  lemma LateFinishRebooks(w: World, j: nat, d: DriverId, request: RideRequest)
    requires Inv(w) && Allowed(w, DriverTakesFinish(j)) && IsLate(w, DriverTakesFinish(j))
    requires AsFinish(w.ride.log[j]).value.driver == Some(d)
    requires request.ride !in w.over && forall a | a in Assignments(w) :: a.ride != request.ride
    ensures var row := w.dispatch.drivers.rows[d];
            var v, claim := Next(w, DriverTakesFinish(j)), Rematch(request, Answered(Some(d)), true);
            && (Allowed(v, claim) <==> row.hasPhoto && row.lat.Some? && row.lng.Some?)
            && (Allowed(v, claim) ==>
                  var u := Next(v, claim);
                  exists i: nat, k: nat :: i < k < |Assignments(u)|
                                           && Assignments(u)[i].driver == d && Assignments(u)[k].driver == d
                                           && Assignments(u)[i].ride !in u.over && Assignments(u)[k].ride !in u.over)
  {
    var v, claim := Next(w, DriverTakesFinish(j)), Rematch(request, Answered(Some(d)), true);
    FinishReleases(w.dispatch, AsFinish(w.ride.log[j]).value, d);
    PoolStep(w.dispatch, Finish(AsFinish(w.ride.log[j]).value));
    assert v.over == w.over;
    var i := TheUnfinishedIsCurrent(w, d);
    if Allowed(v, claim) {
      var u := Next(v, claim);
      assert Assignments(u) == Assignments(w) + [Assigned(request.ride, d)];
      assert Assignments(u)[i] == Assignments(w)[i];
      assert Assignments(u)[|Assignments(w)|].driver == d;
    }
  }

  /** Why the discipline about the window is needed: a claimed driver comes back into the pool before the
      assignment is handled exactly by a ping while the row still says AVAILABLE, or by a manual AVAILABLE
      of a located driver with a photo. */
  lemma WindowReopens(w: World, step: Step, d: DriverId)
    requires Inv(w) && InWindow(w, d)
    requires (step.Create? || step.Patch? || step.Ping? || step.Photo?) && Possible(w.dispatch, step)
    ensures d in w.dispatch.drivers.rows
    ensures var row := w.dispatch.drivers.rows[d];
            d in Apply(w.dispatch, step).drivers.pool.members <==>
              || (step.Ping? && step.id == d && row.status == Available)
              || (step.Patch? && step.id == d && step.status == Available
                  && row.hasPhoto && row.lat.Some? && row.lng.Some?)
  {
    EnteringThePool(w.dispatch, step, d);
  }

  /** And then the next claim can put the same driver on a second ride while the first is not over. */
  lemma PingInTheWindowBooksTwice(w: World, i: nat, d: DriverId, at: Point, request: RideRequest)
    requires Inv(w) && i < |Assignments(w)| && Assignments(w)[i].driver == d && i !in w.handled
    requires w.dispatch.drivers.rows[d].status == Available
    ensures var pinged := Apply(w.dispatch, Ping(d, at.lat, at.lng));
            var claim := MatchRide(request, Answered(Some(d)), true);
            && Possible(pinged, claim)
            && Apply(pinged, claim).matching.assignments == Assignments(w) + [Assigned(request.ride, d)]
  {
    EnteringThePool(w.dispatch, Ping(d, at.lat, at.lng), d);
  }

  // ---------------------------------------------------------------------------------------------
  // Runs in which it happens
  // ---------------------------------------------------------------------------------------------

  /** The disciplined run `moves`, without a late finish, leads from `w` to `v`. */
  ghost predicate Leads(w: World, moves: seq<Move>, v: World) {
    Disciplined(w, moves) && NeverLate(w, moves) && After(w, moves) == v
  }

  lemma {:induction false} RunsCompose(w: World, a: seq<Move>, v: World, b: seq<Move>, u: World)
    requires Leads(w, a, v) && Leads(v, b, u)
    ensures Leads(w, a + b, u)
    decreases |a|
  {
    if a == [] {
      assert a + b == b;
    } else {
      assert (a + b)[0] == a[0] && (a + b)[1..] == a[1..] + b;
      RunsCompose(Next(w, a[0]), a[1..], v, b, u);
    }
  }

  lemma OneMove(w: World, m: Move)
    requires Allowed(w, m) && !IsLate(w, m)
    ensures Leads(w, [m], Next(w, m))
  {
    assert [m][1..] == [];
    assert Leads(Next(w, m), [], Next(w, m));
  }

  lemma TwoMoves(w: World, m: Move, n: Move)
    requires Allowed(w, m) && !IsLate(w, m) && Allowed(Next(w, m), n) && !IsLate(Next(w, m), n)
    ensures Leads(w, [m, n], Next(Next(w, m), n))
  {
    OneMove(w, m);
    OneMove(Next(w, m), n);
    RunsCompose(w, [m], Next(w, m), [n], Next(Next(w, m), n));
    assert [m] + [n] == [m, n];
  }

  /** `d` is available, with photo and position, and pooled. */
  predicate Waits(w: World, d: DriverId) {
    && d in w.dispatch.drivers.rows && Pooled(w, d)
    && var row := w.dispatch.drivers.rows[d];
       row.status == Available && row.hasPhoto && row.lat.Some? && row.lng.Some?
  }

  /** No finish reaches driver-service. */
  predicate NoFinish(moves: seq<Move>) {
    forall m | m in moves :: !m.DriverTakesFinish?
  }

  /** No finish event reaches driver-service twice. */
  ghost predicate FinishesOnce(moves: seq<Move>) {
    forall j: nat :: multiset(moves)[DriverTakesFinish(j)] <= 1
  }

  lemma FinishesOnceComposes(a: seq<Move>, b: seq<Move>)
    requires (FinishesOnce(a) && NoFinish(b)) || (NoFinish(a) && FinishesOnce(b))
    ensures FinishesOnce(a + b)
  {
    assert multiset(a + b) == multiset(a) + multiset(b);
    forall j: nat ensures multiset(a + b)[DriverTakesFinish(j)] <= 1 {
      assert NoFinish(a) ==> DriverTakesFinish(j) !in a;
      assert NoFinish(b) ==> DriverTakesFinish(j) !in b;
    }
  }

  lemma SignUp() returns (moves: seq<Move>, v: World)
    ensures Leads(EMPTY_WORLD, moves, v) && NoFinish(moves)
    ensures v.dispatch.drivers.rows == map["driver" := DriverRow("user", "mail", Offline, true, None, None)]
    ensures v == EMPTY_WORLD.(dispatch := EMPTY_SYSTEM.(drivers := v.dispatch.drivers))
  {
    var create := Create("driver", "user", "mail", None, None);
    var photo := Photo(PhotoEvent("user", DriverRole, true));
    StepMakes(NO_DRIVERS, create);
    var u := Next(EMPTY_WORLD, DriverSide(create));
    StepMakes(u.dispatch.drivers, photo);
    TwoMoves(EMPTY_WORLD, DriverSide(create), DriverSide(photo));
    moves, v := [DriverSide(create), DriverSide(photo)], Next(u, DriverSide(photo));
  }

  lemma GoOnline(w: World, d: DriverId, at: Point) returns (moves: seq<Move>, v: World)
    requires d in w.dispatch.drivers.rows
    requires w.dispatch.drivers.rows[d].status == Offline && w.dispatch.drivers.rows[d].hasPhoto
    requires Assignments(w) == []
    ensures Leads(w, moves, v) && NoFinish(moves) && Waits(v, d)
    ensures v == w.(dispatch := w.dispatch.(drivers := v.dispatch.drivers))
  {
    StepMakes(w.dispatch.drivers, Patch(d, Available));
    var u := Next(w, DriverSide(Patch(d, Available)));
    StepMakes(u.dispatch.drivers, Ping(d, at.lat, at.lng));
    TwoMoves(w, DriverSide(Patch(d, Available)), DriverSide(Ping(d, at.lat, at.lng)));
    moves := [DriverSide(Patch(d, Available)), DriverSide(Ping(d, at.lat, at.lng))];
    v := Next(u, DriverSide(Ping(d, at.lat, at.lng)));
  }

  lemma ADriverWaits(at: Point) returns (moves: seq<Move>, v: World)
    ensures Leads(EMPTY_WORLD, moves, v) && NoFinish(moves) && Waits(v, "driver")
    ensures v == EMPTY_WORLD.(dispatch := EMPTY_SYSTEM.(drivers := v.dispatch.drivers))
  {
    var signUp, u := SignUp();
    var online;
    online, v := GoOnline(u, "driver", at);
    RunsCompose(EMPTY_WORLD, signUp, u, online, v);
    moves := signUp + online;
  }

  lemma ARideIsClaimed(w: World, d: DriverId, r: RideId, at: Point) returns (moves: seq<Move>, v: World)
    requires Waits(w, d) && r !in w.ride.rides && forall a | a in Assignments(w) :: a.ride != r
    ensures Leads(w, moves, v) && NoFinish(moves)
    ensures Assignments(v) == Assignments(w) + [Assigned(r, d)] && v.handled == w.handled && v.over == w.over
    ensures v.dispatch.drivers.rows == w.dispatch.drivers.rows
    ensures r in v.ride.rides && v.ride.rides == w.ride.rides[r := v.ride.rides[r]] && w.ride.log <= v.ride.log
  {
    var request := RideSide(Request(r, "rider", at, at, 0, true));
    var claim := Rematch(RideRequest(r, "rider", at), Answered(Some(d)), true);
    TwoMoves(w, request, claim);
    moves, v := [request, claim], Next(Next(w, request), claim);
  }

  lemma BothAreTold(w: World, n: nat) returns (moves: seq<Move>, v: World)
    requires n < |Assignments(w)| && n !in w.handled && Assignments(w)[n].ride in w.ride.rides
    requires Assignments(w)[n].driver in w.dispatch.drivers.rows && !IsBusy(w, Assignments(w)[n].driver)
    ensures Leads(w, moves, v) && NoFinish(moves)
    ensures Assignments(v) == Assignments(w) && v.handled == w.handled + {n} && v.over == w.over
    ensures w.ride.log <= v.ride.log
    ensures var a, rows := Assignments(w)[n], w.dispatch.drivers.rows;
            && v.dispatch.drivers.rows == rows[a.driver := rows[a.driver].(status := Busy)]
            && a.ride in v.ride.rides && v.ride.rides == w.ride.rides[a.ride := v.ride.rides[a.ride]]
            && v.ride.rides[a.ride].driver == Some(a.driver)
  {
    StepMakes(w.dispatch.drivers, Assign(Assignments(w)[n]));
    TwoMoves(w, DriverTakesAssignment(n), RideTakesAssignment(n, true));
    moves := [DriverTakesAssignment(n), RideTakesAssignment(n, true)];
    v := Next(Next(w, DriverTakesAssignment(n)), RideTakesAssignment(n, true));
  }

  /** A waiting driver gets the new ride `r`. */
  lemma ARideStarts(w: World, d: DriverId, r: RideId, at: Point) returns (moves: seq<Move>, v: World)
    requires Waits(w, d) && r !in w.ride.rides && forall a | a in Assignments(w) :: a.ride != r
    requires |Assignments(w)| !in w.handled
    ensures Leads(w, moves, v) && NoFinish(moves)
    ensures Assignments(v) == Assignments(w) + [Assigned(r, d)] && v.handled == w.handled + {|Assignments(w)|}
    ensures v.over == w.over && w.ride.log <= v.ride.log
    ensures var rows := w.dispatch.drivers.rows; v.dispatch.drivers.rows == rows[d := rows[d].(status := Busy)]
    ensures r in v.ride.rides && v.ride.rides == w.ride.rides[r := v.ride.rides[r]] && v.ride.rides[r].driver == Some(d)
  {
    var claimed, u := ARideIsClaimed(w, d, r, at);
    var told;
    told, v := BothAreTold(u, |Assignments(w)|);
    RunsCompose(w, claimed, u, told, v);
    moves := claimed + told;
  }

  /** The ride is patched to COMPLETED twice, which publishes two finish events. */
  lemma ARideIsCompletedTwice(w: World, r: RideId) returns (moves: seq<Move>, v: World)
    requires r in w.ride.rides && w.ride.rides[r].driver.Some?
    ensures Leads(w, moves, v) && NoFinish(moves)
    ensures v == w.(ride := v.ride) && v.ride.rides.Keys == w.ride.rides.Keys
    ensures var n, finish := |w.ride.log|, Some(Finished(r, w.ride.rides[r].driver, Completed));
            && |v.ride.log| == n + 2 && v.ride.log[n].ride == r && v.ride.log[n + 1].ride == r
            && AsFinish(v.ride.log[n]) == finish && AsFinish(v.ride.log[n + 1]) == finish
  {
    var complete := RideSide(PatchRide(r, Completed, None, 0, true));
    TwoMoves(w, complete, complete);
    moves, v := [complete, complete], Next(Next(w, complete), complete);
  }

  /** A finish that names a busy driver, with photo and position, makes them wait again. */
  lemma AFinishFrees(w: World, j: nat, d: DriverId)
    requires Allowed(w, DriverTakesFinish(j)) && AsFinish(w.ride.log[j]).value.driver == Some(d) && IsBusy(w, d)
    requires var row := w.dispatch.drivers.rows[d]; row.hasPhoto && row.lat.Some? && row.lng.Some?
    ensures var v := Next(w, DriverTakesFinish(j));
            && Waits(v, d) && Assignments(v) == Assignments(w)
            && v == w.(dispatch := v.dispatch, over := w.over + {AsFinish(w.ride.log[j]).value.ride})
  {
    StepMakes(w.dispatch.drivers, Finish(AsFinish(w.ride.log[j]).value));
  }

  /** The ride ends; the second of its two finish events, `j`, is still on its way. */
  lemma ARideEnds(w: World, d: DriverId, r: RideId) returns (moves: seq<Move>, v: World, j: nat)
    requires r in w.ride.rides && w.ride.rides[r].driver == Some(d) && r !in w.over && IsBusy(w, d)
    requires var row := w.dispatch.drivers.rows[d]; row.hasPhoto && row.lat.Some? && row.lng.Some?
    ensures Leads(w, moves, v) && FinishesOnce(moves) && DriverTakesFinish(j) !in moves
    ensures Waits(v, d) && Assignments(v) == Assignments(w) && v.handled == w.handled && v.over == w.over + {r}
    ensures v.ride.rides.Keys == w.ride.rides.Keys
    ensures j < |v.ride.log| && v.ride.log[j].ride == r
    ensures AsFinish(v.ride.log[j]) == Some(Finished(r, Some(d), Completed))
  {
    var n := |w.ride.log|;
    var completed, u := ARideIsCompletedTwice(w, r);
    AFinishFrees(u, n, d);
    OneMove(u, DriverTakesFinish(n));
    v := Next(u, DriverTakesFinish(n));
    RunsCompose(w, completed, u, [DriverTakesFinish(n)], v);
    FinishesOnceComposes(completed, [DriverTakesFinish(n)]);
    moves, j := completed + [DriverTakesFinish(n)], n + 1;
  }

  /** The first ride is over, one of its finish events is still on its way, and the driver is on the second. */
  lemma ALateFinishIsPending(at: Point) returns (moves: seq<Move>, w: World, j: nat)
    ensures Leads(EMPTY_WORLD, moves, w) && FinishesOnce(moves) && DriverTakesFinish(j) !in moves
    ensures Assignments(w) == [Assigned("first", "driver"), Assigned("second", "driver")]
    ensures w.handled == {0, 1} && w.over == {"first"} && IsBusy(w, "driver")
    ensures var row := w.dispatch.drivers.rows["driver"]; row.hasPhoto && row.lat.Some? && row.lng.Some?
    ensures w.ride.rides.Keys == {"first", "second"} && w.ride.rides["second"].driver == Some("driver")
    ensures j < |w.ride.log| && w.ride.log[j].ride == "first"
    ensures AsFinish(w.ride.log[j]) == Some(Finished("first", Some("driver"), Completed))
  {
    var waits, w0 := ADriverWaits(at);
    var first, w1 := ARideStarts(w0, "driver", "first", at);
    var ends, w2;
    ends, w2, j := ARideEnds(w1, "driver", "first");
    var second;
    second, w := ARideStarts(w2, "driver", "second", at);
    RunsCompose(EMPTY_WORLD, waits, w0, first, w1);
    RunsCompose(EMPTY_WORLD, waits + first, w1, ends, w2);
    RunsCompose(EMPTY_WORLD, waits + first + ends, w2, second, w);
    FinishesOnceComposes(waits + first, ends);
    FinishesOnceComposes(waits + first + ends, second);
    moves := waits + first + ends + second;
  }

  /** Two finish events of one ride, each delivered once, are enough: the second one reaches the driver on their
      next ride and is late, and then two rides hold the driver of which neither is over. */
  lemma TwoFinishesBookTwice(at: Point) returns (moves: seq<Move>, w: World, j: nat, rest: seq<Move>, u: World)
    ensures Leads(EMPTY_WORLD, moves, w) && FinishesOnce(moves) && DriverTakesFinish(j) !in moves
    ensures Allowed(w, DriverTakesFinish(j)) && IsLate(w, DriverTakesFinish(j))
    ensures IsOn(w.dispatch.drivers, "driver", "second") && w.ride.log[j].ride == "first"
    ensures Leads(Next(w, DriverTakesFinish(j)), rest, u) && NoFinish(rest)
    ensures "second" in u.ride.rides && u.ride.rides["second"].driver == Some("driver") && "second" !in u.over
    ensures "third" in u.ride.rides && u.ride.rides["third"].driver == Some("driver") && "third" !in u.over
  {
    moves, w, j := ALateFinishIsPending(at);
    EmptyWorldIsFine();
    RunKeeps(EMPTY_WORLD, moves);
    assert Assignments(w)[1].driver == "driver" && !Behind(w, 1);
    assert HasUnfinished(w, "driver");
    var i := TheUnfinishedIsCurrent(w, "driver");
    assert i == 1;
    AFinishFrees(w, j, "driver");
    rest, u := ARideStarts(Next(w, DriverTakesFinish(j)), "driver", "third", at);
  }

  /** A disciplined run (sign up, photo, online, ping, claim) reaches the window between claim and assignment, and
      one more ping then puts one driver on two rides of which neither is over. */
  lemma OneDriverOnTwoRides(at: Point) returns (moves: seq<Move>, w: World)
    ensures Leads(EMPTY_WORLD, moves, w) && InWindow(w, "driver") && w.over == {}
    ensures var pinged := Apply(w.dispatch, Ping("driver", at.lat, at.lng));
            var claim := MatchRide(RideRequest("second", "rider", at), Answered(Some("driver")), true);
            && Possible(pinged, claim)
            && Apply(pinged, claim).matching.assignments == [Assigned("first", "driver"), Assigned("second", "driver")]
  {
    var waits, w0 := ADriverWaits(at);
    var claimed;
    claimed, w := ARideIsClaimed(w0, "driver", "first", at);
    RunsCompose(EMPTY_WORLD, waits, w0, claimed, w);
    moves := waits + claimed;
    EmptyWorldIsFine();
    RunKeeps(EMPTY_WORLD, moves);
    assert Assignments(w)[0].driver == "driver" && 0 !in w.handled;
    PingInTheWindowBooksTwice(w, 0, "driver", at, RideRequest("second", "rider", at));
  }
}
