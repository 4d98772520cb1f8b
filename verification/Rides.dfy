/** ride-service: the ride table and the events derived from its rows. */
module Rides {
  import opened Wrappers
  import opened GeoPool
  import opened Drivers

  type Time = int

  datatype RideRow = RideRow(rider: UserId, driver: Option<DriverId>, status: RideStatus,
                             pickup: Point, destination: Point, fare: Option<real>, createdAt: Time)

  /** `ride.requested`, `ride.status.updated` and `ride.completed`, in publication order. */
  datatype RideEvent =
    | RideRequested(ride: RideId, rider: UserId, pickup: Point, destination: Point)
    | StatusUpdated(ride: RideId, rider: UserId, driver: Option<DriverId>, status: RideStatus, fare: Option<real>)
    | RideCompletedEvent(ride: RideId, rider: UserId, driver: Option<DriverId>, fare: Option<real>,
                         pickup: Point, destination: Point, requestedAt: Time, completedAt: Time)

  datatype RideState = RideState(rides: map<RideId, RideRow>, log: seq<RideEvent>)

  const NO_RIDES := RideState(map[], [])

  datatype RideReply = RideDone(row: RideRow) | RideNotFound | RideError

  function Publish(s: RideState, e: RideEvent, published: bool): RideState {
    if published then s.(log := s.log + [e]) else s
  }

  /** A fare of zero is falsy: published, but not stored. */
  function StoredFare(given: Option<real>, stored: Option<real>): Option<real> {
    if given.Some? && given.value != 0.0 then given else stored
  }

  function PublishedFare(given: Option<real>, stored: Option<real>): Option<real> {
    if given.Some? then given else stored
  }

  function RequestRide(s: RideState, newId: RideId, rider: UserId, pickup: Point, destination: Point,
                       now: Time, published: bool): RideState {
    Publish(s.(rides := s.rides[newId := RideRow(rider, None, Requested, pickup, destination, None, now)]),
            RideRequested(newId, rider, pickup, destination), published)
  }

  function UpdateStatus(s: RideState, id: RideId, status: RideStatus, fare: Option<real>, now: Time,
                        published: bool): RideState {
    if id !in s.rides then s
    else
      var ride := s.rides[id];
      Publish(s.(rides := s.rides[id := ride.(status := status, fare := StoredFare(fare, ride.fare))]),
              if status == Completed then
                RideCompletedEvent(id, ride.rider, ride.driver, PublishedFare(fare, ride.fare), ride.pickup,
                                   ride.destination, ride.createdAt, now)
              else StatusUpdated(id, ride.rider, ride.driver, status, PublishedFare(fare, ride.fare)),
              published)
  }

  /** An unknown ride makes the handler throw after an update that touched no row. */
  function HandleDriverAssigned(s: RideState, e: Assigned, published: bool): RideState {
    if e.ride !in s.rides then s
    else
      var ride := s.rides[e.ride].(driver := Some(e.driver), status := Matched);
      Publish(s.(rides := s.rides[e.ride := ride]),
              StatusUpdated(e.ride, ride.rider, Some(e.driver), Matched, None), published)
  }

  // ---------------------------------------------------------------------------------------------
  // Runs
  // ---------------------------------------------------------------------------------------------

  datatype RideStep =
    | Request(newId: RideId, rider: UserId, pickup: Point, destination: Point, now: Time, published: bool)
    | PatchRide(id: RideId, status: RideStatus, fare: Option<real>, now: Time, published: bool)
    | AssignRide(assignment: Assigned, published: bool)

  predicate PossibleRide(s: RideState, step: RideStep) {
    step.Request? ==> step.newId !in s.rides
  }

  function ApplyRide(s: RideState, step: RideStep): RideState {
    match step
    case Request(id, rider, pickup, destination, now, published) =>
      RequestRide(s, id, rider, pickup, destination, now, published)
    case PatchRide(id, status, fare, now, published) => UpdateStatus(s, id, status, fare, now, published)
    case AssignRide(e, published) => HandleDriverAssigned(s, e, published)
  }

  predicate LegalRides(s: RideState, steps: seq<RideStep>) {
    steps == [] ||
    (LegalRides(s, steps[..|steps| - 1]) && PossibleRide(EndRides(s, steps[..|steps| - 1]), steps[|steps| - 1]))
  }

  function EndRides(s: RideState, steps: seq<RideStep>): RideState {
    if steps == [] then s else ApplyRide(EndRides(s, steps[..|steps| - 1]), steps[|steps| - 1])
  }

  /** The last event about ride `r`. */
  function Latest(log: seq<RideEvent>, r: RideId): Option<RideEvent> {
    if log == [] then None
    else if log[|log| - 1].ride == r then Some(log[|log| - 1])
    else Latest(log[..|log| - 1], r)
  }

  lemma LatestAppended(log: seq<RideEvent>, e: RideEvent, r: RideId)
    ensures Latest(log + [e], r) == if e.ride == r then Some(e) else Latest(log, r)
  {
    assert (log + [e])[..|log|] == log;
  }

  /** The status and the driver a reader of that event believes the ride to have. */
  function Told(e: RideEvent): (RideStatus, Option<DriverId>) {
    match e
    case RideRequested(_, _, _, _) => (Requested, None)
    case StatusUpdated(_, _, driver, status, _) => (status, driver)
    case RideCompletedEvent(_, _, driver, _, _, _, _, _) => (Completed, driver)
  }

  /** The ride the last event about `r` describes is the row. */
  predicate LogTellsRide(s: RideState, r: RideId)
    requires r in s.rides
  {
    var latest := Latest(s.log, r);
    && latest.Some? && latest.value.rider == s.rides[r].rider
    && Told(latest.value) == (s.rides[r].status, s.rides[r].driver)
  }

  /** Which ride a step writes, if any. */
  predicate Writes(s: RideState, step: RideStep, r: RideId) {
    match step
    case Request(id, _, _, _, _, _) => id == r
    case PatchRide(id, _, _, _, _) => id == r && r in s.rides
    case AssignRide(e, _) => e.ride == r && r in s.rides
  }

  /** A step keeps the log telling about `r` what the row says exactly when it does not write the row,
      publishes what it wrote, or wrote nothing new: the status and driver last told. */
  lemma LogKeepsTelling(s: RideState, step: RideStep, r: RideId)
    requires PossibleRide(s, step) && r in s.rides && LogTellsRide(s, r)
    ensures r in ApplyRide(s, step).rides
    ensures LogTellsRide(ApplyRide(s, step), r) <==>
              || !Writes(s, step, r)
              || step.published
              || (step.PatchRide? && step.status == s.rides[r].status)
              || (step.AssignRide? && s.rides[r].status == Matched && s.rides[r].driver == Some(step.assignment.driver))
  {
    var after := ApplyRide(s, step);
    if |after.log| > |s.log| {
      LatestAppended(s.log, after.log[|s.log|], r);
    }
  }

  /** When publishes succeed, the latest event of every ride gives its current status, driver and rider. */
  lemma {:induction false} LogRebuildsTheRides(steps: seq<RideStep>, r: RideId)
    requires LegalRides(NO_RIDES, steps)
    requires forall i | 0 <= i < |steps| :: steps[i].published
    requires r in EndRides(NO_RIDES, steps).rides
    ensures LogTellsRide(EndRides(NO_RIDES, steps), r)
  {
    if steps != [] {
      var before, last := steps[..|steps| - 1], steps[|steps| - 1];
      var s := EndRides(NO_RIDES, before);
      forall i | 0 <= i < |before| ensures before[i].published {
        assert before[i] == steps[i];
      }
      if r in s.rides {
        LogRebuildsTheRides(before, r);
        LogKeepsTelling(s, last, r);
      } else {
        LatestAppended(s.log, RideRequested(r, last.rider, last.pickup, last.destination), r);
      }
    }
  }

  predicate NoZeroFare(s: RideState) {
    forall r | r in s.rides :: s.rides[r].fare != Some(0.0)
  }

  /** The fare on the event is the fare in the row exactly when the fare given is not zero. */
  lemma FareAgreement(s: RideState, id: RideId, status: RideStatus, fare: Option<real>, now: Time)
    requires id in s.rides && NoZeroFare(s)
    ensures var after := UpdateStatus(s, id, status, fare, now, true);
            && NoZeroFare(after)
            && after.log == s.log + [after.log[|s.log|]]
            && !after.log[|s.log|].RideRequested?
            && (after.log[|s.log|].fare == after.rides[id].fare <==> fare != Some(0.0))
  {
  }

  /** What a ride was requested with never changes. */
  predicate SameRequest(a: RideRow, b: RideRow) {
    a.rider == b.rider && a.pickup == b.pickup && a.destination == b.destination && a.createdAt == b.createdAt
  }

  lemma {:induction false} RequestNeverChanges(s: RideState, steps: seq<RideStep>, r: RideId)
    requires LegalRides(s, steps) && r in s.rides
    ensures r in EndRides(s, steps).rides && SameRequest(EndRides(s, steps).rides[r], s.rides[r])
  {
    if steps != [] {
      RequestNeverChanges(s, steps[..|steps| - 1], r);
    }
  }

  // ---------------------------------------------------------------------------------------------
  // What rows and events carry, in terms of what was asked
  // ---------------------------------------------------------------------------------------------

  /** A patch in terms of its arguments: the fare told is the one given, or else the one stored; the fare stored
      changes only to a given one that is not zero; and a completion happens when it is patched. */
  lemma PatchIsTold(s: RideState, id: RideId, status: RideStatus, fare: Option<real>, now: Time, published: bool)
    requires id in s.rides
    ensures var row, t := s.rides[id], ApplyRide(s, PatchRide(id, status, fare, now, published));
            && t.rides.Keys == s.rides.Keys && (forall r | r in s.rides && r != id :: t.rides[r] == s.rides[r])
            && SameRequest(t.rides[id], row) && t.rides[id].status == status && t.rides[id].driver == row.driver
            && (fare.Some? && fare.value != 0.0 ==> t.rides[id].fare == fare)
            && (fare.None? || fare.value == 0.0 ==> t.rides[id].fare == row.fare)
            && (!published ==> t.log == s.log)
            && (published ==>
                  && t.log == s.log + [t.log[|s.log|]]
                  && var e := t.log[|s.log|];
                  && e.ride == id && e.rider == row.rider && Told(e) == (status, row.driver)
                  && !e.RideRequested? && (e.RideCompletedEvent? <==> status == Completed)
                  && (fare.Some? ==> e.fare == fare) && (fare.None? ==> e.fare == row.fare)
                  && (status == Completed ==>
                        && e.completedAt == now && e.requestedAt == row.createdAt
                        && e.pickup == row.pickup && e.destination == row.destination))
  {
  }

  /** The fare, the status and the driver last written to `r` by the steps. */
  function FareAfter(steps: seq<RideStep>, r: RideId, fare: Option<real>): Option<real> {
    if steps == [] then fare
    else
      var last := steps[|steps| - 1];
      if last.PatchRide? && last.id == r && last.fare.Some? && last.fare.value != 0.0 then last.fare
      else FareAfter(steps[..|steps| - 1], r, fare)
  }

  function StatusAfter(steps: seq<RideStep>, r: RideId, status: RideStatus): RideStatus {
    if steps == [] then status
    else
      var last := steps[|steps| - 1];
      if last.PatchRide? && last.id == r then last.status
      else if last.AssignRide? && last.assignment.ride == r then Matched
      else StatusAfter(steps[..|steps| - 1], r, status)
  }

  function DriverAfter(steps: seq<RideStep>, r: RideId, driver: Option<DriverId>): Option<DriverId> {
    if steps == [] then driver
    else
      var last := steps[|steps| - 1];
      if last.AssignRide? && last.assignment.ride == r then Some(last.assignment.driver)
      else DriverAfter(steps[..|steps| - 1], r, driver)
  }

  /** Over any run: a ride has the last nonzero fare it was patched to, the last status it was patched or matched
      to, and the driver last assigned to it. */
  lemma {:induction false} RowIsLastWritten(s: RideState, steps: seq<RideStep>, r: RideId)
    requires LegalRides(s, steps) && r in s.rides
    ensures var t := EndRides(s, steps);
            && r in t.rides
            && t.rides[r].fare == FareAfter(steps, r, s.rides[r].fare)
            && t.rides[r].status == StatusAfter(steps, r, s.rides[r].status)
            && t.rides[r].driver == DriverAfter(steps, r, s.rides[r].driver)
  {
    if steps != [] {
      RowIsLastWritten(s, steps[..|steps| - 1], r);
    }
  }

  /** The event carries its ride as it was requested. */
  predicate EventTells(e: RideEvent, rides: map<RideId, RideRow>) {
    && e.ride in rides
    && var row := rides[e.ride];
    && e.rider == row.rider
    && (e.RideRequested? ==> e.pickup == row.pickup && e.destination == row.destination)
    && (e.RideCompletedEvent? ==>
          e.pickup == row.pickup && e.destination == row.destination && e.requestedAt == row.createdAt)
  }

  /** All events do, and no ride is announced as requested twice. */
  ghost predicate EventsTell(s: RideState) {
    && (forall i | 0 <= i < |s.log| :: EventTells(s.log[i], s.rides))
    && (forall i, j | 0 <= i < |s.log| && 0 <= j < |s.log| && s.log[i].RideRequested? && s.log[j].RideRequested?
                      && s.log[i].ride == s.log[j].ride :: i == j)
  }

  lemma StepKeepsEventsTelling(s: RideState, step: RideStep)
    requires EventsTell(s) && PossibleRide(s, step)
    ensures EventsTell(ApplyRide(s, step))
    ensures forall r | r in s.rides ::
              r in ApplyRide(s, step).rides && SameRequest(ApplyRide(s, step).rides[r], s.rides[r])
  {
    var t := ApplyRide(s, step);
    forall i | 0 <= i < |t.log| ensures EventTells(t.log[i], t.rides) {
      if i < |s.log| { assert t.log[i] == s.log[i]; }
    }
    forall i, j | 0 <= i < |t.log| && 0 <= j < |t.log| && t.log[i].RideRequested? && t.log[j].RideRequested?
                  && t.log[i].ride == t.log[j].ride
      ensures i == j
    {
      assert i < |s.log| ==> t.log[i] == s.log[i] && t.log[i].ride in s.rides;
      assert j < |s.log| ==> t.log[j] == s.log[j] && t.log[j].ride in s.rides;
    }
  }

  /** In every reachable state every event, the request's included, carries its ride as requested. */
  lemma {:induction false} EventsTellTheRequests(steps: seq<RideStep>)
    requires LegalRides(NO_RIDES, steps)
    ensures EventsTell(EndRides(NO_RIDES, steps))
  {
    if steps != [] {
      EventsTellTheRequests(steps[..|steps| - 1]);
      StepKeepsEventsTelling(EndRides(NO_RIDES, steps[..|steps| - 1]), steps[|steps| - 1]);
    }
  }

  /** Every completion on the topic is a published patch to COMPLETED: made at its `completedAt`, and telling the
      fare given with it or else the one the ride had. */
  lemma {:induction false} CompletionsArePatches(steps: seq<RideStep>, j: nat) returns (i: nat)
    requires LegalRides(NO_RIDES, steps) && j < |EndRides(NO_RIDES, steps).log|
    requires EndRides(NO_RIDES, steps).log[j].RideCompletedEvent?
    ensures i < |steps| && steps[i].PatchRide? && steps[i].status == Completed && steps[i].published
    ensures var e, before := EndRides(NO_RIDES, steps).log[j], EndRides(NO_RIDES, steps[..i]);
            && steps[i].id == e.ride && steps[i].now == e.completedAt && e.ride in before.rides
            && (steps[i].fare.Some? ==> e.fare == steps[i].fare)
            && (steps[i].fare.None? ==> e.fare == before.rides[e.ride].fare)
            && e.driver == before.rides[e.ride].driver
  {
    var n := |steps| - 1;
    var s := EndRides(NO_RIDES, steps[..n]);
    if j < |s.log| {
      assert EndRides(NO_RIDES, steps).log[j] == s.log[j];
      i := CompletionsArePatches(steps[..n], j);
      assert steps[..n][..i] == steps[..i];
    } else {
      i := n;
    }
  }
}
