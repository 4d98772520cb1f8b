/** What every run of the dispatch system keeps: the exact index, the photo gate, the accounts, the logs. */
module DispatchRuns {
  import opened Wrappers
  import opened GeoPool
  import opened PoolHistory
  import opened Drivers
  import opened Matching
  import opened Dispatch

  // ---------------------------------------------------------------------------------------------
  // The pool is an exact index over the driver table
  // ---------------------------------------------------------------------------------------------

  /** Pooled means: available, with both coordinates, and not claimed since the last command about them;
      and the pooled position is the stored one. */
  predicate IndexAgrees(s: DriverState, d: DriverId) {
    && (d in s.pool.members
        <==> d in s.rows && s.rows[d].status == Available && s.rows[d].lat.Some? && s.rows[d].lng.Some?
             && !ClaimedLast(s.pool.commands, d))
    && (d in s.pool.members ==> s.pool.members[d] == Point(s.rows[d].lat.value, s.rows[d].lng.value))
  }

  ghost predicate ExactIndex(s: DriverState) {
    forall d :: IndexAgrees(s, d)
  }

  /** Nobody is available without a photo. */
  ghost predicate PhotoGate(rows: map<DriverId, DriverRow>) {
    forall d | d in rows && rows[d].status == Available :: rows[d].hasPhoto
  }

  lemma StatusKeepsIndex(s: DriverState, d: DriverId, status: DriverStatus,
                         reason: Option<Reason>, ride: Option<RideId>)
    requires ExactIndex(s) && d in s.rows
    ensures ExactIndex(WithStatus(s, d, status, reason, ride))
  {
    var after := WithStatus(s, d, status, reason, ride);
    forall e ensures IndexAgrees(after, e) {
      assert IndexAgrees(s, e);
      Appended(s.pool.commands, after.pool.commands[|s.pool.commands|], e);
    }
  }

  lemma PositionKeepsIndex(s: DriverState, d: DriverId, lat: real, lng: real)
    requires ExactIndex(s) && d in s.rows
    ensures ExactIndex(WithPosition(s, d, lat, lng))
  {
    var after := WithPosition(s, d, lat, lng);
    forall e ensures IndexAgrees(after, e) {
      assert IndexAgrees(s, e);
      Appended(s.pool.commands, Added(d, Point(lat, lng), d !in s.pool.members), e);
    }
  }

  lemma PhotoKeepsIndex(s: DriverState, d: DriverId, hasPhoto: bool)
    requires ExactIndex(s) && d in s.rows
    ensures ExactIndex(WithPhoto(s, d, hasPhoto))
  {
    var flagged := s.(rows := s.rows[d := s.rows[d].(hasPhoto := hasPhoto)]);
    forall e ensures IndexAgrees(flagged, e) {
      assert IndexAgrees(s, e);
    }
    StatusKeepsIndex(flagged, d, Offline, Some(PhotoRemoved), None);
  }

  lemma ClaimKeepsIndex(s: DriverState, claimed: Option<DriverId>)
    requires ExactIndex(s) && (claimed.Some? ==> claimed.value in s.pool.members)
    ensures ExactIndex(s.(pool := Claim(s.pool, claimed)))
  {
    if claimed.Some? {
      var after := s.(pool := Claim(s.pool, claimed));
      forall e ensures IndexAgrees(after, e) {
        assert IndexAgrees(s, e);
        Appended(s.pool.commands, Claimed(claimed.value), e);
      }
    }
  }

  lemma StepKeepsIndex(sys: System, step: Step)
    requires ExactIndex(sys.drivers) && Possible(sys, step)
    ensures ExactIndex(Apply(sys, step).drivers)
  {
    var s := sys.drivers;
    match step
    case MatchRide(request, call, published) => ClaimKeepsIndex(s, Taken(call));
    case Create(newId, user, email, lat, lng) =>
      StepMakes(s, step);
      var after := Apply(sys, step).drivers;
      forall e ensures IndexAgrees(after, e) {
        assert IndexAgrees(s, e);
      }
    case Patch(id, status) =>
      StepMakes(s, step);
      if id in s.rows { StatusKeepsIndex(s, id, status, None, None); }
    case Ping(id, lat, lng) =>
      StepMakes(s, step);
      if id in s.rows { PositionKeepsIndex(s, id, lat, lng); }
    case Photo(e) =>
      StepMakes(s, step);
      var d := DriverOfUser(s.rows, e.user);
      if d.Some? { PhotoKeepsIndex(s, d.value, e.hasPhoto); }
    case Assign(e) =>
      StepMakes(s, step);
      if e.driver in s.rows { StatusKeepsIndex(s, e.driver, Busy, Some(RideAssigned), Some(e.ride)); }
    case Finish(e) =>
      StepMakes(s, step);
      if e.driver.Some? && e.driver.value in s.rows {
        var d := e.driver.value;
        StatusKeepsIndex(s, d, if s.rows[d].hasPhoto then Available else Offline,
                         Some(if e.status == Cancelled then RideCancelled else RideCompleted), Some(e.ride));
      }
  }

  /** A new profile is offline, without a photo, and nobody else's; nobody becomes available without a photo. */
  ghost predicate Sensible(rows: map<DriverId, DriverRow>, c: Change) {
    match c
    case Nothing => true
    case NewRow(d, row) =>
      && d !in rows && row.status == Offline && !row.hasPhoto
      && forall e | e in rows :: rows[e].userId != row.userId && rows[e].email != row.email
    case NewStatus(d, status, _, _) => d in rows && (status == Available ==> rows[d].hasPhoto)
    case NewPosition(d, _, _) => d in rows
    case NewFlag(d, _) => d in rows
  }

  lemma StepIsSensible(sys: System, step: Step)
    requires !step.MatchRide? && Possible(sys, step)
    ensures Sensible(sys.drivers.rows, ChangeOf(sys.drivers, step))
  {
  }

  lemma ChangeKeepsTable(s: DriverState, c: Change)
    requires PhotoGate(s.rows) && UniqueUsers(s.rows) && AboutKnownDriver(s, c) && Sensible(s.rows, c)
    ensures PhotoGate(Make(s, c).rows) && UniqueUsers(Make(s, c).rows)
    ensures s.rows.Keys <= Make(s, c).rows.Keys
    ensures forall d | d in s.rows :: Make(s, c).rows[d].userId == s.rows[d].userId
  {
  }

  lemma StepKeepsTable(sys: System, step: Step)
    requires PhotoGate(sys.drivers.rows) && UniqueUsers(sys.drivers.rows) && Possible(sys, step)
    ensures PhotoGate(Apply(sys, step).drivers.rows) && UniqueUsers(Apply(sys, step).drivers.rows)
    ensures sys.drivers.rows.Keys <= Apply(sys, step).drivers.rows.Keys
    ensures forall d | d in sys.drivers.rows :: Apply(sys, step).drivers.rows[d].userId == sys.drivers.rows[d].userId
  {
    if !step.MatchRide? {
      StepMakes(sys.drivers, step);
      StepIsSensible(sys, step);
      ChangeKeepsTable(sys.drivers, ChangeOf(sys.drivers, step));
    }
  }

  /** The status a change leaves a known driver with. */
  function StatusAfter(s: DriverState, c: Change, d: DriverId): DriverStatus
    requires d in s.rows
  {
    if c.NewStatus? && c.driver == d then c.status
    else if c.NewFlag? && c.driver == d && !c.hasPhoto && s.rows[d].status == Available then Offline
    else s.rows[d].status
  }

  lemma StatusOfChange(s: DriverState, c: Change, d: DriverId)
    requires AboutKnownDriver(s, c) && d in s.rows && (c.NewRow? ==> c.driver !in s.rows)
    ensures d in Make(s, c).rows && Make(s, c).rows[d].status == StatusAfter(s, c, d)
  {
  }

  lemma StatusOfStep(sys: System, step: Step, d: DriverId)
    requires Possible(sys, step) && d in sys.drivers.rows
    ensures d in Apply(sys, step).drivers.rows
    ensures Apply(sys, step).drivers.rows[d].status
         == if step.MatchRide? then sys.drivers.rows[d].status
            else StatusAfter(sys.drivers, ChangeOf(sys.drivers, step), d)
  {
    if !step.MatchRide? {
      StepMakes(sys.drivers, step);
      StatusOfChange(sys.drivers, ChangeOf(sys.drivers, step), d);
    }
  }

  ghost predicate Sound(sys: System) {
    && ExactIndex(sys.drivers)
    && PhotoGate(sys.drivers.rows)
    && UniqueUsers(sys.drivers.rows)
  }

  /** In every reachable state the pool is exactly the available, located, unclaimed drivers, at their
      stored positions, and all of them have a photo. */
  lemma {:induction false} PoolIsAnExactIndex(sys: System, steps: seq<Step>)
    requires Sound(sys) && Legal(sys, steps)
    ensures Sound(End(sys, steps))
  {
    if steps != [] {
      var before := steps[..|steps| - 1];
      PoolIsAnExactIndex(sys, before);
      StepKeepsIndex(End(sys, before), steps[|steps| - 1]);
      StepKeepsTable(End(sys, before), steps[|steps| - 1]);
    }
  }

  lemma EmptySystemIsSound()
    ensures Sound(EMPTY_SYSTEM)
  {
    forall d ensures IndexAgrees(EMPTY_SYSTEM.drivers, d) {}
  }

  /** The three ways into the pool, and no fourth: which steps put a driver who is outside back in. */
  predicate PutsBack(s: DriverState, step: Step, d: DriverId) {
    && d in s.rows
    && match step
       case Ping(id, _, _) => id == d && s.rows[d].status == Available
       case Patch(id, status) => id == d && status == Available && s.rows[d].status != Busy && s.rows[d].hasPhoto
                                 && s.rows[d].lat.Some? && s.rows[d].lng.Some?
       case Finish(e) => e.driver == Some(d) && s.rows[d].status == Busy && s.rows[d].hasPhoto
                         && s.rows[d].lat.Some? && s.rows[d].lng.Some?
       case _ => false
  }

  lemma EnteringThePool(sys: System, step: Step, d: DriverId)
    requires Sound(sys) && Possible(sys, step) && d !in sys.drivers.pool.members
    ensures d in Apply(sys, step).drivers.pool.members <==> PutsBack(sys.drivers, step, d)
  {
    assert IndexAgrees(sys.drivers, d);
    if !step.MatchRide? {
      StepMakes(sys.drivers, step);
    }
  }

  /** One profile per user and per email address. */
  ghost predicate UniqueEmails(rows: map<DriverId, DriverRow>) {
    forall d, e | d in rows && e in rows && rows[d].email == rows[e].email :: d == e
  }

  lemma ChangeKeepsEmails(s: DriverState, c: Change)
    requires UniqueEmails(s.rows) && AboutKnownDriver(s, c) && Sensible(s.rows, c)
    ensures UniqueEmails(Make(s, c).rows)
  {
  }

  lemma {:induction false} EmailsStayUnique(sys: System, steps: seq<Step>)
    requires UniqueEmails(sys.drivers.rows) && Legal(sys, steps)
    ensures UniqueEmails(End(sys, steps).drivers.rows)
  {
    if steps != [] {
      var before, last := End(sys, steps[..|steps| - 1]), steps[|steps| - 1];
      EmailsStayUnique(sys, steps[..|steps| - 1]);
      if !last.MatchRide? {
        StepMakes(before.drivers, last);
        StepIsSensible(before, last);
        ChangeKeepsEmails(before.drivers, ChangeOf(before.drivers, last));
      }
    }
  }

  /** A driver is where their last ping said, in the table, and in the pool if they are available. */
  lemma PingPlacesTheDriver(sys: System, d: DriverId, lat: real, lng: real)
    requires Sound(sys) && d in sys.drivers.rows
    ensures var after := Apply(sys, Ping(d, lat, lng)).drivers;
            && after.rows == sys.drivers.rows[d := sys.drivers.rows[d].(lat := Some(lat), lng := Some(lng))]
            && after.pool.members == (if sys.drivers.rows[d].status == Available
                                      then sys.drivers.pool.members[d := Point(lat, lng)] else sys.drivers.pool.members)
            && after.statusLog == sys.drivers.statusLog
  {
    PositionWritesDo(sys.drivers, d, lat, lng);
  }

  /** The status diagram: what takes a row to another status. */
  predicate LeadsTo(row: DriverRow, d: DriverId, step: Step, to: DriverStatus) {
    match step
    case Patch(id, status) =>
      id == d && status == to && row.status != Busy && to != Busy && (to == Available ==> row.hasPhoto)
    case Photo(e) =>
      e.role == DriverRole && e.user == row.userId && !e.hasPhoto && row.status == Available && to == Offline
    case Assign(e) => e.driver == d && to == Busy
    case Finish(e) => e.driver == Some(d) && row.status == Busy && to == (if row.hasPhoto then Available else Offline)
    case _ => false
  }

  /** A row changes to another status exactly by these steps: nobody but an assignment makes a driver
      busy (also an offline one), and nobody but a finish ends it. */
  lemma StatusDiagram(sys: System, step: Step, d: DriverId, to: DriverStatus)
    requires Sound(sys) && Possible(sys, step) && d in sys.drivers.rows && to != sys.drivers.rows[d].status
    ensures d in Apply(sys, step).drivers.rows
    ensures Apply(sys, step).drivers.rows[d].status == to <==> LeadsTo(sys.drivers.rows[d], d, step, to)
  {
    StatusOfStep(sys, step, d);
  }

  // ---------------------------------------------------------------------------------------------
  // A busy driver stays busy and unmatched until a ride of theirs finishes
  // ---------------------------------------------------------------------------------------------

  predicate Releases(step: Step, d: DriverId) {
    step.Finish? && step.finished.driver == Some(d)
  }

  predicate Takes(step: Step, d: DriverId) {
    step.MatchRide? && Taken(step.call) == Some(d)
  }

  lemma BusyStep(sys: System, step: Step, d: DriverId)
    requires Sound(sys) && Possible(sys, step) && !Releases(step, d)
    requires d in sys.drivers.rows && sys.drivers.rows[d].status == Busy
    ensures d in Apply(sys, step).drivers.rows && Apply(sys, step).drivers.rows[d].status == Busy
    ensures !Takes(step, d)
  {
    assert IndexAgrees(sys.drivers, d);
    StatusOfStep(sys, step, d);
  }

  lemma {:induction false} BusyUntilFinished(sys: System, steps: seq<Step>, d: DriverId)
    requires Sound(sys) && Legal(sys, steps)
    requires d in sys.drivers.rows && sys.drivers.rows[d].status == Busy
    requires forall i | 0 <= i < |steps| :: !Releases(steps[i], d)
    ensures d in End(sys, steps).drivers.rows && End(sys, steps).drivers.rows[d].status == Busy
    ensures d !in End(sys, steps).drivers.pool.members
    ensures forall i | 0 <= i < |steps| :: !Takes(steps[i], d)
  {
    PoolIsAnExactIndex(sys, steps);
    if steps != [] {
      var before, last := steps[..|steps| - 1], steps[|steps| - 1];
      forall i | 0 <= i < |before| ensures !Releases(before[i], d) {
        assert before[i] == steps[i];
      }
      BusyUntilFinished(sys, before, d);
      PoolIsAnExactIndex(sys, before);
      BusyStep(End(sys, before), last, d);
      forall i | 0 <= i < |steps| ensures !Takes(steps[i], d) {
        assert i < |before| ==> steps[i] == before[i];
      }
    }
    assert IndexAgrees(End(sys, steps).drivers, d);
  }

  /** The finish that ends it: back in the pool exactly with a photo and a position, offline without a photo. */
  lemma FinishReleases(sys: System, e: Finished, d: DriverId)
    requires Sound(sys) && d in sys.drivers.rows && sys.drivers.rows[d].status == Busy && e.driver == Some(d)
    ensures var row, after := sys.drivers.rows[d], Apply(sys, Finish(e)).drivers;
            && after.rows == sys.drivers.rows[d := row.(status := if row.hasPhoto then Available else Offline)]
            && (d in after.pool.members <==> row.hasPhoto && row.lat.Some? && row.lng.Some?)
            && (forall other | other != d :: other in after.pool.members <==> other in sys.drivers.pool.members)
            && after.statusLog == sys.drivers.statusLog
                 + [StatusEvent(d, after.rows[d].status,
                                Some(if e.status == Cancelled then RideCancelled else RideCompleted), Some(e.ride))]
  {
    assert IndexAgrees(sys.drivers, d);
    StepMakes(sys.drivers, Finish(e));
    var next := if sys.drivers.rows[d].hasPhoto then Available else Offline;
    StatusWritesDo(sys.drivers, sys.drivers.rows[d], d, next,
                   Some(if e.status == Cancelled then RideCancelled else RideCompleted), Some(e.ride));
  }

  // ---------------------------------------------------------------------------------------------
  // Pool conservation
  // ---------------------------------------------------------------------------------------------

  /** How many entries name driver `d`. */
  function Naming(list: seq<Assigned>, d: DriverId): nat {
    if list == [] then 0
    else Naming(list[..|list| - 1], d) + if list[|list| - 1].driver == d then 1 else 0
  }

  lemma NamingAppended(list: seq<Assigned>, a: Assigned, d: DriverId)
    ensures Naming(list + [a], d) == Naming(list, d) + if a.driver == d then 1 else 0
  {
    assert (list + [a])[..|list|] == list;
  }

  /** Every insertion of `d` is still pooled, was removed by a status change, was announced as an
      assignment, or was lost to a matching error after the claim. */
  predicate Conserved(sys: System, d: DriverId) {
    && Balanced(sys.drivers.pool, d)
    && Claims(sys.drivers.pool.commands, d) == Naming(sys.matching.assignments, d) + Naming(sys.matching.stranded, d)
  }

  ghost predicate Accounts(sys: System) {
    && (forall d :: Conserved(sys, d))
    && CountersAgree(sys.matching)
  }

  /** A step of driver-service sends Redis at most one command. */
  lemma StepCommands(s: DriverState, step: Step) returns (d: DriverId, at: Point)
    requires !step.MatchRide?
    ensures var pool := PerformAll(s, DriverPlan(s, step).writes).pool;
            pool == s.pool || pool == Add(s.pool, d, at) || pool == Remove(s.pool, d)
  {
    StepMakes(s, step);
    d := match step
      case Patch(id, _) => id
      case Ping(id, _, _) => id
      case Photo(e) => if DriverOfUser(s.rows, e.user).Some? then DriverOfUser(s.rows, e.user).value else ""
      case Assign(e) => e.driver
      case Finish(e) => if e.driver.Some? then e.driver.value else ""
      case _ => "";
    at := if step.Ping? then Point(step.lat, step.lng)
          else if d in s.rows && s.rows[d].lat.Some? && s.rows[d].lng.Some?
          then Point(s.rows[d].lat.value, s.rows[d].lng.value)
          else Point(0.0, 0.0);
  }

  lemma StepKeepsAccounts(sys: System, step: Step)
    requires Accounts(sys) && Possible(sys, step)
    ensures Accounts(Apply(sys, step))
  {
    var pool, after := sys.drivers.pool, Apply(sys, step);
    var d, at := "", Point(0.0, 0.0);
    if !step.MatchRide? {
      d, at := StepCommands(sys.drivers, step);
    } else if Taken(step.call).Some? {
      d := Taken(step.call).value;
    }
    forall e ensures Conserved(after, e) {
      assert Conserved(sys, e);
      OperationsKeepBalance(pool, d, at, e);
      if step.MatchRide? {
        Appended(pool.commands, Claimed(d), e);
        NamingAppended(sys.matching.assignments, Assigned(step.request.ride, d), e);
        NamingAppended(sys.matching.stranded, Assigned(step.request.ride, d), e);
      } else {
        Appended(pool.commands, Added(d, at, d !in pool.members), e);
        Appended(pool.commands, Removed(d, d in pool.members), e);
      }
    }
  }

  lemma {:induction false} PoolIsConserved(sys: System, steps: seq<Step>)
    requires Accounts(sys) && Legal(sys, steps)
    ensures Accounts(End(sys, steps))
  {
    if steps != [] {
      PoolIsConserved(sys, steps[..|steps| - 1]);
      StepKeepsAccounts(End(sys, steps[..|steps| - 1]), steps[|steps| - 1]);
    }
  }

  /** The account of one driver after any run of the system from scratch. */
  lemma PoolConservation(steps: seq<Step>, d: DriverId)
    requires Legal(EMPTY_SYSTEM, steps)
    ensures var end := End(EMPTY_SYSTEM, steps);
            && Insertions(end.drivers.pool.commands, d)
                 == Naming(end.matching.assignments, d) + Naming(end.matching.stranded, d)
                    + Removals(end.drivers.pool.commands, d) + (if d in end.drivers.pool.members then 1 else 0)
            && |end.matching.assignments| == end.matching.succeeded
            && end.matching.attempts == end.matching.succeeded + end.matching.noDriver + end.matching.caught
  {
    assert Accounts(EMPTY_SYSTEM) by {
      forall e ensures Conserved(EMPTY_SYSTEM, e) {}
    }
    PoolIsConserved(EMPTY_SYSTEM, steps);
    assert Conserved(End(EMPTY_SYSTEM, steps), d);
  }

  /** How a match ended: with an assignment, with nobody in range, or in the catch block. */
  datatype MatchOutcome = Announced | Nobody | Errored

  predicate EndedIn(step: Step, o: MatchOutcome) {
    && step.MatchRide?
    && match o
       case Announced => step.call.Answered? && step.call.answer.Some? && step.published
       case Nobody => step.call.Answered? && step.call.answer.None?
       case Errored => step.call.Failed? || (step.call.answer.Some? && !step.published)
  }

  function CountOf(steps: seq<Step>, o: MatchOutcome): nat {
    if steps == [] then 0 else CountOf(steps[..|steps| - 1], o) + if EndedIn(steps[|steps| - 1], o) then 1 else 0
  }

  /** Each counter counts what it is named after. */
  lemma {:induction false} CountersCountTheMatches(steps: seq<Step>)
    ensures var m := End(EMPTY_SYSTEM, steps).matching;
            && m.succeeded == CountOf(steps, Announced)
            && m.noDriver == CountOf(steps, Nobody)
            && m.caught == CountOf(steps, Errored)
            && m.attempts == CountOf(steps, Announced) + CountOf(steps, Nobody) + CountOf(steps, Errored)
  {
    if steps != [] {
      CountersCountTheMatches(steps[..|steps| - 1]);
    }
  }

  // ---------------------------------------------------------------------------------------------
  // The topics rebuild the table
  // ---------------------------------------------------------------------------------------------

  /** The status a reader of `driver.status.updated` believes `d` has, starting from `status`. */
  function FoldStatus(log: seq<StatusEvent>, d: DriverId, status: DriverStatus): DriverStatus {
    if log == [] then status
    else if log[|log| - 1].driver == d then log[|log| - 1].status
    else FoldStatus(log[..|log| - 1], d, status)
  }

  function FoldPosition(log: seq<LocationEvent>, d: DriverId, at: (Option<real>, Option<real>))
    : (Option<real>, Option<real>)
  {
    if log == [] then at
    else if log[|log| - 1].driver == d then (Some(log[|log| - 1].lat), Some(log[|log| - 1].lng))
    else FoldPosition(log[..|log| - 1], d, at)
  }

  /** What was published between two states of driver-service. */
  ghost predicate Follows(s: DriverState, t: DriverState) {
    s.statusLog <= t.statusLog && s.locationLog <= t.locationLog
  }

  /** Reading the part of the two topics published since `s` turns the row of `s` into the row of `t`. */
  ghost predicate Rebuilds(s: DriverState, t: DriverState, d: DriverId)
    requires Follows(s, t) && d in s.rows
  {
    && d in t.rows
    && t.rows[d].status == FoldStatus(t.statusLog[|s.statusLog|..], d, s.rows[d].status)
    && (t.rows[d].lat, t.rows[d].lng)
         == FoldPosition(t.locationLog[|s.locationLog|..], d, (s.rows[d].lat, s.rows[d].lng))
  }

  lemma FoldAppended(statuses: seq<StatusEvent>, positions: seq<LocationEvent>, e: StatusEvent, l: LocationEvent,
                     d: DriverId, status: DriverStatus, at: (Option<real>, Option<real>))
    ensures FoldStatus(statuses + [e], d, status) == if e.driver == d then e.status else FoldStatus(statuses, d, status)
    ensures FoldPosition(positions + [l], d, at)
         == if l.driver == d then (Some(l.lat), Some(l.lng)) else FoldPosition(positions, d, at)
  {
    assert (statuses + [e])[..|statuses|] == statuses && (positions + [l])[..|positions|] == positions;
  }

  /** A step publishes at most one event per topic, and the event says what the step did to the row. */
  lemma StepTells(sys: System, step: Step, d: DriverId) returns (e: StatusEvent, l: LocationEvent)
    requires Possible(sys, step) && d in sys.drivers.rows
    ensures var s, t := sys.drivers, Apply(sys, step).drivers;
            && d in t.rows
            && (|| (t.statusLog == s.statusLog && t.rows[d].status == s.rows[d].status)
                || (t.statusLog == s.statusLog + [e]
                    && t.rows[d].status == if e.driver == d then e.status else s.rows[d].status))
            && (|| (t.locationLog == s.locationLog && t.rows[d].lat == s.rows[d].lat && t.rows[d].lng == s.rows[d].lng)
                || (t.locationLog == s.locationLog + [l]
                    && (t.rows[d].lat, t.rows[d].lng)
                         == if l.driver == d then (Some(l.lat), Some(l.lng)) else (s.rows[d].lat, s.rows[d].lng)))
  {
    var s, t := sys.drivers, Apply(sys, step).drivers;
    if !step.MatchRide? {
      StepMakes(s, step);
    }
    e := if |t.statusLog| > |s.statusLog| then t.statusLog[|s.statusLog|] else StatusEvent(d, Busy, None, None);
    l := if |t.locationLog| > |s.locationLog| then t.locationLog[|s.locationLog|] else LocationEvent(d, 0.0, 0.0);
  }

  /** The two topics and the table never disagree, whatever part of the run is replayed. */
  lemma {:induction false} LogsRebuildTheTable(sys: System, steps: seq<Step>, d: DriverId)
    requires Legal(sys, steps) && d in sys.drivers.rows
    ensures Follows(sys.drivers, End(sys, steps).drivers)
    ensures Rebuilds(sys.drivers, End(sys, steps).drivers, d)
  {
    var s := sys.drivers;
    if steps != [] {
      var before, last := steps[..|steps| - 1], steps[|steps| - 1];
      LogsRebuildTheTable(sys, before, d);
      var m, t := End(sys, before).drivers, End(sys, steps).drivers;
      var e, l := StepTells(End(sys, before), last, d);
      var statuses, positions := m.statusLog[|s.statusLog|..], m.locationLog[|s.locationLog|..];
      FoldAppended(statuses, positions, e, l, d, s.rows[d].status, (s.rows[d].lat, s.rows[d].lng));
      if t.statusLog == m.statusLog + [e] { assert t.statusLog[|s.statusLog|..] == statuses + [e]; }
      if t.locationLog == m.locationLog + [l] { assert t.locationLog[|s.locationLog|..] == positions + [l]; }
    }
  }

  /** From the profile's creation: the topics alone, folded from OFFLINE and the creation position, give the row. */
  lemma LogsRebuildFromCreation(sys: System, create: Step, steps: seq<Step>)
    requires create.Create? && Possible(sys, create)
    requires PlanCreate(sys.drivers, create.newId, create.user, create.email, create.lat0, create.lng0).reply == Done
    requires Legal(Apply(sys, create), steps)
    ensures var d, end := create.newId, End(Apply(sys, create), steps).drivers;
            && sys.drivers.statusLog <= end.statusLog && sys.drivers.locationLog <= end.locationLog
            && d in end.rows
            && end.rows[d].status == FoldStatus(end.statusLog[|sys.drivers.statusLog|..], d, Offline)
            && (end.rows[d].lat, end.rows[d].lng)
                 == FoldPosition(end.locationLog[|sys.drivers.locationLog|..], d, (create.lat0, create.lng0))
  {
    StepMakes(sys.drivers, create);
    LogsRebuildTheTable(Apply(sys, create), steps, create.newId);
  }
}
