/** What `driver.status.updated` can say: for each driver a history that follows the status diagram, with reasons. */
module StatusHistory {
  import opened Wrappers
  import opened Drivers
  import opened GeoPool
  import opened Dispatch
  import opened DispatchRuns

  /** An event and the status its driver had, by the events before it. A change without reason is the driver's own
      and touches no ride; a removed photo takes an available driver offline; a ride assigned starts BUSY, and a
      ride completed or cancelled, and nothing else, ends it. */
  predicate Fits(e: StatusEvent, before: DriverStatus) {
    match e.reason
    case None => e.ride.None? && e.status != Busy && before != Busy
    case Some(PhotoRemoved) => e.ride.None? && e.status == Offline && before == Available
    case Some(RideAssigned) => e.ride.Some? && e.status == Busy && before != Busy
    case Some(RideCompleted) => e.ride.Some? && e.status != Busy && before == Busy
    case Some(RideCancelled) => e.ride.Some? && e.status != Busy && before == Busy
  }

  predicate IsHistory(log: seq<StatusEvent>) {
    log == [] ||
    (&& IsHistory(log[..|log| - 1])
     && Fits(log[|log| - 1], FoldStatus(log[..|log| - 1], log[|log| - 1].driver, Offline)))
  }

  /** The history is one, and ends with the statuses of the table. */
  ghost predicate Recorded(s: DriverState) {
    && IsHistory(s.statusLog)
    && (forall e | e in s.statusLog :: e.driver in s.rows)
    && (forall d | d in s.rows :: s.rows[d].status == FoldStatus(s.statusLog, d, Offline))
  }

  lemma {:induction false} NothingFolded(log: seq<StatusEvent>, d: DriverId)
    requires forall e | e in log :: e.driver != d
    ensures FoldStatus(log, d, Offline) == Offline
  {
    if log != [] {
      assert log[|log| - 1] in log;
      forall e | e in log[..|log| - 1] ensures e in log {}
      NothingFolded(log[..|log| - 1], d);
    }
  }

  lemma StepIsRecorded(sys: System, step: Step)
    requires Recorded(sys.drivers) && Possible(sys, step) && !step.MatchRide?
    ensures Recorded(Apply(sys, step).drivers)
  {
    var s, t := sys.drivers, Apply(sys, step).drivers;
    StepMakes(s, step);
    StepIsSensible(sys, step);
    if t.statusLog != s.statusLog {
      var e := t.statusLog[|s.statusLog|];
      assert t.statusLog == s.statusLog + [e];
      EventFits(s, step, e);
    }
    forall d | d in t.rows
      ensures t.rows[d].status == FoldStatus(t.statusLog, d, Offline)
    {
      if d !in s.rows {
        NothingFolded(s.statusLog, d);
      } else {
        var e, l := StepTells(sys, step, d);
        FoldAppended(s.statusLog, s.locationLog, e, l, d, Offline, (None, None));
      }
    }
    forall e | e in t.statusLog ensures e.driver in t.rows {}
  }

  lemma EventFits(s: DriverState, step: Step, e: StatusEvent)
    requires Recorded(s) && !step.MatchRide? && AboutKnownDriver(s, ChangeOf(s, step))
    requires Make(s, ChangeOf(s, step)).statusLog == s.statusLog + [e]
    ensures e.driver in s.rows && IsHistory(s.statusLog + [e])
  {
    assert (s.statusLog + [e])[..|s.statusLog|] == s.statusLog && (s.statusLog + [e])[|s.statusLog|] == e;
    assert Make(s, ChangeOf(s, step)).statusLog[|s.statusLog|] == e;
  }

  /** In every reachable state the topic is such a history, for all drivers at once. */
  lemma {:induction false} StatusTopicIsAHistory(steps: seq<Step>)
    requires Legal(EMPTY_SYSTEM, steps)
    ensures Recorded(End(EMPTY_SYSTEM, steps).drivers)
  {
    if steps != [] {
      var before, last := End(EMPTY_SYSTEM, steps[..|steps| - 1]), steps[|steps| - 1];
      StatusTopicIsAHistory(steps[..|steps| - 1]);
      if !last.MatchRide? { StepIsRecorded(before, last); }
    }
  }

  /** Who says what: a change the driver makes has no reason, and every other names its cause and its ride. */
  lemma ReasonsAreTold(sys: System, step: Step, e: StatusEvent)
    requires !step.MatchRide? && Apply(sys, step).drivers.statusLog == sys.drivers.statusLog + [e]
    ensures match step
            case Patch(id, status) => e == StatusEvent(id, status, None, None)
            case Photo(p) =>
              && e == StatusEvent(e.driver, Offline, Some(PhotoRemoved), None)
              && e.driver in sys.drivers.rows && sys.drivers.rows[e.driver].userId == p.user && !p.hasPhoto
            case Assign(a) => e == StatusEvent(a.driver, Busy, Some(RideAssigned), Some(a.ride))
            case Finish(f) =>
              && f.driver == Some(e.driver) && e.ride == Some(f.ride)
              && e.reason == Some(if f.status == Cancelled then RideCancelled else RideCompleted)
            case _ => false
  {
    StepMakes(sys.drivers, step);
    assert Apply(sys, step).drivers.statusLog[|sys.drivers.statusLog|] == e;
  }
}
