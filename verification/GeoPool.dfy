/**
 The Redis GEO set `drivers:available`, shared by driver-service (which inserts, moves and removes
 drivers) and matching-service (which claims the nearest one). Distance is a parameter: any total
 function will do, and ties are broken arbitrarily.
 */
module GeoPool {
  import opened Wrappers

  type DriverId = string

  datatype DriverStatus = Available | Busy | Offline

  datatype Point = Point(lat: real, lng: real)

  type Metric = (Point, Point) -> real

  /** A command Redis executed, with its reply: GEOADD says whether the member is new, ZREM whether
      there was one to remove. A claim that found nobody leaves no trace. */
  datatype Command =
    | Added(driver: DriverId, at: Point, isNew: bool)
    | Removed(driver: DriverId, wasMember: bool)
    | Claimed(driver: DriverId)

  datatype Pool = Pool(members: map<DriverId, Point>, commands: seq<Command>)

  const EMPTY_POOL := Pool(map[], [])

  function Add(pool: Pool, driver: DriverId, at: Point): Pool {
    Pool(pool.members[driver := at], pool.commands + [Added(driver, at, driver !in pool.members)])
  }

  function Remove(pool: Pool, driver: DriverId): Pool {
    Pool(pool.members - {driver}, pool.commands + [Removed(driver, driver in pool.members)])
  }

  function Claim(pool: Pool, claimed: Option<DriverId>): Pool {
    match claimed
    case None => pool
    case Some(driver) => Pool(pool.members - {driver}, pool.commands + [Claimed(driver)])
  }

  function StatusChange(pool: Pool, driver: DriverId, status: DriverStatus,
                        lat: Option<real>, lng: Option<real>): Pool {
    if status == Available && lat.Some? && lng.Some? then
      Add(pool, driver, Point(lat.value, lng.value))
    else
      Remove(pool, driver)
  }

  function InRange(members: map<DriverId, Point>, metric: Metric, pickup: Point, radius: real): set<DriverId> {
    set d | d in members && metric(pickup, members[d]) <= radius
  }

  predicate IsNearest(members: map<DriverId, Point>, metric: Metric, pickup: Point, radius: real, driver: DriverId) {
    && driver in members
    && metric(pickup, members[driver]) <= radius
    && forall d | d in members && metric(pickup, members[d]) <= radius ::
         metric(pickup, members[driver]) <= metric(pickup, members[d])
  }

  /** What the claim script may answer: a nearest driver in range, or nil when nobody is. */
  predicate IsClaimAnswer(members: map<DriverId, Point>, metric: Metric, pickup: Point, radius: real,
                          answer: Option<DriverId>) {
    match answer
    case None => InRange(members, metric, pickup, radius) == {}
    case Some(d) => IsNearest(members, metric, pickup, radius, d)
  }

  lemma {:induction false} SomeoneIsNearestOf(members: map<DriverId, Point>, metric: Metric, pickup: Point,
                                              ds: set<DriverId>)
    returns (nearest: DriverId)
    requires ds != {} && ds <= members.Keys
    ensures nearest in ds
    ensures forall d | d in ds :: metric(pickup, members[nearest]) <= metric(pickup, members[d])
    decreases |ds|
  {
    var x :| x in ds;
    if ds == {x} {
      nearest := x;
    } else {
      assert |ds - {x}| < |ds|;
      assert ds - {x} != {};
      var y := SomeoneIsNearestOf(members, metric, pickup, ds - {x});
      nearest := if metric(pickup, members[x]) <= metric(pickup, members[y]) then x else y;
    }
  }

  /** The script always has an answer, and it is nil exactly when nobody is in range. */
  lemma ClaimAnswerExists(members: map<DriverId, Point>, metric: Metric, pickup: Point, radius: real)
    ensures exists answer :: IsClaimAnswer(members, metric, pickup, radius, answer)
    ensures InRange(members, metric, pickup, radius) != {} ==>
              exists d :: IsNearest(members, metric, pickup, radius, d)
  {
    var ds := InRange(members, metric, pickup, radius);
    if ds == {} {
      assert IsClaimAnswer(members, metric, pickup, radius, None);
    } else {
      var d := SomeoneIsNearestOf(members, metric, pickup, ds);
      assert IsNearest(members, metric, pickup, radius, d);
      assert IsClaimAnswer(members, metric, pickup, radius, Some(d));
    }
  }

  /** The shared set itself. `commands` records what the server executed. */
  class GeoSet {
    var members: map<DriverId, Point>
    ghost var commands: seq<Command>

    ghost function Contents(): Pool
      reads this
    {
      Pool(members, commands)
    }

    constructor ()
      ensures Contents() == EMPTY_POOL
    {
      members := map[];
      commands := [];
    }

    /** GEOADD: driver-service's `updateDriverLocation`. */
    method UpdateDriverLocation(driver: DriverId, lat: real, lng: real)
      modifies this
      ensures Contents() == Add(old(Contents()), driver, Point(lat, lng))
    {
      commands := commands + [Added(driver, Point(lat, lng), driver !in members)];
      members := members[driver := Point(lat, lng)];
    }

    /** ZREM: `removeDriverFromGeo`. */
    method RemoveDriverFromGeo(driver: DriverId)
      modifies this
      ensures Contents() == Remove(old(Contents()), driver)
    {
      commands := commands + [Removed(driver, driver in members)];
      members := members - {driver};
    }

    method HandleDriverStatusChange(driver: DriverId, status: DriverStatus, lat: Option<real>, lng: Option<real>)
      modifies this
      ensures Contents() == StatusChange(old(Contents()), driver, status, lat, lng)
    {
      if status == Available && lat.Some? && lng.Some? {
        UpdateDriverLocation(driver, lat.value, lng.value);
      } else {
        RemoveDriverFromGeo(driver);
      }
    }

    /** The Lua script: GEOSEARCH ... ASC COUNT 1, then ZREM, in one step. */
    method ClaimNearestDriver(pickup: Point, radius: real, metric: Metric) returns (claimed: Option<DriverId>)
      modifies this
      ensures IsClaimAnswer(old(members), metric, pickup, radius, claimed)
      ensures Contents() == Claim(old(Contents()), claimed)
    {
      if InRange(members, metric, pickup, radius) == {} {
        return None;
      }
      ClaimAnswerExists(members, metric, pickup, radius);
      var driver :| driver in members && IsNearest(members, metric, pickup, radius, driver);
      commands := commands + [Claimed(driver)];
      members := members - {driver};
      return Some(driver);
    }
  }

  // ---------------------------------------------------------------------------------------------
  // Repeated claims are a selection sort
  // ---------------------------------------------------------------------------------------------

  /** `answers` are what consecutive claims at one pickup returned, with no insertion in between. */
  ghost predicate ClaimsInARow(members: map<DriverId, Point>, metric: Metric, pickup: Point, radius: real,
                               answers: seq<Option<DriverId>>)
    decreases |answers|
  {
    answers == [] ||
    (&& IsClaimAnswer(members, metric, pickup, radius, answers[0])
     && ClaimsInARow(Claim(Pool(members, []), answers[0]).members, metric, pickup, radius, answers[1..]))
  }

  /** Driver `d` is in range and at least as far as `near`. */
  ghost predicate NotNearer(members: map<DriverId, Point>, metric: Metric, pickup: Point, near: DriverId, d: DriverId) {
    near in members && d in members && metric(pickup, members[near]) <= metric(pickup, members[d])
  }

  /** Selection sort: the claims return different in-range drivers by nondecreasing distance, nobody
      left behind is nearer than one returned, and nil comes exactly once everybody in range is gone. */
  ghost predicate IsSelectionSort(members: map<DriverId, Point>, metric: Metric, pickup: Point, radius: real,
                                  answers: seq<Option<DriverId>>) {
    var near := InRange(members, metric, pickup, radius);
    && (forall i | 0 <= i < |answers| :: answers[i].None? <==> i >= |near|)
    && (forall i | 0 <= i < |answers| && answers[i].Some? :: answers[i].value in near)
    && (forall i, j | 0 <= i < j < |answers| && answers[i].Some? && answers[j].Some? ::
          && answers[i].value != answers[j].value
          && NotNearer(members, metric, pickup, answers[i].value, answers[j].value))
    && (forall i, d | 0 <= i < |answers| && answers[i].Some? && d in near && Some(d) !in answers ::
          NotNearer(members, metric, pickup, answers[i].value, d))
  }

  lemma InRangeAfterClaim(members: map<DriverId, Point>, metric: Metric, pickup: Point, radius: real, d: DriverId)
    requires d in InRange(members, metric, pickup, radius)
    ensures InRange(members - {d}, metric, pickup, radius) == InRange(members, metric, pickup, radius) - {d}
    ensures |InRange(members - {d}, metric, pickup, radius)| == |InRange(members, metric, pickup, radius)| - 1
  {
  }

  /** Consecutive claims are a selection sort, and every selection sort is a possible run of claims. */
  lemma {:induction false} RepeatedClaimsAreASelectionSort(members: map<DriverId, Point>, metric: Metric, pickup: Point,
                                                           radius: real, answers: seq<Option<DriverId>>)
    ensures ClaimsInARow(members, metric, pickup, radius, answers)
       <==> IsSelectionSort(members, metric, pickup, radius, answers)
    decreases |answers|
  {
    if answers != [] {
      var first, rest := answers[0], answers[1..];
      var after := Claim(Pool(members, []), first).members;
      RepeatedClaimsAreASelectionSort(after, metric, pickup, radius, rest);
      if ClaimsInARow(members, metric, pickup, radius, answers) {
        SortedFromClaim(members, metric, pickup, radius, answers);
      }
      if IsSelectionSort(members, metric, pickup, radius, answers) {
        ClaimFromSorted(members, metric, pickup, radius, answers);
      }
    }
  }

  lemma SortedFromClaim(members: map<DriverId, Point>, metric: Metric, pickup: Point, radius: real,
                        answers: seq<Option<DriverId>>)
    requires answers != []
    requires IsClaimAnswer(members, metric, pickup, radius, answers[0])
    requires IsSelectionSort(Claim(Pool(members, []), answers[0]).members, metric, pickup, radius, answers[1..])
    ensures IsSelectionSort(members, metric, pickup, radius, answers)
  {
    var near := InRange(members, metric, pickup, radius);
    var after := Claim(Pool(members, []), answers[0]).members;
    var rest := answers[1..];
    if answers[0].Some? {
      InRangeAfterClaim(members, metric, pickup, radius, answers[0].value);
    }
    forall i | 0 <= i < |answers|
      ensures answers[i].None? <==> i >= |near|
      ensures answers[i].Some? ==> answers[i].value in near
      ensures 0 < i && answers[i].Some? ==>
                && answers[0].Some? && answers[i].value != answers[0].value
                && NotNearer(members, metric, pickup, answers[0].value, answers[i].value)
    {
      if i > 0 { assert answers[i] == rest[i - 1]; }
    }
    forall i, j | 0 <= i < j < |answers| && answers[i].Some? && answers[j].Some?
      ensures answers[i].value != answers[j].value
      ensures NotNearer(members, metric, pickup, answers[i].value, answers[j].value)
    {
      if i > 0 {
        assert answers[i] == rest[i - 1] && answers[j] == rest[j - 1];
        assert NotNearer(after, metric, pickup, rest[i - 1].value, rest[j - 1].value);
      }
    }
    forall i, d | 0 <= i < |answers| && answers[i].Some? && d in near && Some(d) !in answers
      ensures NotNearer(members, metric, pickup, answers[i].value, d)
    {
      if i > 0 {
        assert answers[i] == rest[i - 1];
        assert d in InRange(after, metric, pickup, radius);
        assert NotNearer(after, metric, pickup, rest[i - 1].value, d);
      }
    }
  }

  lemma ClaimFromSorted(members: map<DriverId, Point>, metric: Metric, pickup: Point, radius: real,
                        answers: seq<Option<DriverId>>)
    requires answers != []
    requires IsSelectionSort(members, metric, pickup, radius, answers)
    ensures IsClaimAnswer(members, metric, pickup, radius, answers[0])
    ensures IsSelectionSort(Claim(Pool(members, []), answers[0]).members, metric, pickup, radius, answers[1..])
  {
    var near := InRange(members, metric, pickup, radius);
    var after := Claim(Pool(members, []), answers[0]).members;
    var rest := answers[1..];
    forall i | 0 <= i < |rest| ensures rest[i] == answers[i + 1] {}
    if answers[0].None? {
      assert near == {};
    } else {
      InRangeAfterClaim(members, metric, pickup, radius, answers[0].value);
      forall d | d in members && metric(pickup, members[d]) <= radius
        ensures metric(pickup, members[answers[0].value]) <= metric(pickup, members[d])
      {
        assert d in near;
        if Some(d) in answers {
          var j :| 0 <= j < |answers| && answers[j] == Some(d);
          assert j > 0 ==> NotNearer(members, metric, pickup, answers[0].value, answers[j].value);
        } else {
          assert NotNearer(members, metric, pickup, answers[0].value, d);
        }
      }
      forall i, j | 0 <= i < j < |rest| && rest[i].Some? && rest[j].Some?
        ensures rest[i].value != rest[j].value && NotNearer(after, metric, pickup, rest[i].value, rest[j].value)
      {
        assert NotNearer(members, metric, pickup, answers[i + 1].value, answers[j + 1].value);
      }
      forall i, d | 0 <= i < |rest| && rest[i].Some? && d in InRange(after, metric, pickup, radius) && Some(d) !in rest
        ensures NotNearer(after, metric, pickup, rest[i].value, d)
      {
        assert Some(d) !in answers;
        assert NotNearer(members, metric, pickup, answers[i + 1].value, d);
      }
    }
  }

  /** However many claims are made, a driver out of range stays where they were. */
  lemma {:induction false} OutOfRangeIsNeverClaimed(members: map<DriverId, Point>, metric: Metric, pickup: Point,
                                                    radius: real, answers: seq<Option<DriverId>>, d: DriverId)
    requires ClaimsInARow(members, metric, pickup, radius, answers)
    requires d in members && metric(pickup, members[d]) > radius
    ensures d in AfterClaims(members, answers) && AfterClaims(members, answers)[d] == members[d]
    decreases |answers|
  {
    if answers != [] {
      OutOfRangeIsNeverClaimed(Claim(Pool(members, []), answers[0]).members, metric, pickup, radius, answers[1..], d);
    }
  }

  /** The members left after the claims. */
  function AfterClaims(members: map<DriverId, Point>, answers: seq<Option<DriverId>>): map<DriverId, Point>
    decreases |answers|
  {
    if answers == [] then members
    else AfterClaims(Claim(Pool(members, []), answers[0]).members, answers[1..])
  }

  /** Once a claim has answered nil, exactly the drivers farther away than the radius are left. */
  lemma {:induction false} OnlyOutOfRangeIsLeft(members: map<DriverId, Point>, metric: Metric, pickup: Point,
                                                radius: real, answers: seq<Option<DriverId>>, d: DriverId)
    requires ClaimsInARow(members, metric, pickup, radius, answers) && None in answers && d in members
    ensures d in AfterClaims(members, answers) <==> metric(pickup, members[d]) > radius
    decreases |answers|
  {
    var first, rest := answers[0], answers[1..];
    var after := Claim(Pool(members, []), first).members;
    if metric(pickup, members[d]) > radius {
      OutOfRangeIsNeverClaimed(members, metric, pickup, radius, answers, d);
    } else {
      assert d in InRange(members, metric, pickup, radius);
      assert first.Some?;
      if d == first.value {
        NobodyReturns(after, rest, d);
      } else {
        OnlyOutOfRangeIsLeft(after, metric, pickup, radius, rest, d);
      }
    }
  }

  lemma {:induction false} NobodyReturns(members: map<DriverId, Point>, answers: seq<Option<DriverId>>, d: DriverId)
    requires d !in members
    ensures d !in AfterClaims(members, answers)
    decreases |answers|
  {
    if answers != [] {
      NobodyReturns(Claim(Pool(members, []), answers[0]).members, answers[1..], d);
    }
  }
}
