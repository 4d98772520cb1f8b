/**
 The photo across services: auth-service logs `user.photo.updated` by user, driver-service consumes that
 log from an offset that may fall back, and matching claims drivers meanwhile.
 */
module PhotoSync {
  import opened Wrappers
  import opened GeoPool
  import opened Drivers
  import opened Dispatch
  import opened DispatchRuns
  import opened Profiles
  import opened PhotoOwnership

  datatype Sync = Sync(auth: AuthState, offset: nat, dispatch: System)

  const EMPTY_SYNC := Sync(NO_USERS, 0, EMPTY_SYSTEM)

  datatype SyncStep =
    | Auth(authStep: AuthStep)
    | Other(step: Step)
    | Consume
    | FallBack(to: nat)

  /** `Other` is everything of driver-service and matching but its photo handler. */
  predicate Enabled(w: Sync, e: SyncStep) {
    match e
    case Auth(step) => step.Register? ==> step.user !in w.auth.users
    case Other(step) => !step.Photo? && Possible(w.dispatch, step)
    case Consume => w.offset < |w.auth.topic|
    case FallBack(to) => to <= w.offset
  }

  ghost function Proceed(w: Sync, e: SyncStep): Sync
    requires Enabled(w, e)
  {
    match e
    case Auth(step) => w.(auth := AuthNext(w.auth, step))
    case Other(step) => w.(dispatch := Apply(w.dispatch, step))
    case Consume => w.(offset := w.offset + 1, dispatch := Apply(w.dispatch, Photo(w.auth.topic[w.offset])))
    case FallBack(to) => w.(offset := to)
  }

  ghost predicate EnabledRun(w: Sync, es: seq<SyncStep>)
    decreases |es|
  {
    es == [] || (Enabled(w, es[0]) && EnabledRun(Proceed(w, es[0]), es[1..]))
  }

  ghost function Final(w: Sync, es: seq<SyncStep>): Sync
    requires EnabledRun(w, es)
    decreases |es|
  {
    if es == [] then w else Final(Proceed(w, es[0]), es[1..])
  }

  /** Every delete publishes its event; a confirm need not. */
  predicate DeletesPublish(e: SyncStep) {
    e.Auth? && e.authStep.Delete? ==> e.authStep.kafkaUp
  }

  predicate EverythingPublishes(e: SyncStep) {
    e.Auth? ==> (e.authStep.Delete? ==> e.authStep.kafkaUp) && (e.authStep.Confirm? ==> e.authStep.kafkaUp)
  }

  // ---------------------------------------------------------------------------------------------
  // The last event of a user
  // ---------------------------------------------------------------------------------------------

  function LastFor(log: seq<PhotoEvent>, user: UserId): Option<PhotoEvent> {
    if log == [] then None
    else if log[|log| - 1].user == user then Some(log[|log| - 1])
    else LastFor(log[..|log| - 1], user)
  }

  lemma LastForAppended(log: seq<PhotoEvent>, e: PhotoEvent, user: UserId)
    ensures LastFor(log + [e], user) == if e.user == user then Some(e) else LastFor(log, user)
  {
    assert (log + [e])[..|log|] == log;
  }

  lemma {:induction false} LastForSplit(a: seq<PhotoEvent>, b: seq<PhotoEvent>, user: UserId)
    ensures LastFor(a + b, user) == if LastFor(b, user).Some? then LastFor(b, user) else LastFor(a, user)
    decreases |b|
  {
    if b == [] {
      assert a + b == a;
    } else {
      var front, last := b[..|b| - 1], b[|b| - 1];
      LastForSplit(a, front, user);
      assert a + b == (a + front) + [last];
      LastForAppended(a + front, last, user);
    }
  }

  function Unconsumed(w: Sync): seq<PhotoEvent>
    requires w.offset <= |w.auth.topic|
  {
    w.auth.topic[w.offset..]
  }

  /** Reading on: the last event of a user from `k` on, before and after one more event is passed. */
  lemma PassOne(log: seq<PhotoEvent>, k: nat, user: UserId)
    requires k < |log|
    ensures LastFor(log[k..], user) ==
              if LastFor(log[k + 1..], user).Some? then LastFor(log[k + 1..], user)
              else if log[k].user == user then Some(log[k]) else None
  {
    assert log[k..] == [log[k]] + log[k + 1..];
    LastForSplit([log[k]], log[k + 1..], user);
    LastForAppended([], log[k], user);
    assert [] + [log[k]] == [log[k]];
  }

  lemma ConsumeOne(w: Sync, user: UserId)
    requires w.offset < |w.auth.topic|
    ensures var e, rest := w.auth.topic[w.offset], w.auth.topic[w.offset + 1..];
            && LastFor(Unconsumed(w), user) ==
                 (if LastFor(rest, user).Some? then LastFor(rest, user) else if e.user == user then Some(e) else None)
            && (LastFor(rest, user).None? && e.user == user ==> LastFor(w.auth.topic, user) == Some(e))
  {
    PassOne(w.auth.topic, w.offset, user);
    SplitAtOffset(w, user);
  }

  lemma SplitAtOffset(w: Sync, user: UserId)
    requires w.offset <= |w.auth.topic|
    ensures LastFor(Unconsumed(w), user).Some? ==> LastFor(Unconsumed(w), user) == LastFor(w.auth.topic, user)
  {
    assert w.auth.topic == w.auth.topic[..w.offset] + Unconsumed(w);
    LastForSplit(w.auth.topic[..w.offset], Unconsumed(w), user);
  }

  lemma Publishing(w: Sync, e: PhotoEvent, user: UserId)
    requires w.offset <= |w.auth.topic|
    ensures var v := w.(auth := w.auth.(topic := w.auth.topic + [e]));
            && LastFor(v.auth.topic, user) == (if e.user == user then Some(e) else LastFor(w.auth.topic, user))
            && LastFor(Unconsumed(v), user) == (if e.user == user then Some(e) else LastFor(Unconsumed(w), user))
  {
    var v := w.(auth := w.auth.(topic := w.auth.topic + [e]));
    assert Unconsumed(v) == Unconsumed(w) + [e];
    LastForAppended(w.auth.topic, e, user);
    LastForAppended(Unconsumed(w), e, user);
  }

  // ---------------------------------------------------------------------------------------------
  // The gate
  // ---------------------------------------------------------------------------------------------

  /** The topic speaks about known users, with their roles. */
  ghost predicate TopicIsTrue(auth: AuthState) {
    forall e | e in auth.topic :: e.user in auth.users && auth.users[e.user].role == e.role
  }

  /** No photo now: then the last event, if there is one, says so. */
  ghost predicate RemovalsAreLogged(auth: AuthState) {
    forall u | u in auth.users && auth.users[u].photoKey.None? ::
      LastFor(auth.topic, u).Some? ==> !LastFor(auth.topic, u).value.hasPhoto
  }

  /** driver-service believes in a photo: then the user has the driver role, something was logged, and
      unless more is still to be read, the last thing logged was a photo. */
  predicate Grounded(w: Sync, user: UserId)
    requires w.offset <= |w.auth.topic|
  {
    && user in w.auth.users && w.auth.users[user].role == DriverRole
    && LastFor(w.auth.topic, user).Some?
    && (LastFor(Unconsumed(w), user).None? ==> LastFor(w.auth.topic, user).value.hasPhoto)
  }

  ghost predicate Synced(w: Sync) {
    && Sound(w.dispatch)
    && w.offset <= |w.auth.topic|
    && TopicIsTrue(w.auth) && RemovalsAreLogged(w.auth)
    && forall d | d in w.dispatch.drivers.rows && w.dispatch.drivers.rows[d].hasPhoto ::
         Grounded(w, w.dispatch.drivers.rows[d].userId)
  }

  /** What a step of auth-service publishes: nothing, or the new truth about its user. */
  lemma AuthPublishes(s: AuthState, step: AuthStep) returns (e: PhotoEvent)
    requires step.Register? ==> step.user !in s.users
    ensures var t := AuthNext(s, step);
            && s.users.Keys <= t.users.Keys
            && (forall u | u in s.users :: t.users[u].role == s.users[u].role)
            && (t.topic == s.topic || t.topic == s.topic + [e])
            && (t.topic != s.topic ==> e.user in t.users && t.users[e.user].role == e.role
                                       && t.users[e.user].photoKey.Some? == e.hasPhoto)
            && (forall u | u in s.users && (t.topic == s.topic || u != e.user) ::
                  t.users[u].photoKey.Some? == s.users[u].photoKey.Some?
                  || (step.Delete? && !step.kafkaUp && step.user == u && t.topic == s.topic)
                  || (step.Confirm? && !step.kafkaUp && step.user == u && t.topic == s.topic
                      && t.users[u].photoKey.Some?))
  {
    var t := AuthNext(s, step);
    e := if |t.topic| > |s.topic| then t.topic[|s.topic|] else PhotoEvent("", RiderRole, false);
  }

  lemma AuthKeepsSynced(w: Sync, step: AuthStep)
    requires Synced(w) && Enabled(w, Auth(step)) && DeletesPublish(Auth(step))
    ensures Synced(Proceed(w, Auth(step)))
  {
    var v := Proceed(w, Auth(step));
    var e := AuthPublishes(w.auth, step);
    forall u
      ensures v.auth.topic != w.auth.topic ==>
                && LastFor(v.auth.topic, u) == (if e.user == u then Some(e) else LastFor(w.auth.topic, u))
                && LastFor(Unconsumed(v), u) == (if e.user == u then Some(e) else LastFor(Unconsumed(w), u))
    {
      Publishing(w, e, u);
      if v.auth.topic != w.auth.topic {
        assert Unconsumed(v) == Unconsumed(w.(auth := w.auth.(topic := w.auth.topic + [e])));
      }
    }
    forall u | u in v.auth.users && v.auth.users[u].photoKey.None?
      ensures LastFor(v.auth.topic, u).Some? ==> !LastFor(v.auth.topic, u).value.hasPhoto
    {
      if u !in w.auth.users {
        NothingLogged(w.auth.topic, u);
      }
    }
  }

  lemma {:induction false} NothingLogged(log: seq<PhotoEvent>, user: UserId)
    requires forall e | e in log :: e.user != user
    ensures LastFor(log, user).None?
  {
    if log != [] {
      assert log[|log| - 1] in log;
      forall e | e in log[..|log| - 1] ensures e in log {}
      NothingLogged(log[..|log| - 1], user);
    }
  }

  lemma FlagOfChange(s: DriverState, c: Change, d: DriverId)
    requires AboutKnownDriver(s, c) && Sensible(s.rows, c)
    ensures var rows := Make(s, c).rows;
            && (d in rows && d !in s.rows ==> !rows[d].hasPhoto)
            && (d in s.rows ==>
                  && d in rows && rows[d].userId == s.rows[d].userId
                  && rows[d].hasPhoto == if c.NewFlag? && c.driver == d then c.hasPhoto else s.rows[d].hasPhoto)
  {
  }

  /** Only the photo handler changes the flag of an existing row, and only that of its user's row. */
  lemma FlagChanges(sys: System, step: Step, d: DriverId)
    requires Sound(sys) && Possible(sys, step)
    ensures d in Apply(sys, step).drivers.rows && d !in sys.drivers.rows ==> !Apply(sys, step).drivers.rows[d].hasPhoto
    ensures d in sys.drivers.rows ==>
              && d in Apply(sys, step).drivers.rows
              && Apply(sys, step).drivers.rows[d].userId == sys.drivers.rows[d].userId
              && Apply(sys, step).drivers.rows[d].hasPhoto
                   == if step.Photo? && step.photo.role == DriverRole && step.photo.user == sys.drivers.rows[d].userId
                      then step.photo.hasPhoto else sys.drivers.rows[d].hasPhoto
  {
    if !step.MatchRide? {
      StepMakes(sys.drivers, step);
      StepIsSensible(sys, step);
      FlagOfChange(sys.drivers, ChangeOf(sys.drivers, step), d);
    }
  }

  lemma DispatchKeepsSound(sys: System, step: Step)
    requires Sound(sys) && Possible(sys, step)
    ensures Sound(Apply(sys, step))
  {
    StepKeepsIndex(sys, step);
    StepKeepsTable(sys, step);
  }

  lemma ConsumeKeepsSynced(w: Sync)
    requires Synced(w) && Enabled(w, Consume)
    ensures Synced(Proceed(w, Consume))
  {
    var v := Proceed(w, Consume);
    var e := w.auth.topic[w.offset];
    DispatchKeepsSound(w.dispatch, Photo(e));
    forall d | d in v.dispatch.drivers.rows && v.dispatch.drivers.rows[d].hasPhoto
      ensures Grounded(v, v.dispatch.drivers.rows[d].userId)
    {
      FlagChanges(w.dispatch, Photo(e), d);
      var user := v.dispatch.drivers.rows[d].userId;
      ConsumeOne(w, user);
      assert e in w.auth.topic;
      if e.user == user && e.role == DriverRole {
        SplitAtOffset(w, user);
      }
    }
  }

  lemma StepKeepsSynced(w: Sync, e: SyncStep)
    requires Synced(w) && Enabled(w, e) && DeletesPublish(e)
    ensures Synced(Proceed(w, e))
  {
    match e
    case Auth(step) => AuthKeepsSynced(w, step);
    case Other(step) =>
      DispatchKeepsSound(w.dispatch, step);
      var v := Proceed(w, e);
      forall d | d in v.dispatch.drivers.rows && v.dispatch.drivers.rows[d].hasPhoto
        ensures Grounded(v, v.dispatch.drivers.rows[d].userId)
      {
        FlagChanges(w.dispatch, step, d);
      }
    case Consume => ConsumeKeepsSynced(w);
    case FallBack(to) =>
      var v := Proceed(w, e);
      forall d | d in v.dispatch.drivers.rows && v.dispatch.drivers.rows[d].hasPhoto
        ensures Grounded(v, v.dispatch.drivers.rows[d].userId)
      {
        var user := v.dispatch.drivers.rows[d].userId;
        assert Unconsumed(v) == w.auth.topic[to..w.offset] + Unconsumed(w);
        LastForSplit(w.auth.topic[to..w.offset], Unconsumed(w), user);
      }
  }

  lemma {:induction false} RunKeepsSynced(w: Sync, es: seq<SyncStep>)
    requires Synced(w) && EnabledRun(w, es)
    requires forall i | 0 <= i < |es| :: DeletesPublish(es[i])
    ensures Synced(Final(w, es))
    decreases |es|
  {
    if es != [] {
      StepKeepsSynced(w, es[0]);
      RunKeepsSynced(Proceed(w, es[0]), es[1..]);
    }
  }

  lemma ClaimsPassTheGate(w: Sync, es: seq<SyncStep>, claim: Step, d: DriverId)
    requires Synced(w) && EnabledRun(w, es)
    requires forall i | 0 <= i < |es| :: DeletesPublish(es[i])
    requires Enabled(Final(w, es), Other(claim)) && Takes(claim, d)
    ensures var v := Final(w, es);
            && d in v.dispatch.drivers.rows && v.offset <= |v.auth.topic|
            && GateHolds(v, v.dispatch.drivers.rows[d].userId)
  {
    RunKeepsSynced(w, es);
    var v := Final(w, es);
    assert IndexAgrees(v.dispatch.drivers, d);
    SplitAtOffset(v, v.dispatch.drivers.rows[d].userId);
  }

  /** Whenever, from the empty system on, a driver is claimed, their user has a photo, or the last event about
      that user that driver-service has not read yet says it was removed. */
  lemma ClaimedDriversHaveAPhoto(es: seq<SyncStep>, claim: Step, d: DriverId)
    requires EnabledRun(EMPTY_SYNC, es) && forall i | 0 <= i < |es| :: DeletesPublish(es[i])
    requires Enabled(Final(EMPTY_SYNC, es), Other(claim)) && Takes(claim, d)
    ensures var v := Final(EMPTY_SYNC, es);
            && d in v.dispatch.drivers.rows && v.offset <= |v.auth.topic|
            && GateHolds(v, v.dispatch.drivers.rows[d].userId)
  {
    EmptySyncIsSynced();
    ClaimsPassTheGate(EMPTY_SYNC, es, claim, d);
  }

  /** The gate for one driver: their user has a photo, or the removal is still to be read. */
  predicate GateHolds(w: Sync, user: UserId)
    requires w.offset <= |w.auth.topic|
  {
    && user in w.auth.users
    && (|| w.auth.users[user].photoKey.Some?
        || (LastFor(Unconsumed(w), user).Some? && !LastFor(Unconsumed(w), user).value.hasPhoto))
  }

  /** Why deletes must publish: a delete of an existing photo leaves its user's gate standing exactly when its
      event is published, or an earlier removal was still unread. */
  lemma DeleteKeepsTheGateIff(w: Sync, user: UserId, s3Up: bool, kafkaUp: bool)
    requires Synced(w) && user in w.auth.users && w.auth.users[user].photoKey.Some?
    ensures var v := Proceed(w, Auth(Delete(user, s3Up, kafkaUp)));
            && v.offset <= |v.auth.topic|
            && (GateHolds(v, user) <==>
                  kafkaUp || (LastFor(Unconsumed(w), user).Some? && !LastFor(Unconsumed(w), user).value.hasPhoto))
  {
    var v := Proceed(w, Auth(Delete(user, s3Up, kafkaUp)));
    var e := PhotoEvent(user, w.auth.users[user].role, false);
    Publishing(w, e, user);
    if kafkaUp {
      assert Unconsumed(v) == Unconsumed(w.(auth := w.auth.(topic := w.auth.topic + [e])));
    } else {
      assert Unconsumed(v) == Unconsumed(w);
    }
  }

  lemma EmptySyncIsSynced()
    ensures Synced(EMPTY_SYNC)
  {
    EmptySystemIsSound();
  }

  // ---------------------------------------------------------------------------------------------
  // Replays do not matter
  // ---------------------------------------------------------------------------------------------

  /** Everything about the driver's user has been read: then the flag is the last one logged. */
  predicate UpToDate(w: Sync, d: DriverId) {
    && d in w.dispatch.drivers.rows && w.offset <= |w.auth.topic|
    && var user := w.dispatch.drivers.rows[d].userId;
       LastFor(Unconsumed(w), user).None? ==>
         w.dispatch.drivers.rows[d].hasPhoto
           == (LastFor(w.auth.topic, user).Some? && LastFor(w.auth.topic, user).value.hasPhoto)
  }

  predicate KeyIsLogged(auth: AuthState, user: UserId) {
    && user in auth.users
    && auth.users[user].photoKey.Some?
         == (LastFor(auth.topic, user).Some? && LastFor(auth.topic, user).value.hasPhoto)
  }

  lemma StepKeepsUpToDate(w: Sync, e: SyncStep, d: DriverId)
    requires Sound(w.dispatch) && TopicIsTrue(w.auth) && UpToDate(w, d) && Enabled(w, e)
    requires w.dispatch.drivers.rows[d].userId in w.auth.users
    requires w.auth.users[w.dispatch.drivers.rows[d].userId].role == DriverRole
    ensures var v := Proceed(w, e);
            && Sound(v.dispatch) && TopicIsTrue(v.auth) && UpToDate(v, d)
            && v.dispatch.drivers.rows[d].userId == w.dispatch.drivers.rows[d].userId
            && v.dispatch.drivers.rows[d].userId in v.auth.users
            && v.auth.users[v.dispatch.drivers.rows[d].userId].role == DriverRole
            && (EverythingPublishes(e) && KeyIsLogged(w.auth, w.dispatch.drivers.rows[d].userId) ==>
                  KeyIsLogged(v.auth, w.dispatch.drivers.rows[d].userId))
  {
    var v := Proceed(w, e);
    var user := w.dispatch.drivers.rows[d].userId;
    match e
    case Auth(step) =>
      var published := AuthPublishes(w.auth, step);
      Publishing(w, published, user);
      if v.auth.topic != w.auth.topic {
        assert Unconsumed(v) == Unconsumed(w.(auth := w.auth.(topic := w.auth.topic + [published])));
      }
    case Other(step) =>
      DispatchKeepsSound(w.dispatch, step);
      FlagChanges(w.dispatch, step, d);
    case Consume =>
      assert w.auth.topic[w.offset] in w.auth.topic;
      DispatchKeepsSound(w.dispatch, Photo(w.auth.topic[w.offset]));
      FlagChanges(w.dispatch, Photo(w.auth.topic[w.offset]), d);
      ConsumeOne(w, user);
    case FallBack(to) =>
      assert Unconsumed(v) == w.auth.topic[to..w.offset] + Unconsumed(w);
      LastForSplit(w.auth.topic[to..w.offset], Unconsumed(w), user);
  }

  /** For a driver whose profile exists throughout: however often the offset falls back, once the log is
      read to its end the flag is the last one logged, and, if every publish succeeded, says whether the
      user has a photo. */
  lemma {:induction false} ReplaysDoNotMatter(w: Sync, es: seq<SyncStep>, d: DriverId)
    requires Sound(w.dispatch) && TopicIsTrue(w.auth) && UpToDate(w, d) && EnabledRun(w, es)
    requires w.dispatch.drivers.rows[d].userId in w.auth.users
    requires w.auth.users[w.dispatch.drivers.rows[d].userId].role == DriverRole
    ensures var v := Final(w, es);
            && d in v.dispatch.drivers.rows && v.dispatch.drivers.rows[d].userId == w.dispatch.drivers.rows[d].userId
            && var user := w.dispatch.drivers.rows[d].userId;
            && user in v.auth.users
            && (v.offset == |v.auth.topic| ==>
                  v.dispatch.drivers.rows[d].hasPhoto
                    == (LastFor(v.auth.topic, user).Some? && LastFor(v.auth.topic, user).value.hasPhoto))
            && (v.offset == |v.auth.topic| && KeyIsLogged(w.auth, user)
                && (forall i | 0 <= i < |es| :: EverythingPublishes(es[i])) ==>
                  v.dispatch.drivers.rows[d].hasPhoto == v.auth.users[user].photoKey.Some?)
    decreases |es|
  {
    if es == [] {
      if w.offset == |w.auth.topic| { assert Unconsumed(w) == []; }
    } else {
      StepKeepsUpToDate(w, es[0], d);
      ReplaysDoNotMatter(Proceed(w, es[0]), es[1..], d);
    }
  }

  /** Steps that are not a request of `user`'s to auth-service. */
  predicate NotFrom(e: SyncStep, user: UserId) {
    e.Auth? ==> e.authStep.Upload? || e.authStep.user != user
  }

  lemma AuthStepOfAnother(s: AuthState, step: AuthStep, user: UserId)
    requires user in s.users && (step.Upload? || step.user != user)
    ensures var t := AuthNext(s, step);
            && LastFor(t.topic, user) == LastFor(s.topic, user)
            && user in t.users && t.users[user] == s.users[user]
  {
    var t := AuthNext(s, step);
    if t.topic != s.topic {
      assert t.topic == s.topic + [t.topic[|s.topic|]];
      LastForAppended(s.topic, t.topic[|s.topic|], user);
    }
  }

  lemma {:induction false} OthersDoNotSpeakFor(w: Sync, es: seq<SyncStep>, user: UserId)
    requires EnabledRun(w, es) && user in w.auth.users
    requires forall i | 0 <= i < |es| :: NotFrom(es[i], user)
    ensures LastFor(Final(w, es).auth.topic, user) == LastFor(w.auth.topic, user)
    ensures user in Final(w, es).auth.users && Final(w, es).auth.users[user] == w.auth.users[user]
    decreases |es|
  {
    if es != [] {
      assert NotFrom(es[0], user);
      if es[0].Auth? { AuthStepOfAnother(w.auth, es[0].authStep, user); }
      OthersDoNotSpeakFor(Proceed(w, es[0]), es[1..], user);
    }
  }

  /** Why deletes must publish, for good: whatever others do and however the log is replayed, once it is read to
      its end the driver of a user who deleted their photo has lost the flag exactly if the delete was
      published, or the last thing ever logged about the user was no photo. Nothing else repairs it. */
  lemma DeleteReachesTheDriverIff(w: Sync, d: DriverId, s3Up: bool, kafkaUp: bool, es: seq<SyncStep>)
    requires Sound(w.dispatch) && TopicIsTrue(w.auth) && UpToDate(w, d)
    requires var user := w.dispatch.drivers.rows[d].userId;
             && user in w.auth.users && w.auth.users[user].role == DriverRole && w.auth.users[user].photoKey.Some?
             && (forall i | 0 <= i < |es| :: NotFrom(es[i], user))
             && var v := Proceed(w, Auth(Delete(user, s3Up, kafkaUp)));
                EnabledRun(v, es) && Final(v, es).offset == |Final(v, es).auth.topic|
    ensures var user := w.dispatch.drivers.rows[d].userId;
            var end := Final(Proceed(w, Auth(Delete(user, s3Up, kafkaUp))), es);
            && user in end.auth.users && end.auth.users[user].photoKey.None?
            && d in end.dispatch.drivers.rows
            && (!end.dispatch.drivers.rows[d].hasPhoto <==>
                  kafkaUp || (LastFor(w.auth.topic, user).Some? ==> !LastFor(w.auth.topic, user).value.hasPhoto))
  {
    var user := w.dispatch.drivers.rows[d].userId;
    var step := Auth(Delete(user, s3Up, kafkaUp));
    var v := Proceed(w, step);
    StepKeepsUpToDate(w, step, d);
    Publishing(w, PhotoEvent(user, w.auth.users[user].role, false), user);
    OthersDoNotSpeakFor(v, es, user);
    ReplaysDoNotMatter(v, es, d);
  }
}
