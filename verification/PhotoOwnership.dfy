/** Runs of auth-service and its bucket: no user ever points at nothing, and nobody touches another's photos. */
module PhotoOwnership {
  import opened Wrappers
  import opened Drivers
  import opened ImageSignature
  import opened Profiles

  /** `Upload` is a PUT to a presigned URL; it needs no handler. */
  datatype AuthStep =
    | Register(user: UserId, role: Role)
    | Upload(key: Key, upload: Object)
    | Confirm(user: UserId, key: Key, s3Up: bool, kafkaUp: bool)
    | Delete(user: UserId, s3Up: bool, kafkaUp: bool)

  predicate NoSlash(id: UserId) {
    '/' !in id
  }

  /** Ids are uuids. A confirmed photo is not overwritten through its old upload URL. */
  predicate AllowedStep(s: AuthState, step: AuthStep) {
    match step
    case Register(user, _) => user !in s.users && NoSlash(user)
    case Upload(key, _) => forall u | u in s.users :: s.users[u].photoKey != Some(key)
    case _ => true
  }

  function AuthNext(s: AuthState, step: AuthStep): AuthState {
    match step
    case Register(user, role) => s.(users := s.users[user := User(role, None)])
    case Upload(key, upload) => s.(objects := s.objects[key := upload])
    case Confirm(user, key, s3Up, kafkaUp) => Confirmed(s, user, key, s3Up, kafkaUp).0
    case Delete(user, s3Up, kafkaUp) => Deleted(s, user, s3Up, kafkaUp).0
  }

  predicate AllowedRun(s: AuthState, steps: seq<AuthStep>)
    decreases |steps|
  {
    steps == [] || (AllowedStep(s, steps[0]) && AllowedRun(AuthNext(s, steps[0]), steps[1..]))
  }

  function AuthEnd(s: AuthState, steps: seq<AuthStep>): AuthState
    decreases |steps|
  {
    if steps == [] then s else AuthEnd(AuthNext(s, steps[0]), steps[1..])
  }

  // ---------------------------------------------------------------------------------------------
  // Prefixes
  // ---------------------------------------------------------------------------------------------

  lemma PrefixGives(user: UserId, key: Key)
    requires Prefix(user) <= key
    ensures |key| >= 7 + |user| && key[6..6 + |user|] == user && key[6 + |user|] == '/'
  {
    assert Prefix(user)[6..6 + |user|] == user;
    assert Prefix(user)[6 + |user|] == '/';
    assert key[..|Prefix(user)|] == Prefix(user);
    assert key[6..6 + |user|] == Prefix(user)[6..6 + |user|];
  }

  /** A key lies under at most one user's prefix. */
  lemma PrefixesAreDisjoint(a: UserId, b: UserId, key: Key)
    requires NoSlash(a) && NoSlash(b)
    requires Prefix(a) <= key && Prefix(b) <= key
    ensures a == b
  {
    PrefixGives(a, key);
    PrefixGives(b, key);
  }

  /** The key the server hands out is one its owner may confirm, and only its owner. */
  lemma UploadKeyIsOwn(user: UserId, other: UserId, uuid: string, contentType: string)
    requires NoSlash(user) && NoSlash(other) && IsAllowedType(contentType)
    ensures Prefix(other) <= UploadKey(user, uuid, contentType) <==> other == user
  {
    assert UploadKey(user, uuid, contentType) == Prefix(user) + (uuid + "." + Extension(contentType));
    assert Prefix(user) <= UploadKey(user, uuid, contentType);
    if Prefix(other) <= UploadKey(user, uuid, contentType) {
      PrefixesAreDisjoint(user, other, UploadKey(user, uuid, contentType));
    }
  }

  // ---------------------------------------------------------------------------------------------
  // No user points at nothing
  // ---------------------------------------------------------------------------------------------

  /** A small enough file that is, by all its bytes, the allowed type it claims to be. */
  predicate IsPhoto(o: Object) {
    GoodTypeAndSize(o) && MatchesImageSignature(o.contentType, o.bytes)
  }

  predicate PointsAtOwnPhoto(s: AuthState, user: UserId)
    requires user in s.users
  {
    s.users[user].photoKey.Some? ==>
      var key := s.users[user].photoKey.value;
      Prefix(user) <= key && key in s.objects && IsPhoto(s.objects[key])
  }

  ghost predicate Owned(s: AuthState) {
    forall u | u in s.users :: NoSlash(u) && PointsAtOwnPhoto(s, u)
  }

  /** A handler run for `user` leaves every other user and every object outside their prefix alone. */
  lemma OnlyOwnObjects(s: AuthState, step: AuthStep, other: UserId, key: Key)
    requires Owned(s) && (step.Confirm? || step.Delete?)
    requires other != step.user && other in s.users
    ensures other in AuthNext(s, step).users && AuthNext(s, step).users[other] == s.users[other]
    ensures Prefix(other) <= key && step.user in s.users ==>
              (key in AuthNext(s, step).objects <==> key in s.objects)
    ensures key in AuthNext(s, step).objects ==> key in s.objects && AuthNext(s, step).objects[key] == s.objects[key]
  {
    if Prefix(other) <= key && step.user in s.users {
      if Prefix(step.user) <= key {
        PrefixesAreDisjoint(step.user, other, key);
      }
      assert PointsAtOwnPhoto(s, step.user);
    }
  }

  lemma StepKeepsOwned(s: AuthState, step: AuthStep)
    requires Owned(s) && AllowedStep(s, step)
    ensures Owned(AuthNext(s, step))
  {
    var t := AuthNext(s, step);
    forall u | u in t.users
      ensures NoSlash(u) && PointsAtOwnPhoto(t, u)
    {
      if u in s.users { assert PointsAtOwnPhoto(s, u); }
      if (step.Confirm? || step.Delete?) && u != step.user && s.users[u].photoKey.Some? {
        OnlyOwnObjects(s, step, u, s.users[u].photoKey.value);
      }
      if step.Confirm? && step.key in s.objects {
        TwelveBytesSuffice(s.objects[step.key].contentType, "", s.objects[step.key].bytes);
      }
    }
  }

  lemma {:induction false} RunKeepsOwned(s: AuthState, steps: seq<AuthStep>)
    requires Owned(s) && AllowedRun(s, steps)
    ensures Owned(AuthEnd(s, steps))
    decreases |steps|
  {
    if steps != [] {
      StepKeepsOwned(s, steps[0]);
      RunKeepsOwned(AuthNext(s, steps[0]), steps[1..]);
    }
  }

  /** From the empty system on, with S3 deletes and publishes failing at will, every stored key names an existing
      object under its owner's prefix whose type, size and whole content are those of a photo. */
  lemma NoUserPointsAtNothing(steps: seq<AuthStep>, user: UserId)
    requires AllowedRun(NO_USERS, steps)
    requires user in AuthEnd(NO_USERS, steps).users && AuthEnd(NO_USERS, steps).users[user].photoKey.Some?
    ensures var end := AuthEnd(NO_USERS, steps);
            var key := end.users[user].photoKey.value;
            Prefix(user) <= key && key in end.objects && IsPhoto(end.objects[key])
  {
    RunKeepsOwned(NO_USERS, steps);
    assert PointsAtOwnPhoto(AuthEnd(NO_USERS, steps), user);
  }

  /** The assumption about overwriting is needed: a user whose object is there is left pointing at nothing by
      a confirm exactly when they confirm again the very key they point at, what lies there now is no
      photo, and the delete goes through. */
  lemma ConfirmLosesThePhotoIff(s: AuthState, user: UserId, key: Key, s3Up: bool, kafkaUp: bool)
    requires user in s.users && s.users[user].photoKey.Some?
    requires Prefix(user) <= s.users[user].photoKey.value && s.users[user].photoKey.value in s.objects
    ensures var t := Confirmed(s, user, key, s3Up, kafkaUp).0;
            && t.users[user].photoKey.Some?
            && (t.users[user].photoKey.value !in t.objects <==>
                  s.users[user].photoKey == Some(key) && s3Up && !IsPhoto(s.objects[key]))
  {
    if key in s.objects {
      TwelveBytesSuffice(s.objects[key].contentType, "", s.objects[key].bytes);
    }
  }

  // ---------------------------------------------------------------------------------------------
  // What a confirm and a delete do
  // ---------------------------------------------------------------------------------------------

  /** The user's own uploaded photo, by its whole content. */
  predicate Acceptable(s: AuthState, user: UserId, key: Key) {
    user in s.users && Prefix(user) <= key && key in s.objects && IsPhoto(s.objects[key])
  }

  /** What `confirmPhoto` answers, by the whole file: in this order, an unknown user, a key of somebody else, nothing
      uploaded, a wrong type or more than 5 MB, a file that is not of its type. */
  lemma ConfirmAnswers(s: AuthState, user: UserId, key: Key, s3Up: bool, kafkaUp: bool)
    ensures var reply := Confirmed(s, user, key, s3Up, kafkaUp).1;
            && (reply == UserUnknown <==> user !in s.users)
            && (reply == KeyOfSomeoneElse <==> user in s.users && !(Prefix(user) <= key))
            && (reply == NotUploaded <==> user in s.users && Prefix(user) <= key && key !in s.objects)
            && (reply == BadTypeOrSize <==>
                  && user in s.users && Prefix(user) <= key && key in s.objects
                  && (s.objects[key].contentType !in {"image/jpeg", "image/png", "image/webp"}
                      || |s.objects[key].bytes| > 5242880))
            && (reply == Profile <==> Acceptable(s, user, key) && kafkaUp)
            && (reply == PublishFailed <==> Acceptable(s, user, key) && !kafkaUp)
            && reply != NoPhoto
  {
    if key in s.objects {
      TwelveBytesSuffice(s.objects[key].contentType, "", s.objects[key].bytes);
    }
  }

  /** A confirmed key becomes the stored one, whatever was stored before, and the previous photo leaves the bucket;
      a refused one changes no row and no topic, and if it was no photo, it leaves the bucket. */
  lemma ConfirmReplaces(s: AuthState, user: UserId, key: Key, s3Up: bool, kafkaUp: bool)
    ensures var t := Confirmed(s, user, key, s3Up, kafkaUp).0;
            && (Acceptable(s, user, key) ==>
                  && var old_ := s.users[user].photoKey;
                  && t.users == s.users[user := User(s.users[user].role, Some(key))]
                  && key in t.objects && t.objects[key] == s.objects[key]
                  && (forall k | k in s.objects :: k !in t.objects <==> s3Up && old_ == Some(k) && k != key)
                  && t.topic == if kafkaUp then s.topic + [PhotoEvent(user, s.users[user].role, true)] else s.topic)
            && (!Acceptable(s, user, key) ==>
                  && t.users == s.users && t.topic == s.topic
                  && (forall k | k in s.objects ::
                        k !in t.objects <==> s3Up && k == key && user in s.users && Prefix(user) <= key))
            && (forall k | k in t.objects :: k in s.objects && t.objects[k] == s.objects[k])
  {
    if key in s.objects {
      TwelveBytesSuffice(s.objects[key].contentType, "", s.objects[key].bytes);
    }
  }

  /** A delete of a stored photo forgets the key, takes the object, and only it, out of the bucket, and says so;
      without one nothing changes. */
  lemma DeleteRemoves(s: AuthState, user: UserId, s3Up: bool, kafkaUp: bool)
    ensures var (t, reply) := Deleted(s, user, s3Up, kafkaUp);
            && (reply == UserUnknown <==> user !in s.users)
            && (reply == NoPhoto <==> user in s.users && s.users[user].photoKey.None?)
            && (reply == UserUnknown || reply == NoPhoto ==> t == s)
            && (user in s.users && s.users[user].photoKey.Some? ==>
                  && reply == (if kafkaUp then Profile else PublishFailed)
                  && t.users == s.users[user := User(s.users[user].role, None)]
                  && (forall k | k in s.objects :: k !in t.objects <==> s3Up && s.users[user].photoKey == Some(k))
                  && (forall k | k in t.objects :: k in s.objects && t.objects[k] == s.objects[k])
                  && t.topic == if kafkaUp then s.topic + [PhotoEvent(user, s.users[user].role, false)] else s.topic)
  {
  }

  /** The last key of `user`'s own that was confirmed and not deleted since, starting from `key`. */
  function LastConfirmed(s: AuthState, steps: seq<AuthStep>, user: UserId, key: Option<Key>): Option<Key>
    decreases |steps|
  {
    if steps == [] then key
    else
      var next := match steps[0]
        case Confirm(u, k, _, _) => if u == user && Acceptable(s, u, k) then Some(k) else key
        case Delete(u, _, _) => if u == user then None else key
        case _ => key;
      LastConfirmed(AuthNext(s, steps[0]), steps[1..], user, next)
  }

  function KeyOf(s: AuthState, user: UserId): Option<Key> {
    if user in s.users then s.users[user].photoKey else None
  }

  lemma {:induction false} RunKeepsLastConfirmed(s: AuthState, steps: seq<AuthStep>, user: UserId)
    requires AllowedRun(s, steps)
    ensures KeyOf(AuthEnd(s, steps), user) == LastConfirmed(s, steps, user, KeyOf(s, user))
    decreases |steps|
  {
    if steps != [] {
      var step := steps[0];
      if step.Confirm? { ConfirmReplaces(s, step.user, step.key, step.s3Up, step.kafkaUp); }
      RunKeepsLastConfirmed(AuthNext(s, step), steps[1..], user);
    }
  }

  /** After any run from the empty system a user has the key of their last accepted confirm since their last delete,
      and none without one; deletes and publishes that fail make no difference. */
  lemma KeyIsTheLastConfirmed(steps: seq<AuthStep>, user: UserId)
    requires AllowedRun(NO_USERS, steps)
    ensures KeyOf(AuthEnd(NO_USERS, steps), user) == LastConfirmed(NO_USERS, steps, user, None)
  {
    RunKeepsLastConfirmed(NO_USERS, steps, user);
  }

  /** When S3 deletes succeed there are no orphans: a confirmed object that is not uploaded again is in the bucket
      only while it is the stored photo. */
  lemma {:induction false} NoOrphans(s: AuthState, user: UserId, key: Key, steps: seq<AuthStep>)
    requires AllowedRun(s, steps) && Owned(s) && user in s.users && (key in s.objects ==> KeyOf(s, user) == Some(key))
    requires forall step | step in steps ::
               && (step.Upload? ==> step.key != key)
               && (step.Confirm? || step.Delete? ==> step.s3Up)
    ensures key in AuthEnd(s, steps).objects ==> KeyOf(AuthEnd(s, steps), user) == Some(key)
    decreases |steps|
  {
    if steps != [] {
      var step := steps[0];
      assert step in steps;
      if step.Confirm? { ConfirmReplaces(s, step.user, step.key, step.s3Up, step.kafkaUp); }
      if step.Delete? { DeleteRemoves(s, step.user, step.s3Up, step.kafkaUp); }
      StepKeepsOwned(s, step);
      NoOrphans(AuthNext(s, step), user, key, steps[1..]);
    }
  }

  /** The keys as they read in the bucket. */
  lemma UploadKeyReads(user: UserId, uuid: string)
    ensures UploadKey(user, uuid, "image/jpeg") == "users/" + user + "/" + uuid + ".jpg"
    ensures UploadKey(user, uuid, "image/png") == "users/" + user + "/" + uuid + ".png"
    ensures UploadKey(user, uuid, "image/webp") == "users/" + user + "/" + uuid + ".webp"
  {
    assert "." + "jpg" == ".jpg" && "." + "png" == ".png" && "." + "webp" == ".webp";
  }

  /** Two upload URLs never share a key: the user, the uuid and the type can be read off it. */
  lemma UploadKeysDiffer(a: UserId, b: UserId, x: string, y: string, p: string, q: string)
    requires NoSlash(a) && NoSlash(b) && '.' !in x && '.' !in y && IsAllowedType(p) && IsAllowedType(q)
    requires UploadKey(a, x, p) == UploadKey(b, y, q)
    ensures a == b && x == y && p == q
  {
    UploadKeyIsOwn(a, b, x, p);
    UploadKeyIsOwn(b, b, y, q);
    var key, n := UploadKey(a, x, p), |Prefix(a)|;
    assert key[n..] == x + ("." + Extension(p)) && key[n..] == y + ("." + Extension(q));
    SplitAtDot(x, Extension(p), y, Extension(q));
  }

  lemma SplitAtDot(x: string, p: string, y: string, q: string)
    requires '.' !in x && '.' !in y && x + ("." + p) == y + ("." + q)
    ensures x == y && p == q
  {
    var whole := x + ("." + p);
    assert whole[|x|] == '.' && whole[|y|] == '.';
    assert forall i | 0 <= i < |x| :: whole[i] == x[i];
    assert forall i | 0 <= i < |y| :: whole[i] == y[i];
    assert |x| == |y|;
    assert whole[..|x|] == x && whole[..|y|] == y;
    assert whole[|x| + 1..] == p && whole[|y| + 1..] == q;
  }
}
