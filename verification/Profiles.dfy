/** auth-service: the users' photos, in the user table, in S3 and on the `user.photo.updated` topic. */
module Profiles {
  import opened Wrappers
  import opened Drivers
  import opened ImageSignature

  type Key = string

  const MAX_PHOTO_BYTES := 5 * 1024 * 1024

  datatype User = User(role: Role, photoKey: Option<Key>)

  datatype Object = Object(contentType: string, bytes: seq<Byte>)

  datatype AuthState = AuthState(users: map<UserId, User>, objects: map<Key, Object>, topic: seq<PhotoEvent>)

  const NO_USERS := AuthState(map[], map[], [])

  datatype ProfileReply =
    | Profile | UserUnknown | KeyOfSomeoneElse | NotUploaded | BadTypeOrSize | NotAnImage | NoPhoto | PublishFailed

  function Prefix(user: UserId): string {
    "users/" + user + "/"
  }

  predicate IsAllowedType(contentType: string) {
    contentType == "image/jpeg" || contentType == "image/png" || contentType == "image/webp"
  }

  function Extension(contentType: string): string
    requires IsAllowedType(contentType)
  {
    if contentType == "image/jpeg" then "jpg" else if contentType == "image/png" then "png" else "webp"
  }

  /** The key behind a presigned upload URL; `uuid` is random. */
  function UploadKey(user: UserId, uuid: string, contentType: string): Key
    requires IsAllowedType(contentType)
  {
    Prefix(user) + uuid + "." + Extension(contentType)
  }

  /** Deleting from S3 may fail, which only leaves an orphan. */
  function WithoutObject(objects: map<Key, Object>, key: Key, s3Up: bool): map<Key, Object> {
    if s3Up then objects - {key} else objects
  }

  function Publish(s: AuthState, user: UserId, hasPhoto: bool, kafkaUp: bool): AuthState
    requires user in s.users
  {
    if kafkaUp then s.(topic := s.topic + [PhotoEvent(user, s.users[user].role, hasPhoto)]) else s
  }

  predicate GoodTypeAndSize(o: Object) {
    IsAllowedType(o.contentType) && |o.bytes| <= MAX_PHOTO_BYTES
  }

  function Confirmed(s: AuthState, user: UserId, key: Key, s3Up: bool, kafkaUp: bool): (AuthState, ProfileReply) {
    if user !in s.users then (s, UserUnknown)
    else if !(Prefix(user) <= key) then (s, KeyOfSomeoneElse)
    else if key !in s.objects then (s, NotUploaded)
    else if !GoodTypeAndSize(s.objects[key]) then (s.(objects := WithoutObject(s.objects, key, s3Up)), BadTypeOrSize)
    else if !MatchesImageSignature(s.objects[key].contentType, FirstBytes(s.objects[key].bytes, SIGNATURE_BYTES)) then
      (s.(objects := WithoutObject(s.objects, key, s3Up)), NotAnImage)
    else
      var previous := s.users[user].photoKey;
      var stored :=
        if previous == Some(key) then s
        else s.(users := s.users[user := s.users[user].(photoKey := Some(key))],
                objects := if previous.Some? then WithoutObject(s.objects, previous.value, s3Up) else s.objects);
      (Publish(stored, user, true, kafkaUp), if kafkaUp then Profile else PublishFailed)
  }

  function Deleted(s: AuthState, user: UserId, s3Up: bool, kafkaUp: bool): (AuthState, ProfileReply) {
    if user !in s.users then (s, UserUnknown)
    else if s.users[user].photoKey.None? then (s, NoPhoto)
    else
      (Publish(AuthState(s.users[user := s.users[user].(photoKey := None)],
                         WithoutObject(s.objects, s.users[user].photoKey.value, s3Up), s.topic),
               user, false, kafkaUp),
       if kafkaUp then Profile else PublishFailed)
  }
}
