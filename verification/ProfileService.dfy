/** auth-service's profile handlers as a running object. S3 is its bucket. */
module ProfileServices {
  import opened Wrappers
  import opened Drivers
  import opened ImageSignature
  import opened Profiles

  class ProfileService {
    var users: map<UserId, User>
    var objects: map<Key, Object>
    ghost var topic: seq<PhotoEvent>

    constructor ()
      ensures State() == NO_USERS
    {
      users, objects, topic := map[], map[], [];
    }

    ghost function State(): AuthState
      reads this
    {
      AuthState(users, objects, topic)
    }

    method DeleteFromS3(key: Key, s3Up: bool)
      modifies this`objects
      ensures objects == WithoutObject(old(objects), key, s3Up)
    {
      if s3Up {
        objects := objects - {key};
      }
    }

    method PublishPhotoUpdated(user: UserId, role: Role, hasPhoto: bool, kafkaUp: bool) returns (ok: bool)
      modifies this`topic
      ensures ok == kafkaUp
      ensures topic == if kafkaUp then old(topic) + [PhotoEvent(user, role, hasPhoto)] else old(topic)
    {
      if kafkaUp {
        topic := topic + [PhotoEvent(user, role, hasPhoto)];
      }
      return kafkaUp;
    }

    method ConfirmPhoto(user: UserId, key: Key, s3Up: bool, kafkaUp: bool) returns (reply: ProfileReply)
      modifies this
      ensures (State(), reply) == Confirmed(old(State()), user, key, s3Up, kafkaUp)
    {
      if user !in users { return UserUnknown; }
      var row := users[user];
      if !(Prefix(user) <= key) { return KeyOfSomeoneElse; }
      if key !in objects { return NotUploaded; }
      var object_ := objects[key];
      if !IsAllowedType(object_.contentType) || |object_.bytes| > MAX_PHOTO_BYTES {
        DeleteFromS3(key, s3Up);
        return BadTypeOrSize;
      }
      if !MatchesImageSignature(object_.contentType, FirstBytes(object_.bytes, SIGNATURE_BYTES)) {
        DeleteFromS3(key, s3Up);
        return NotAnImage;
      }
      var previousKey := row.photoKey;
      if previousKey != Some(key) {
        users := users[user := row.(photoKey := Some(key))];
        if previousKey.Some? {
          DeleteFromS3(previousKey.value, s3Up);
        }
      }
      var ok := PublishPhotoUpdated(user, row.role, true, kafkaUp);
      return if ok then Profile else PublishFailed;
    }

    method DeletePhoto(user: UserId, s3Up: bool, kafkaUp: bool) returns (reply: ProfileReply)
      modifies this
      ensures (State(), reply) == Deleted(old(State()), user, s3Up, kafkaUp)
    {
      if user !in users { return UserUnknown; }
      var row := users[user];
      if row.photoKey.None? { return NoPhoto; }
      users := users[user := row.(photoKey := None)];
      DeleteFromS3(row.photoKey.value, s3Up);
      var ok := PublishPhotoUpdated(user, row.role, false, kafkaUp);
      return if ok then Profile else PublishFailed;
    }
  }
}
