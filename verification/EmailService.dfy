/** email-service as a running object: the table, the counters, and the consumer that drives it. */
module EmailServices {
  import opened Wrappers
  import opened Drivers
  import opened Receipts

  class EmailService {
    var rows: map<RideId, EmailRow>
    ghost var accepts: seq<Email>
    ghost var lostWrites: seq<Email>
    ghost var lostReplies: seq<Email>
    var sentTotal: nat
    var sesErrors: nat
    var notFoundTotal: nat
    var duplicates: nat
    var consumed: nat
    var failed: nat
    var offset: nat

    constructor ()
      ensures State() == Consumer(NO_MAIL, 0, 0, 0)
    {
      rows := map[];
      accepts, lostWrites, lostReplies := [], [], [];
      sentTotal, sesErrors, notFoundTotal, duplicates := 0, 0, 0, 0;
      consumed, failed, offset := 0, 0, 0;
    }

    ghost function Table(): Mail
      reads this
    {
      Mail(rows, accepts, lostWrites, lostReplies, sentTotal, sesErrors, notFoundTotal, duplicates)
    }

    ghost function State(): Consumer
      reads this
    {
      Consumer(Table(), consumed, failed, offset)
    }

    /** The row as inserted, or nothing when the insert throws. */
    method CreateRow(e: Message, subject: Subject, toEmail: Option<string>, saveOk: bool) returns (ok: bool)
      requires Addressed(e) && e.rideId.value !in rows
      modifies this`rows
      ensures ok == saveOk
      ensures rows == if saveOk then old(rows)[e.rideId.value := NewRow(e, subject, toEmail)] else old(rows)
    {
      if !saveOk { return false; }
      var receipt := ToReceipt(e, "");
      rows := rows[e.rideId.value :=
        EmailRow(Snapshot(e.riderId.value, receipt.fare, LatOf(receipt.pickup), LngOf(receipt.pickup),
                          LatOf(receipt.destination), LngOf(receipt.destination),
                          receipt.requestedAt, receipt.completedAt),
                 subject, EmailPending, toEmail, None, None, 0, None)];
      return true;
    }

    /** The catch block around the send. */
    method RecordFailure(ride: RideId, error: string, failedWriteOk: bool)
      requires ride in rows
      modifies this`rows, this`sesErrors
      ensures Table() == Receipts.RecordFailure(old(Table()), ride, error, failedWriteOk)
    {
      if failedWriteOk {
        var row := rows[ride];
        rows := rows[ride := row.(status := EmailFailed, attempts := row.attempts + 1,
                                  lastError := Some(Truncated(error)))];
        sesErrors := sesErrors + 1;
      }
    }

    /** The try block: send, then mark the row SENT. */
    method TrySend(email: Email, o: Outcomes) returns (returned: bool)
      requires email.receipt.rideId in rows
      modifies this`rows, this`accepts, this`lostWrites, this`lostReplies, this`sentTotal, this`sesErrors
      ensures (Table(), returned) == SendNow(old(Table()), email, o)
    {
      var ride := email.receipt.rideId;
      match o.ses {
        case Refused(error) =>
          RecordFailure(ride, error, o.failedWriteOk);
          return false;
        case ReplyLost(error) =>
          accepts, lostReplies := accepts + [email], lostReplies + [email];
          RecordFailure(ride, error, o.failedWriteOk);
          return false;
        case Accepted(messageId) =>
          accepts := accepts + [email];
          if o.sentWriteError.Some? {
            lostWrites := lostWrites + [email];
            RecordFailure(ride, o.sentWriteError.value, o.failedWriteOk);
            return false;
          }
          var row := rows[ride];
          rows := rows[ride := row.(status := EmailSent, toEmail := Some(email.to), messageId := Some(messageId),
                                    sentAt := Some(o.now), attempts := row.attempts + 1, lastError := None)];
          sentTotal := sentTotal + 1;
          return true;
      }
    }

    method SendRideReceipt(e: Message, o: Outcomes) returns (returned: bool)
      modifies this`rows, this`accepts, this`lostWrites, this`lostReplies,
               this`sentTotal, this`sesErrors, this`notFoundTotal, this`duplicates
      ensures (Table(), returned) == Send(old(Table()), e, o)
    {
      if !Addressed(e) { return true; }
      var ride := e.rideId.value;
      if !o.findOk { return false; }
      if ride in rows && rows[ride].status == EmailSent {
        duplicates := duplicates + 1;
        return true;
      }
      if ride in rows && rows[ride].status == EmailFailed && rows[ride].lastError == Some(USER_NOT_FOUND) {
        return true;
      }
      if o.auth.AuthDown? { return false; }
      var receipt := ToReceipt(e, NameOf(o.auth));
      var subject := SubjectOf(receipt);
      if ride !in rows {
        var created := CreateRow(e, subject, EmailOf(o.auth), o.saveOk);
        if !created { return false; }
      }
      if o.auth.NoUser? {
        if !o.notFoundWriteOk { return false; }
        rows := rows[ride := rows[ride].(status := EmailFailed, lastError := Some(USER_NOT_FOUND))];
        notFoundTotal := notFoundTotal + 1;
        return true;
      }
      returned := TrySend(Email(o.auth.email, subject, receipt), o);
    }

    /** The `eachMessage` callback; the offset is committed unless it throws. */
    method OnMessage(payload: Option<Message>, o: Outcomes)
      modifies this
      ensures State() == EachMessage(old(State()), payload, o)
    {
      if payload.None? {
        failed := failed + 1;
        offset := offset + 1;
        return;
      }
      var returned := SendRideReceipt(payload.value, o);
      if returned {
        consumed := consumed + 1;
        offset := offset + 1;
      } else {
        failed := failed + 1;
      }
    }

    /** Kafka's retry loop around the callback. */
    method ConsumeUntilCommitted(payload: Option<Message>, schedule: seq<Outcomes>)
      modifies this
      ensures State() == Redeliver(old(State()), payload, schedule)
    {
      var start, i := offset, 0;
      while i < |schedule| && offset == start
        invariant 0 <= i <= |schedule| && offset >= start
        invariant offset == start ==>
                    Redeliver(State(), payload, schedule[i..]) == Redeliver(old(State()), payload, schedule)
        invariant offset > start ==> State() == Redeliver(old(State()), payload, schedule)
      {
        OnMessage(payload, schedule[i]);
        assert schedule[i..][1..] == schedule[i + 1..];
        i := i + 1;
      }
    }
  }
}
