/**
 email-service: one receipt per completed ride, sent through SES and recorded in `sent_emails`. Every call
 out of the handler may fail; `Outcomes` says how each of them goes during one delivery.
 */
module Receipts {
  import opened Wrappers
  import opened GeoPool
  import opened Drivers
  import opened Rides

  const USER_NOT_FOUND := "user_not_found"

  datatype EmailStatus = EmailPending | EmailSent | EmailFailed

  /** A parsed `ride.completed` payload; any field may be missing. */
  datatype Message = Message(rideId: Option<RideId>, riderId: Option<UserId>, fare: Option<real>,
                             pickupLat: Option<real>, pickupLng: Option<real>,
                             destinationLat: Option<real>, destinationLng: Option<real>,
                             requestedAt: Option<Time>, completedAt: Option<Time>, timestamp: Time)

  datatype Receipt = Receipt(riderName: string, rideId: RideId, fare: Option<real>,
                             pickup: Option<Point>, destination: Option<Point>,
                             requestedAt: Option<Time>, completedAt: Time)

  /** The subject line, which says the fare; its text is not modelled. */
  datatype Subject = ReceiptSubject(fare: Option<real>)

  /** What SES is given; both bodies are made from the receipt. */
  datatype Email = Email(to: string, subject: Subject, receipt: Receipt)

  /** The part of a row that is the ride, not the email. */
  datatype Snapshot = Snapshot(userId: UserId, fare: Option<real>, pickupLat: Option<real>, pickupLng: Option<real>,
                               destinationLat: Option<real>, destinationLng: Option<real>,
                               requestedAt: Option<Time>, completedAt: Time)

  datatype EmailRow = EmailRow(snapshot: Snapshot, subject: Subject, status: EmailStatus, toEmail: Option<string>,
                               messageId: Option<string>, sentAt: Option<Time>,
                               attempts: nat, lastError: Option<string>)

  datatype AuthCall = AuthDown | NoUser | UserFound(name: string, email: string)

  /** `ReplyLost`: SES accepted the email, but the caller got an error. */
  datatype SesCall = Accepted(messageId: string) | Refused(error: string) | ReplyLost(error: string)

  datatype Outcomes = Outcomes(findOk: bool, auth: AuthCall, saveOk: bool, notFoundWriteOk: bool, ses: SesCall,
                               sentWriteError: Option<string>, failedWriteOk: bool, now: Time)

  /** The table, keyed by the unique (ride, type), the counters, and what SES accepted, in order. `lostWrites`
      and `lostReplies` are the accepts after which the row could not be marked SENT. */
  datatype Mail = Mail(rows: map<RideId, EmailRow>,
                       accepts: seq<Email>, lostWrites: seq<Email>, lostReplies: seq<Email>,
                       sentTotal: nat, sesErrors: nat, notFoundTotal: nat, duplicates: nat)

  const NO_MAIL := Mail(map[], [], [], [], 0, 0, 0, 0)

  function PointOf(lat: Option<real>, lng: Option<real>): Option<Point> {
    if lat.Some? && lng.Some? then Some(Point(lat.value, lng.value)) else None
  }

  function ToReceipt(e: Message, riderName: string): Receipt
    requires e.rideId.Some?
  {
    Receipt(riderName, e.rideId.value, e.fare,
            PointOf(e.pickupLat, e.pickupLng), PointOf(e.destinationLat, e.destinationLng),
            e.requestedAt, if e.completedAt.Some? then e.completedAt.value else e.timestamp)
  }

  function LatOf(p: Option<Point>): Option<real> {
    if p.Some? then Some(p.value.lat) else None
  }

  function LngOf(p: Option<Point>): Option<real> {
    if p.Some? then Some(p.value.lng) else None
  }

  function NewRow(e: Message, subject: Subject, toEmail: Option<string>): EmailRow
    requires Addressed(e)
  {
    var r := ToReceipt(e, "");
    EmailRow(Snapshot(e.riderId.value, r.fare,
                      LatOf(r.pickup), LngOf(r.pickup), LatOf(r.destination), LngOf(r.destination),
                      r.requestedAt, r.completedAt),
             subject, EmailPending, toEmail, None, None, 0, None)
  }

  /** Both ids are there (and not empty). */
  predicate Addressed(e: Message) {
    e.rideId.Some? && e.rideId.value != "" && e.riderId.Some? && e.riderId.value != ""
  }

  predicate IsTerminal(row: EmailRow) {
    row.status == EmailSent || (row.status == EmailFailed && row.lastError == Some(USER_NOT_FOUND))
  }

  function Truncated(text: string): string {
    if |text| <= 1000 then text else text[..1000]
  }

  /** The catch block: record the failure, if the database lets us, and rethrow. */
  function RecordFailure(m: Mail, ride: RideId, error: string, failedWriteOk: bool): Mail
    requires ride in m.rows
  {
    if failedWriteOk then
      m.(rows := m.rows[ride := m.rows[ride].(status := EmailFailed, attempts := m.rows[ride].attempts + 1,
                                              lastError := Some(Truncated(error)))],
         sesErrors := m.sesErrors + 1)
    else m
  }

  /** The email goes out, and its row is marked SENT; or the failure is recorded and thrown. */
  function SendNow(m: Mail, email: Email, o: Outcomes): (Mail, bool)
    requires email.receipt.rideId in m.rows
  {
    var ride := email.receipt.rideId;
    match o.ses
    case Refused(error) => (RecordFailure(m, ride, error, o.failedWriteOk), false)
    case ReplyLost(error) =>
      (RecordFailure(m.(accepts := m.accepts + [email], lostReplies := m.lostReplies + [email]), ride, error,
                     o.failedWriteOk), false)
    case Accepted(messageId) =>
      if o.sentWriteError.Some? then
        (RecordFailure(m.(accepts := m.accepts + [email], lostWrites := m.lostWrites + [email]), ride,
                       o.sentWriteError.value, o.failedWriteOk), false)
      else
        (m.(accepts := m.accepts + [email],
            rows := m.rows[ride := m.rows[ride].(status := EmailSent, toEmail := Some(email.to),
                                                 messageId := Some(messageId), sentAt := Some(o.now),
                                                 attempts := m.rows[ride].attempts + 1, lastError := None)],
            sentTotal := m.sentTotal + 1), true)
  }

  /** An unknown rider: a final failure. */
  function GiveUp(m: Mail, ride: RideId, notFoundWriteOk: bool): (Mail, bool)
    requires ride in m.rows
  {
    if notFoundWriteOk then
      (m.(rows := m.rows[ride := m.rows[ride].(status := EmailFailed, lastError := Some(USER_NOT_FOUND))],
          notFoundTotal := m.notFoundTotal + 1), true)
    else (m, false)
  }

  function NameOf(auth: AuthCall): string {
    if auth.UserFound? then auth.name else "there"
  }

  function SubjectOf(r: Receipt): Subject {
    ReceiptSubject(r.fare)
  }

  function EmailOf(auth: AuthCall): Option<string> {
    if auth.UserFound? then Some(auth.email) else None
  }

  /** The new state, and whether the handler returned (or threw, to be retried). */
  function Send(m: Mail, e: Message, o: Outcomes): (Mail, bool) {
    if !Addressed(e) then (m, true)
    else if !o.findOk then (m, false)
    else if e.rideId.value in m.rows && m.rows[e.rideId.value].status == EmailSent then
      (m.(duplicates := m.duplicates + 1), true)
    else if e.rideId.value in m.rows && IsTerminal(m.rows[e.rideId.value]) then (m, true)
    else if o.auth.AuthDown? then (m, false)
    else if e.rideId.value !in m.rows && !o.saveOk then (m, false)
    else
      var ride := e.rideId.value;
      var receipt := ToReceipt(e, NameOf(o.auth));
      var subject := SubjectOf(receipt);
      var withRow := if ride in m.rows then m else m.(rows := m.rows[ride := NewRow(e, subject, EmailOf(o.auth))]);
      if o.auth.NoUser? then GiveUp(withRow, ride, o.notFoundWriteOk)
      else SendNow(withRow, Email(o.auth.email, subject, receipt), o)
  }

  /** email-service's Kafka consumer: what it did, and the offset it would resume from. */
  datatype Consumer = Consumer(mail: Mail, consumed: nat, failed: nat, offset: nat)

  /** One delivery. A malformed payload is counted as failed and skipped. */
  function EachMessage(c: Consumer, payload: Option<Message>, o: Outcomes): Consumer {
    match payload
    case None => c.(failed := c.failed + 1, offset := c.offset + 1)
    case Some(e) =>
      var (mail, returned) := Send(c.mail, e, o);
      if returned then Consumer(mail, c.consumed + 1, c.failed, c.offset + 1)
      else Consumer(mail, c.consumed, c.failed + 1, c.offset)
  }

  /** kafkajs delivers the message again until a delivery is committed (or the schedule is over). */
  function Redeliver(c: Consumer, payload: Option<Message>, schedule: seq<Outcomes>): Consumer
    decreases |schedule|
  {
    if schedule == [] then c
    else
      var next := EachMessage(c, payload, schedule[0]);
      if next.offset > c.offset then next else Redeliver(next, payload, schedule[1..])
  }

  /** What `getMyReceipts` shows of a row. A point has the row's longitude whatever it is. */
  datatype ShownPoint = ShownPoint(lat: real, lng: Option<real>)

  datatype ShownReceipt = ShownReceipt(ride: RideId, fare: Option<real>,
                                       pickup: Option<ShownPoint>, destination: Option<ShownPoint>,
                                       requestedAt: Option<Time>, completedAt: Time, status: EmailStatus,
                                       toEmail: Option<string>, subject: Subject, sentAt: Option<Time>, attempts: nat)

  function Show(ride: RideId, row: EmailRow): ShownReceipt {
    var s := row.snapshot;
    ShownReceipt(ride, s.fare,
                 if s.pickupLat.Some? then Some(ShownPoint(s.pickupLat.value, s.pickupLng)) else None,
                 if s.destinationLat.Some? then Some(ShownPoint(s.destinationLat.value, s.destinationLng)) else None,
                 s.requestedAt, s.completedAt, row.status, row.toEmail, row.subject, row.sentAt, row.attempts)
  }
}
