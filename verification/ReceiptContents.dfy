/** What email-service writes and sends, in terms of the `ride.completed` event and of auth-service's answer. */
module ReceiptContents {
  import opened Wrappers
  import opened GeoPool
  import opened Drivers
  import opened Rides
  import opened Receipts
  import opened ReceiptRuns

  /** A stored pair of coordinates is the event's, if it has both, and otherwise null twice. */
  predicate StoresPoint(lat: Option<real>, lng: Option<real>, eventLat: Option<real>, eventLng: Option<real>) {
    if eventLat.Some? && eventLng.Some? then lat == eventLat && lng == eventLng else lat.None? && lng.None?
  }

  predicate CompletedAt(e: Message, at: Time) {
    if e.completedAt.Some? then Some(at) == e.completedAt else at == e.timestamp
  }

  /** The row says what the event says. */
  predicate RowTellsEvent(row: EmailRow, e: Message) {
    && e.riderId == Some(row.snapshot.userId)
    && row.snapshot.fare == e.fare && row.subject.fare == e.fare
    && row.snapshot.requestedAt == e.requestedAt && CompletedAt(e, row.snapshot.completedAt)
    && StoresPoint(row.snapshot.pickupLat, row.snapshot.pickupLng, e.pickupLat, e.pickupLng)
    && StoresPoint(row.snapshot.destinationLat, row.snapshot.destinationLng, e.destinationLat, e.destinationLng)
  }

  predicate ShowsPoint(p: Option<Point>, lat: Option<real>, lng: Option<real>) {
    if lat.Some? && lng.Some? then p.Some? && lat == Some(p.value.lat) && lng == Some(p.value.lng) else p.None?
  }

  /** The email says what the event says, to the person auth-service names. */
  predicate EmailTellsEvent(x: Email, e: Message, auth: AuthCall) {
    && auth == UserFound(x.receipt.riderName, x.to)
    && e.rideId == Some(x.receipt.rideId)
    && x.subject.fare == e.fare && x.receipt.fare == e.fare
    && x.receipt.requestedAt == e.requestedAt && CompletedAt(e, x.receipt.completedAt)
    && ShowsPoint(x.receipt.pickup, e.pickupLat, e.pickupLng)
    && ShowsPoint(x.receipt.destination, e.destinationLat, e.destinationLng)
  }

  /** A row created by a delivery tells the delivered event; and an email SES accepts during it tells that event
      too, whichever event created the row. An email is accepted exactly if the delivery reaches SES, and SES does
      not refuse. */
  lemma DeliveryTellsItsEvent(m: Mail, e: Message, o: Outcomes)
    ensures var t := Send(m, e, o).0;
            && (forall r | r in t.rows && r !in m.rows :: e.rideId == Some(r) && RowTellsEvent(t.rows[r], e))
            && (t.accepts != m.accepts <==> ReachesSes(m, e, o) && !o.ses.Refused?)
            && (t.accepts != m.accepts ==>
                  && t.accepts == m.accepts + [t.accepts[|m.accepts|]]
                  && EmailTellsEvent(t.accepts[|m.accepts|], e, o.auth))
  {
    if Addressed(e) {
      SendHasEffect(m, e, o);
      assert EmailTellsEvent(TheEmail(e, o), e, UserFound(NameOf(o.auth), TheEmail(e, o).to));
    }
  }

  /** The row of a ride tells one of the events delivered for it, and so does every email SES accepted for it. */
  lemma {:induction false} RunTellsItsEvents(ds: seq<Delivery>)
    ensures forall r | r in Deliver(NO_MAIL, ds).rows ::
              exists i :: 0 <= i < |ds| && ds[i].message.rideId == Some(r)
                          && RowTellsEvent(Deliver(NO_MAIL, ds).rows[r], ds[i].message)
    ensures forall x | x in Deliver(NO_MAIL, ds).accepts ::
              exists i :: 0 <= i < |ds| && EmailTellsEvent(x, ds[i].message, ds[i].outcomes.auth)
  {
    if ds != [] {
      var n, before := |ds| - 1, ds[..|ds| - 1];
      var m, t := Deliver(NO_MAIL, before), Deliver(NO_MAIL, ds);
      RunTellsItsEvents(before);
      DeliveryTellsItsEvent(m, ds[n].message, ds[n].outcomes);
      SendHasEffect(m, ds[n].message, ds[n].outcomes);
      forall r | r in t.rows
        ensures exists i :: 0 <= i < |ds| && ds[i].message.rideId == Some(r) && RowTellsEvent(t.rows[r], ds[i].message)
      {
        if r in m.rows {
          var i :| 0 <= i < |before| && before[i].message.rideId == Some(r)
                   && RowTellsEvent(m.rows[r], before[i].message);
          EffectKeepsRows(m, ds[n].message, ds[n].outcomes, t, r);
          assert ds[i] == before[i];
        } else {
          assert ds[n].message.rideId == Some(r);
        }
      }
      forall x | x in t.accepts
        ensures exists i :: 0 <= i < |ds| && EmailTellsEvent(x, ds[i].message, ds[i].outcomes.auth)
      {
        if x in m.accepts {
          var i :| 0 <= i < |before| && EmailTellsEvent(x, before[i].message, before[i].outcomes.auth);
          assert ds[i] == before[i];
        } else {
          assert EmailTellsEvent(x, ds[n].message, ds[n].outcomes.auth);
        }
      }
    }
  }

  // ---------------------------------------------------------------------------------------------
  // The row and the email of a ride that was completed twice
  // ---------------------------------------------------------------------------------------------

  /** When a delivery makes a row SENT, the row says the fare of the email exactly if the row is new, or the event
      that created it had the same fare as this one. */
  lemma SentRowAgreesIff(m: Mail, e: Message, o: Outcomes, ride: RideId)
    requires !IsSent(m, ride) && IsSent(Send(m, e, o).0, ride)
    ensures var t := Send(m, e, o).0;
            && t.accepts != m.accepts && |t.accepts| > |m.accepts|
            && var email := t.accepts[|m.accepts|];
            && email.receipt.rideId == ride && t.rows[ride].toEmail == Some(email.to)
            && (t.rows[ride].snapshot.fare == email.receipt.fare <==>
                  ride !in m.rows || m.rows[ride].snapshot.fare == e.fare)
  {
    SendHasEffect(m, e, o);
    EffectOnSent(m, e, o, Send(m, e, o).0, ride);
    DeliveryTellsItsEvent(m, e, o);
  }

  /** A ride completed at one fare whose email fails, and then at another: the rider gets the second fare, while
      the row, and the rider's history, keep the first. */
  lemma TwoFaresOneReceipt(e: Message, first: real, second: real, o: Outcomes, error: string)
    requires Addressed(e) && first != second && Truncated(error) != USER_NOT_FOUND
    requires IsClean(o) && o.auth.UserFound? && o.failedWriteOk
    ensures var refused := Delivery(e.(fare := Some(first)), o.(ses := Refused(error)));
            var again := Delivery(e.(fare := Some(second)), o);
            var t := Deliver(NO_MAIL, [refused, again]);
            && IsSent(t, e.rideId.value) && |t.accepts| == 1
            && Show(e.rideId.value, t.rows[e.rideId.value]).fare == Some(first)
            && t.accepts[0].receipt.fare == Some(second) && t.accepts[0].subject.fare == Some(second)
  {
    var refused := Delivery(e.(fare := Some(first)), o.(ses := Refused(error)));
    var again := Delivery(e.(fare := Some(second)), o);
    assert [refused, again][..1] == [refused] && [refused][..0] == [];
    assert Deliver(NO_MAIL, [refused]) == Send(NO_MAIL, refused.message, refused.outcomes).0 by {
      assert Deliver(NO_MAIL, []) == NO_MAIL;
    }
    var m := Deliver(NO_MAIL, [refused]);
    assert m.rows[e.rideId.value].status == EmailFailed && m.accepts == [];
    assert Deliver(NO_MAIL, [refused, again]) == Send(m, again.message, again.outcomes).0;
  }

  /** If every event of the ride tells the same fare, so do its row and all its emails. */
  lemma OneFareOneReceipt(ds: seq<Delivery>, ride: RideId, fare: Option<real>)
    requires forall i | 0 <= i < |ds| && ds[i].message.rideId == Some(ride) :: ds[i].message.fare == fare
    ensures ride in Deliver(NO_MAIL, ds).rows ==> Deliver(NO_MAIL, ds).rows[ride].snapshot.fare == fare
    ensures forall x | x in Deliver(NO_MAIL, ds).accepts && x.receipt.rideId == ride :: x.receipt.fare == fare
  {
    RunTellsItsEvents(ds);
  }

  // ---------------------------------------------------------------------------------------------
  // Success, failures and duplicates
  // ---------------------------------------------------------------------------------------------

  /** The address in a row is the one auth-service gave when the row was created, or when it became SENT; and then it
      has SES's id and the time of the write, and one more attempt. Giving up changes neither address nor attempts. */
  lemma RowsTellTheirSends(m: Mail, e: Message, o: Outcomes, r: RideId)
    requires r in Send(m, e, o).0.rows
    ensures var after := Send(m, e, o).0.rows[r];
            && (r !in m.rows && after.status != EmailSent ==>
                  after.toEmail == if o.auth.UserFound? then Some(o.auth.email) else None)
            && (r in m.rows && (after.status != EmailSent || IsSent(m, r)) ==> after.toEmail == m.rows[r].toEmail)
            && (after.status == EmailSent && !IsSent(m, r) ==>
                  && o.auth.UserFound? && o.ses.Accepted?
                  && after.toEmail == Some(o.auth.email) && after.messageId == Some(o.ses.messageId)
                  && after.sentAt == Some(o.now) && after.lastError.None?
                  && after.attempts == 1 + if r in m.rows then m.rows[r].attempts else 0)
            && (IsGivenUp(after) && o.auth.NoUser? ==>
                  after.attempts == if r in m.rows then m.rows[r].attempts else 0)
  {
  }

  /** What a failed send leaves in the row: FAILED, one more attempt, and the first 1000 characters of the error;
      or, if even that write fails, the row as it was. */
  lemma FailureIsRecorded(m: Mail, e: Message, o: Outcomes)
    requires ReachesSes(m, e, o) && ErrorOf(o).Some?
    ensures var (t, returned) := Send(m, e, o);
            var row, error := RowBefore(m, e, o), ErrorOf(o).value;
            && !returned && e.rideId.value in t.rows
            && (!o.failedWriteOk ==> t.rows[e.rideId.value] == row && t.sesErrors == m.sesErrors)
            && (o.failedWriteOk ==>
                  && t.sesErrors == m.sesErrors + 1
                  && var after := t.rows[e.rideId.value];
                  && after.status == EmailFailed && after.attempts == row.attempts + 1
                  && after.toEmail == row.toEmail
                  && after.lastError.Some? && after.lastError.value <= error
                  && |after.lastError.value| == if |error| < 1000 then |error| else 1000)
  {
  }

  /** An event without a ride or a rider, or with an empty one, is consumed without a trace. */
  lemma UnaddressedIsIgnored(m: Mail, e: Message, o: Outcomes)
    requires e.rideId in {None, Some("")} || e.riderId in {None, Some("")}
    ensures Send(m, e, o) == (m, true)
  {
  }

  /** A duplicate is counted exactly when the ride's receipt was found SENT; it changes nothing else. */
  lemma DuplicateIsCountedIff(m: Mail, e: Message, o: Outcomes)
    ensures var t := Send(m, e, o).0;
            && (t.duplicates == m.duplicates + 1 <==> Addressed(e) && o.findOk && IsSent(m, e.rideId.value))
            && (t.duplicates == m.duplicates || t == m.(duplicates := m.duplicates + 1))
  {
  }

  // ---------------------------------------------------------------------------------------------
  // The consumer's counters
  // ---------------------------------------------------------------------------------------------

  /** Deliveries to the consumer, some of them of payloads that cannot be parsed. */
  function ConsumeAll(c: Consumer, ds: seq<(Option<Message>, Outcomes)>): Consumer {
    if ds == [] then c
    else EachMessage(ConsumeAll(c, ds[..|ds| - 1]), ds[|ds| - 1].0, ds[|ds| - 1].1)
  }

  function Malformed(ds: seq<(Option<Message>, Outcomes)>): nat {
    if ds == [] then 0 else Malformed(ds[..|ds| - 1]) + if ds[|ds| - 1].0.None? then 1 else 0
  }

  /** Every delivery is counted once, as consumed or as failed; the offset passes exactly the messages consumed
      and the malformed ones; so the failures beyond the malformed are the deliveries to be repeated. */
  lemma {:induction false} EveryDeliveryIsCounted(c: Consumer, ds: seq<(Option<Message>, Outcomes)>)
    ensures var d := ConsumeAll(c, ds);
            && d.consumed + d.failed == c.consumed + c.failed + |ds|
            && d.offset - c.offset == (d.consumed - c.consumed) + Malformed(ds)
            && c.failed + Malformed(ds) <= d.failed
  {
    if ds != [] {
      EveryDeliveryIsCounted(c, ds[..|ds| - 1]);
    }
  }
}
