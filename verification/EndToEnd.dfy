/** From `requestRide` to the rider's receipts: ride-service and email-service over the `ride.completed` topic. */
module EndToEnd {
  import opened Wrappers
  import opened Drivers
  import opened Rides
  import opened Receipts
  import opened ReceiptRuns
  import opened ReceiptContents

  datatype Trip = Trip(ride: RideState, mail: Mail)

  /** Any published completion may be delivered at any time, any number of times, with any call failing. */
  datatype TripStep = RideMove(step: RideStep) | Mailing(j: nat, outcomes: Outcomes)

  predicate TripPossible(w: Trip, s: TripStep) {
    match s
    case RideMove(step) => PossibleRide(w.ride, step)
    case Mailing(j, _) => j < |w.ride.log| && w.ride.log[j].RideCompletedEvent?
  }

  function MessageOf(e: RideEvent): Message
    requires e.RideCompletedEvent?
  {
    Message(Some(e.ride), Some(e.rider), e.fare, Some(e.pickup.lat), Some(e.pickup.lng),
            Some(e.destination.lat), Some(e.destination.lng), Some(e.requestedAt), Some(e.completedAt), e.completedAt)
  }

  function TripNext(w: Trip, s: TripStep): Trip
    requires TripPossible(w, s)
  {
    match s
    case RideMove(step) => w.(ride := ApplyRide(w.ride, step))
    case Mailing(j, o) => w.(mail := Send(w.mail, MessageOf(w.ride.log[j]), o).0)
  }

  predicate TripRun(w: Trip, steps: seq<TripStep>)
    decreases |steps|
  {
    steps == [] || (TripPossible(w, steps[0]) && TripRun(TripNext(w, steps[0]), steps[1..]))
  }

  function TripEnd(w: Trip, steps: seq<TripStep>): Trip
    requires TripRun(w, steps)
    decreases |steps|
  {
    if steps == [] then w else TripEnd(TripNext(w, steps[0]), steps[1..])
  }

  /** The email row tells the ride as it was requested. */
  predicate TellsRide(s: Snapshot, row: RideRow) {
    && s.userId == row.rider
    && s.pickupLat == Some(row.pickup.lat) && s.pickupLng == Some(row.pickup.lng)
    && s.destinationLat == Some(row.destination.lat) && s.destinationLng == Some(row.destination.lng)
    && s.requestedAt == Some(row.createdAt)
  }

  /** A completion of `r` with that fare and time was published. */
  ghost predicate WasCompleted(log: seq<RideEvent>, r: RideId, fare: Option<real>, at: Time) {
    exists j :: 0 <= j < |log| && log[j].RideCompletedEvent? && log[j].ride == r
                && log[j].fare == fare && log[j].completedAt == at
  }

  /** The email tells the ride as it was requested, and as one published completion ended it. */
  ghost predicate EmailTellsRide(x: Email, s: RideState) {
    && x.receipt.rideId in s.rides
    && var row := s.rides[x.receipt.rideId];
    && x.receipt.pickup == Some(row.pickup) && x.receipt.destination == Some(row.destination)
    && x.receipt.requestedAt == Some(row.createdAt)
    && x.subject == ReceiptSubject(x.receipt.fare)
    && WasCompleted(s.log, x.receipt.rideId, x.receipt.fare, x.receipt.completedAt)
  }

  ghost predicate RowTellsRide(r: RideId, row: EmailRow, s: RideState) {
    && r in s.rides && TellsRide(row.snapshot, s.rides[r])
    && row.subject == ReceiptSubject(row.snapshot.fare)
    && WasCompleted(s.log, r, row.snapshot.fare, row.snapshot.completedAt)
  }

  ghost predicate TripInv(w: Trip) {
    && EventsTell(w.ride)
    && (forall r | r in w.mail.rows :: RowTellsRide(r, w.mail.rows[r], w.ride))
    && (forall x | x in w.mail.accepts :: EmailTellsRide(x, w.ride))
  }

  lemma RideMoveKeeps(w: Trip, step: RideStep)
    requires TripInv(w) && PossibleRide(w.ride, step)
    ensures TripInv(w.(ride := ApplyRide(w.ride, step)))
    ensures forall r | r in w.ride.rides :: r in ApplyRide(w.ride, step).rides
                                            && SameRequest(ApplyRide(w.ride, step).rides[r], w.ride.rides[r])
  {
    var after := ApplyRide(w.ride, step);
    StepKeepsEventsTelling(w.ride, step);
    forall r, fare, at | WasCompleted(w.ride.log, r, fare, at) ensures WasCompleted(after.log, r, fare, at) {
      var j :| 0 <= j < |w.ride.log| && w.ride.log[j].RideCompletedEvent? && w.ride.log[j].ride == r
               && w.ride.log[j].fare == fare && w.ride.log[j].completedAt == at;
      assert after.log[j] == w.ride.log[j];
    }
    forall r | r in w.mail.rows ensures RowTellsRide(r, w.mail.rows[r], after) {
      assert RowTellsRide(r, w.mail.rows[r], w.ride);
    }
    forall x | x in w.mail.accepts ensures EmailTellsRide(x, after) {
      assert EmailTellsRide(x, w.ride);
    }
  }

  lemma MailingKeeps(w: Trip, j: nat, o: Outcomes)
    requires TripInv(w) && TripPossible(w, Mailing(j, o))
    ensures TripInv(TripNext(w, Mailing(j, o)))
  {
    var event, e := w.ride.log[j], MessageOf(w.ride.log[j]);
    var t := TripNext(w, Mailing(j, o)).mail;
    SendHasEffect(w.mail, e, o);
    DeliveryTellsItsEvent(w.mail, e, o);
    assert EventTells(event, w.ride.rides);
    assert WasCompleted(w.ride.log, event.ride, event.fare, event.completedAt);
    forall r | r in t.rows ensures RowTellsRide(r, t.rows[r], w.ride) {
      if r in w.mail.rows {
        assert RowTellsRide(r, w.mail.rows[r], w.ride);
        EffectKeepsRows(w.mail, e, o, t, r);
      }
    }
    forall x | x in t.accepts ensures EmailTellsRide(x, w.ride) {
      if x !in w.mail.accepts { assert EmailTellsEvent(x, e, o.auth); }
    }
  }

  /** What `getMyReceipts` shows of a ride: both points whole, the fare and time of one published completion, and of
      the receipt itself whether and when it was sent, to whom, and after how many attempts. */
  ghost predicate ShowsRide(shown: ShownReceipt, r: RideId, row: EmailRow, ride: RideRow, log: seq<RideEvent>) {
    && shown.ride == r
    && shown.pickup == Some(ShownPoint(ride.pickup.lat, Some(ride.pickup.lng)))
    && shown.destination == Some(ShownPoint(ride.destination.lat, Some(ride.destination.lng)))
    && shown.requestedAt == Some(ride.createdAt)
    && WasCompleted(log, r, shown.fare, shown.completedAt) && shown.subject == ReceiptSubject(shown.fare)
    && (shown.status, shown.toEmail, shown.sentAt, shown.attempts)
         == (row.status, row.toEmail, row.sentAt, row.attempts)
  }

  /** Whatever happens in between, every receipt row and every email is the ride as it was requested (its rider, its
      pickup, its destination, its time) with the fare and the time of one published completion. */
  lemma {:induction false} ReceiptsTellTheRequestedRide(w: Trip, steps: seq<TripStep>, r: RideId)
    requires TripInv(w) && TripRun(w, steps) && r in w.ride.rides
    ensures TripInv(TripEnd(w, steps))
    ensures var mail, ride := TripEnd(w, steps).mail, w.ride.rides[r];
            r in mail.rows ==>
              && TellsRide(mail.rows[r].snapshot, ride)
              && ShowsRide(Show(r, mail.rows[r]), r, mail.rows[r], ride, TripEnd(w, steps).ride.log)
    ensures forall x | x in TripEnd(w, steps).mail.accepts && x.receipt.rideId == r ::
              && x.receipt.pickup == Some(w.ride.rides[r].pickup)
              && x.receipt.destination == Some(w.ride.rides[r].destination)
              && x.receipt.requestedAt == Some(w.ride.rides[r].createdAt)
              && x.subject == ReceiptSubject(x.receipt.fare)
              && WasCompleted(TripEnd(w, steps).ride.log, r, x.receipt.fare, x.receipt.completedAt)
    decreases |steps|
  {
    if steps == [] {
      if r in w.mail.rows { assert RowTellsRide(r, w.mail.rows[r], w.ride); }
      forall x | x in w.mail.accepts ensures EmailTellsRide(x, w.ride) {}
    } else {
      match steps[0] {
        case RideMove(step) => RideMoveKeeps(w, step);
        case Mailing(j, o) => MailingKeeps(w, j, o);
      }
      ReceiptsTellTheRequestedRide(TripNext(w, steps[0]), steps[1..], r);
    }
  }

  /** From the request itself, in a system that starts empty. */
  lemma ReceiptsFromTheRequest(before: seq<TripStep>, request: RideStep, after: seq<TripStep>)
    requires request.Request? && TripRun(Trip(NO_RIDES, NO_MAIL), before)
    requires PossibleRide(TripEnd(Trip(NO_RIDES, NO_MAIL), before).ride, request)
    requires TripRun(TripNext(TripEnd(Trip(NO_RIDES, NO_MAIL), before), RideMove(request)), after)
    ensures var end := TripEnd(TripNext(TripEnd(Trip(NO_RIDES, NO_MAIL), before), RideMove(request)), after);
            request.newId in end.mail.rows ==>
              var s := end.mail.rows[request.newId].snapshot;
              && s.userId == request.rider && s.requestedAt == Some(request.now)
              && PointOf(s.pickupLat, s.pickupLng) == Some(request.pickup)
              && PointOf(s.destinationLat, s.destinationLng) == Some(request.destination)
              && var shown := Show(request.newId, end.mail.rows[request.newId]);
              && shown.requestedAt == Some(request.now)
              && shown.pickup == Some(ShownPoint(request.pickup.lat, Some(request.pickup.lng)))
              && shown.destination == Some(ShownPoint(request.destination.lat, Some(request.destination.lng)))
  {
    var start := Trip(NO_RIDES, NO_MAIL);
    TripRunKeepsInv(start, before);
    var mid := TripEnd(start, before);
    RideMoveKeeps(mid, request);
    ReceiptsTellTheRequestedRide(TripNext(mid, RideMove(request)), after, request.newId);
  }

  lemma {:induction false} TripRunKeepsInv(w: Trip, steps: seq<TripStep>)
    requires TripInv(w) && TripRun(w, steps)
    ensures TripInv(TripEnd(w, steps))
    decreases |steps|
  {
    if steps != [] {
      match steps[0] {
        case RideMove(step) => RideMoveKeeps(w, step);
        case Mailing(j, o) => MailingKeeps(w, j, o);
      }
      TripRunKeepsInv(TripNext(w, steps[0]), steps[1..]);
    }
  }

  // ---------------------------------------------------------------------------------------------
  // Points are whole or missing, whatever was in the event
  // ---------------------------------------------------------------------------------------------

  predicate WholePoints(s: Snapshot) {
    (s.pickupLat.Some? <==> s.pickupLng.Some?) && (s.destinationLat.Some? <==> s.destinationLng.Some?)
  }

  /** Even from events that lack coordinates, `getMyReceipts` shows a point with both, or null. */
  lemma {:induction false} ShownPointsAreWhole(ds: seq<Delivery>, r: RideId)
    requires r in Deliver(NO_MAIL, ds).rows
    ensures var shown := Show(r, Deliver(NO_MAIL, ds).rows[r]);
            && (shown.pickup.Some? ==> shown.pickup.value.lng.Some?)
            && (shown.destination.Some? ==> shown.destination.value.lng.Some?)
    ensures WholePoints(Deliver(NO_MAIL, ds).rows[r].snapshot)
  {
    if ds != [] {
      var before, last := Deliver(NO_MAIL, ds[..|ds| - 1]), ds[|ds| - 1];
      SendHasEffect(before, last.message, last.outcomes);
      if r in before.rows {
        ShownPointsAreWhole(ds[..|ds| - 1], r);
        EffectKeepsRows(before, last.message, last.outcomes, Deliver(NO_MAIL, ds), r);
      }
    }
  }
}
