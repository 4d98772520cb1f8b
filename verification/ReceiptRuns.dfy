/** Runs of email-service: deliveries one after the other, any of their calls failing. */
module ReceiptRuns {
  import opened Wrappers
  import opened Drivers
  import opened Receipts

  datatype Delivery = Delivery(message: Message, outcomes: Outcomes)

  function Deliver(m: Mail, ds: seq<Delivery>): Mail {
    if ds == [] then m
    else
      var last := ds[|ds| - 1];
      Send(Deliver(m, ds[..|ds| - 1]), last.message, last.outcomes).0
  }

  /** How many of the emails are the receipt of `ride`. */
  function Count(list: seq<Email>, ride: RideId): nat {
    if list == [] then 0
    else Count(list[..|list| - 1], ride) + if list[|list| - 1].receipt.rideId == ride then 1 else 0
  }

  lemma CountAppended(list: seq<Email>, x: Email, ride: RideId)
    ensures Count(list + [x], ride) == Count(list, ride) + if x.receipt.rideId == ride then 1 else 0
  {
    assert (list + [x])[..|list|] == list;
  }

  predicate IsSent(m: Mail, ride: RideId) {
    ride in m.rows && m.rows[ride].status == EmailSent
  }

  predicate IsGivenUp(row: EmailRow) {
    row.status == EmailFailed && row.lastError == Some(USER_NOT_FOUND)
  }

  /** The row a delivery finds or starts from. */
  function RowBefore(m: Mail, e: Message, o: Outcomes): EmailRow
    requires Addressed(e)
  {
    if e.rideId.value in m.rows then m.rows[e.rideId.value]
    else NewRow(e, SubjectOf(ToReceipt(e, NameOf(o.auth))), EmailOf(o.auth))
  }

  /** The email a delivery sends if it gets that far. */
  function TheEmail(e: Message, o: Outcomes): Email
    requires Addressed(e)
  {
    var receipt := ToReceipt(e, NameOf(o.auth));
    Email(if o.auth.UserFound? then o.auth.email else "", SubjectOf(receipt), receipt)
  }

  /** The error of a delivery that reaches SES, if it ends in one. */
  function ErrorOf(o: Outcomes): Option<string> {
    match o.ses
    case Refused(error) => Some(error)
    case ReplyLost(error) => Some(error)
    case Accepted(_) => o.sentWriteError
  }

  /** A delivery that gets as far as SES. */
  predicate ReachesSes(m: Mail, e: Message, o: Outcomes) {
    && Addressed(e) && o.findOk && o.auth.UserFound?
    && (e.rideId.value in m.rows ==> !IsTerminal(m.rows[e.rideId.value]))
    && (e.rideId.value !in m.rows ==> o.saveOk)
  }

  /** A failure written down with the text reserved for unknown riders. */
  predicate RecordsImpostor(m: Mail, e: Message, o: Outcomes) {
    ReachesSes(m, e, o) && o.failedWriteOk && ErrorOf(o).Some? && Truncated(ErrorOf(o).value) == USER_NOT_FOUND
  }

  /** No accept and not SENT; or one accept, and either SENT, or its write lost, or its reply lost. */
  predicate AcceptIsAccounted(m: Mail, email: Email, sent: bool, t: Mail) {
    || (!sent && t.accepts == m.accepts && t.lostWrites == m.lostWrites && t.lostReplies == m.lostReplies)
    || (&& t.accepts == m.accepts + [email]
        && (|| (sent && t.lostWrites == m.lostWrites && t.lostReplies == m.lostReplies)
            || (!sent && t.lostWrites == m.lostWrites + [email] && t.lostReplies == m.lostReplies)
            || (!sent && t.lostWrites == m.lostWrites && t.lostReplies == m.lostReplies + [email])))
  }

  /** What a delivery can do to the books: nothing, or write the one row of its ride. */
  predicate Effect(m: Mail, e: Message, o: Outcomes, t: Mail) {
    || t == m.(duplicates := t.duplicates)
    || (&& Addressed(e)
        && var ride, before := e.rideId.value, RowBefore(m, e, o);
        && ride in t.rows && t.rows == m.rows[ride := t.rows[ride]]
        && var after := t.rows[ride];
        && !IsTerminal(before)
        && after.snapshot == before.snapshot && after.subject == before.subject
        && m.sentTotal <= t.sentTotal && m.sesErrors <= t.sesErrors
        && after.attempts == before.attempts + (t.sentTotal - m.sentTotal) + (t.sesErrors - m.sesErrors)
        && t.sentTotal == m.sentTotal + (if after.status == EmailSent then 1 else 0)
        && t.notFoundTotal == m.notFoundTotal + (if IsGivenUp(after) && !RecordsImpostor(m, e, o) then 1 else 0)
        && (RecordsImpostor(m, e, o) ==> IsGivenUp(after))
        && AcceptIsAccounted(m, TheEmail(e, o), after.status == EmailSent, t))
  }

  /** The part after the row exists: `w` is `m` with the row in it. */
  lemma SendNowHasEffect(m: Mail, e: Message, o: Outcomes, w: Mail)
    requires ReachesSes(m, e, o) && w == m.(rows := m.rows[e.rideId.value := RowBefore(m, e, o)])
    ensures Effect(m, e, o, SendNow(w, TheEmail(e, o), o).0)
  {
    var t := SendNow(w, TheEmail(e, o), o).0;
    var ride := e.rideId.value;
    assert t.rows == m.rows[ride := t.rows[ride]];
  }

  lemma SendHasEffect(m: Mail, e: Message, o: Outcomes)
    ensures Effect(m, e, o, Send(m, e, o).0)
    ensures RecordsImpostor(m, e, o) ==> Send(m, e, o).0 != m.(duplicates := Send(m, e, o).0.duplicates)
  {
    var t := Send(m, e, o).0;
    if ReachesSes(m, e, o) {
      var ride := e.rideId.value;
      var w := m.(rows := m.rows[ride := RowBefore(m, e, o)]);
      assert ride in m.rows ==> w.rows == m.rows;
      assert t == SendNow(w, TheEmail(e, o), o).0;
      SendNowHasEffect(m, e, o, w);
    } else if t != m.(duplicates := t.duplicates) {
      var ride := e.rideId.value;
      assert t.rows == m.rows[ride := t.rows[ride]];
    }
  }

  // ---------------------------------------------------------------------------------------------
  // The send equation
  // ---------------------------------------------------------------------------------------------

  /** SES accepted an email for `ride` once if the row is SENT, and once more for every accept that could
      not be recorded. */
  predicate SendEquation(m: Mail, ride: RideId) {
    Count(m.accepts, ride)
      == (if IsSent(m, ride) then 1 else 0) + Count(m.lostWrites, ride) + Count(m.lostReplies, ride)
  }

  lemma AccountKeepsEquation(m: Mail, email: Email, sent: bool, t: Mail, ride: RideId)
    requires SendEquation(m, ride) && AcceptIsAccounted(m, email, sent, t) && !IsSent(m, email.receipt.rideId)
    requires IsSent(t, ride) <==> if ride == email.receipt.rideId then sent else IsSent(m, ride)
    ensures SendEquation(t, ride)
  {
    CountAppended(m.accepts, email, ride);
    CountAppended(m.lostWrites, email, ride);
    CountAppended(m.lostReplies, email, ride);
  }

  lemma EffectOnSent(m: Mail, e: Message, o: Outcomes, t: Mail, ride: RideId)
    requires Effect(m, e, o, t) && t != m.(duplicates := t.duplicates)
    ensures Addressed(e) && e.rideId.value in t.rows && !IsSent(m, e.rideId.value)
    ensures AcceptIsAccounted(m, TheEmail(e, o), IsSent(t, e.rideId.value), t)
    ensures ride != e.rideId.value ==> (IsSent(t, ride) <==> IsSent(m, ride))
  {
  }

  lemma EffectKeepsEquation(m: Mail, e: Message, o: Outcomes, t: Mail, ride: RideId)
    requires SendEquation(m, ride) && Effect(m, e, o, t)
    ensures SendEquation(t, ride)
  {
    if t != m.(duplicates := t.duplicates) {
      EffectOnSent(m, e, o, t, ride);
      AccountKeepsEquation(m, TheEmail(e, o), IsSent(t, e.rideId.value), t, ride);
    }
  }

  lemma {:induction false} AcceptsAreAccountedFor(m: Mail, ds: seq<Delivery>, ride: RideId)
    requires SendEquation(m, ride)
    ensures SendEquation(Deliver(m, ds), ride)
  {
    if ds != [] {
      AcceptsAreAccountedFor(m, ds[..|ds| - 1], ride);
      var before, last := Deliver(m, ds[..|ds| - 1]), ds[|ds| - 1];
      SendHasEffect(before, last.message, last.outcomes);
      EffectKeepsEquation(before, last.message, last.outcomes, Deliver(m, ds), ride);
    }
  }

  /** The accept, if SES gives one during this delivery, can be recorded. */
  predicate RecordsAccepts(o: Outcomes) {
    !o.ses.ReplyLost? && (o.ses.Accepted? ==> o.sentWriteError.None?)
  }

  /** When every accept is recorded, no ride gets a second receipt, however often its event is delivered. */
  lemma {:induction false} AtMostOneReceipt(ds: seq<Delivery>, ride: RideId)
    requires forall i | 0 <= i < |ds| :: RecordsAccepts(ds[i].outcomes)
    ensures Count(Deliver(NO_MAIL, ds).accepts, ride) == if IsSent(Deliver(NO_MAIL, ds), ride) then 1 else 0
  {
    AcceptsAreAccountedFor(NO_MAIL, ds, ride);
    NothingLost(ds);
  }

  lemma {:induction false} NothingLost(ds: seq<Delivery>)
    requires forall i | 0 <= i < |ds| :: RecordsAccepts(ds[i].outcomes)
    ensures Deliver(NO_MAIL, ds).lostWrites == [] && Deliver(NO_MAIL, ds).lostReplies == []
  {
    if ds != [] {
      var before := ds[..|ds| - 1];
      forall i | 0 <= i < |before| ensures RecordsAccepts(before[i].outcomes) { assert before[i] == ds[i]; }
      NothingLost(before);
      assert RecordsAccepts(ds[|ds| - 1].outcomes);
    }
  }

  // ---------------------------------------------------------------------------------------------
  // The books
  // ---------------------------------------------------------------------------------------------

  ghost function Sum(f: map<RideId, nat>): nat
    decreases |f|
  {
    if f == map[] then 0
    else
      assert f.Keys != {};
      var k :| k in f;
      assert |f - {k}| == |f| - 1;
      f[k] + Sum(f - {k})
  }

  lemma {:induction false} SumWithout(f: map<RideId, nat>, k: RideId)
    requires k in f
    ensures Sum(f) == f[k] + Sum(f - {k})
    decreases |f|
  {
    var j :| j in f && Sum(f) == f[j] + Sum(f - {j});
    if j != k {
      assert |f - {j}| == |f| - 1 && |f - {k}| == |f| - 1;
      SumWithout(f - {j}, k);
      SumWithout(f - {k}, j);
      assert f - {j} - {k} == f - {k} - {j};
    }
  }

  function Attempts(rows: map<RideId, EmailRow>): map<RideId, nat> {
    map r | r in rows :: rows[r].attempts
  }

  function SentRows(rows: map<RideId, EmailRow>): set<RideId> {
    set r | r in rows && rows[r].status == EmailSent
  }

  /** The rows in the final state for riders nobody knows. */
  function NotFoundRows(rows: map<RideId, EmailRow>): set<RideId> {
    set r | r in rows && IsGivenUp(rows[r])
  }

  ghost predicate AttemptsAgree(m: Mail) {
    Sum(Attempts(m.rows)) == m.sentTotal + m.sesErrors
  }

  predicate SentAgrees(m: Mail) {
    |SentRows(m.rows)| == m.sentTotal
  }

  predicate NotFoundAgrees(m: Mail) {
    |NotFoundRows(m.rows)| == m.notFoundTotal
  }

  lemma AttemptsChange(rows: map<RideId, EmailRow>, ride: RideId, row: EmailRow)
    ensures Sum(Attempts(rows[ride := row]))
         == Sum(Attempts(rows)) - (if ride in rows then rows[ride].attempts else 0) + row.attempts
  {
    var f, g := Attempts(rows), Attempts(rows[ride := row]);
    SumWithout(g, ride);
    if ride in rows {
      SumWithout(f, ride);
      assert g - {ride} == f - {ride};
    } else {
      assert g - {ride} == f;
    }
  }

  lemma SentRowsChange(rows: map<RideId, EmailRow>, ride: RideId, row: EmailRow)
    requires ride in rows ==> rows[ride].status != EmailSent
    ensures |SentRows(rows[ride := row])| == |SentRows(rows)| + if row.status == EmailSent then 1 else 0
  {
    assert SentRows(rows[ride := row]) == if row.status == EmailSent then SentRows(rows) + {ride} else SentRows(rows);
  }

  lemma NotFoundRowsChange(rows: map<RideId, EmailRow>, ride: RideId, row: EmailRow)
    requires ride in rows ==> !IsGivenUp(rows[ride])
    ensures |NotFoundRows(rows[ride := row])| == |NotFoundRows(rows)| + if IsGivenUp(row) then 1 else 0
  {
    assert NotFoundRows(rows[ride := row])
        == if IsGivenUp(row) then NotFoundRows(rows) + {ride} else NotFoundRows(rows);
  }

  lemma EffectKeepsBooks(m: Mail, e: Message, o: Outcomes, t: Mail)
    requires AttemptsAgree(m) && SentAgrees(m) && NotFoundAgrees(m) && Effect(m, e, o, t)
    requires RecordsImpostor(m, e, o) ==> t != m.(duplicates := t.duplicates)
    ensures AttemptsAgree(t) && SentAgrees(t)
    ensures NotFoundAgrees(t) <==> !RecordsImpostor(m, e, o)
  {
    if t != m.(duplicates := t.duplicates) {
      var ride, after := e.rideId.value, t.rows[e.rideId.value];
      AttemptsChange(m.rows, ride, after);
      SentRowsChange(m.rows, ride, after);
      NotFoundRowsChange(m.rows, ride, after);
    }
  }

  /** Attempts and sent emails are always counted right; the unknown riders are, exactly unless an error
      whose recorded text is "user_not_found" was written down as a failure. */
  lemma SendKeepsBooks(m: Mail, e: Message, o: Outcomes)
    requires AttemptsAgree(m) && SentAgrees(m) && NotFoundAgrees(m)
    ensures AttemptsAgree(Send(m, e, o).0) && SentAgrees(Send(m, e, o).0)
    ensures NotFoundAgrees(Send(m, e, o).0) <==> !RecordsImpostor(m, e, o)
  {
    SendHasEffect(m, e, o);
    EffectKeepsBooks(m, e, o, Send(m, e, o).0);
  }

  /** No call fails with the text the handler reserves for unknown riders. */
  predicate HonestErrors(o: Outcomes) {
    ErrorOf(o).Some? ==> Truncated(ErrorOf(o).value) != USER_NOT_FOUND
  }

  /** After any run: the attempts in the table are the sends and the SES errors counted, every SENT row was
      counted once, and every row given up on as well. */
  lemma {:induction false} BooksBalance(ds: seq<Delivery>)
    requires forall i | 0 <= i < |ds| :: HonestErrors(ds[i].outcomes)
    ensures AttemptsAgree(Deliver(NO_MAIL, ds)) && SentAgrees(Deliver(NO_MAIL, ds))
    ensures NotFoundAgrees(Deliver(NO_MAIL, ds))
  {
    if ds == [] {
      EmptyBooksBalance();
    } else {
      var before, last := ds[..|ds| - 1], ds[|ds| - 1];
      forall i | 0 <= i < |before| ensures HonestErrors(before[i].outcomes) { assert before[i] == ds[i]; }
      BooksBalance(before);
      HonestSendKeepsBooks(Deliver(NO_MAIL, before), last.message, last.outcomes);
    }
  }

  lemma EmptyBooksBalance()
    ensures AttemptsAgree(NO_MAIL) && SentAgrees(NO_MAIL) && NotFoundAgrees(NO_MAIL)
  {
    assert Attempts(NO_MAIL.rows) == map[] && SentRows(NO_MAIL.rows) == {} && NotFoundRows(NO_MAIL.rows) == {};
  }

  lemma HonestSendKeepsBooks(m: Mail, e: Message, o: Outcomes)
    requires AttemptsAgree(m) && SentAgrees(m) && NotFoundAgrees(m) && HonestErrors(o)
    ensures AttemptsAgree(Send(m, e, o).0) && SentAgrees(Send(m, e, o).0) && NotFoundAgrees(Send(m, e, o).0)
  {
    SendKeepsBooks(m, e, o);
  }

  // ---------------------------------------------------------------------------------------------
  // Retries end, and their end is final
  // ---------------------------------------------------------------------------------------------

  predicate IsClean(o: Outcomes) {
    o.findOk && !o.auth.AuthDown? && o.saveOk && o.notFoundWriteOk && o.ses.Accepted? && o.sentWriteError.None?
  }

  predicate Settled(m: Mail, e: Message) {
    Addressed(e) ==> e.rideId.value in m.rows && IsTerminal(m.rows[e.rideId.value])
  }

  /** A delivery is committed exactly when it leaves the message settled; a clean one always is. */
  lemma CommittedMeansSettled(m: Mail, e: Message, o: Outcomes)
    ensures Send(m, e, o).1 ==> Settled(Send(m, e, o).0, e)
    ensures IsClean(o) ==> Send(m, e, o).1
    ensures !Send(m, e, o).1 && HonestErrors(o) && (o.findOk || !Settled(m, e)) ==> !Settled(Send(m, e, o).0, e)
  {
  }

  /** Whatever fails first, a schedule that holds a clean delivery ends the retry loop with the offset past
      the message and, if the message is addressed, its row in a final state; each delivery was counted. */
  lemma {:induction false} RetriesEnd(c: Consumer, payload: Option<Message>, schedule: seq<Outcomes>)
    requires exists i | 0 <= i < |schedule| :: IsClean(schedule[i])
    ensures var d := Redeliver(c, payload, schedule);
            && d.offset == c.offset + 1
            && (payload.Some? ==> Settled(d.mail, payload.value))
            && d.consumed + d.failed <= c.consumed + c.failed + |schedule|
            && (payload.Some? ==> d.consumed == c.consumed + 1)
    decreases |schedule|
  {
    var next := EachMessage(c, payload, schedule[0]);
    if payload.Some? {
      CommittedMeansSettled(c.mail, payload.value, schedule[0]);
    }
    if next.offset == c.offset {
      var i :| 0 <= i < |schedule| && IsClean(schedule[i]);
      assert i > 0 && schedule[1..][i - 1] == schedule[i];
      RetriesEnd(next, payload, schedule[1..]);
    }
  }

  /** A final row is final: any later delivery about the ride, failing or not, changes neither the table nor
      what SES has accepted. */
  lemma SettledIsFinal(m: Mail, e: Message, o: Outcomes)
    requires Settled(m, e)
    ensures var t := Send(m, e, o).0;
            && t.rows == m.rows && t.accepts == m.accepts
            && t.sentTotal == m.sentTotal && t.sesErrors == m.sesErrors && t.notFoundTotal == m.notFoundTotal
    ensures o.findOk ==> Send(m, e, o).1
  {
  }

  lemma EffectKeepsRows(m: Mail, e: Message, o: Outcomes, t: Mail, ride: RideId)
    requires Effect(m, e, o, t) && ride in m.rows
    ensures ride in t.rows
    ensures t.rows[ride].snapshot == m.rows[ride].snapshot && t.rows[ride].subject == m.rows[ride].subject
    ensures IsTerminal(m.rows[ride]) ==>
              t.rows[ride] == m.rows[ride] && Count(t.accepts, ride) == Count(m.accepts, ride)
  {
    if Addressed(e) {
      CountAppended(m.accepts, TheEmail(e, o), ride);
    }
  }

  /** The ride a row describes, and its subject, never change after the row is created, and a final row never changes at
      all, nor does SES get that receipt again. */
  lemma {:induction false} RowsSettle(m: Mail, ds: seq<Delivery>, ride: RideId)
    requires ride in m.rows
    ensures ride in Deliver(m, ds).rows
    ensures Deliver(m, ds).rows[ride].snapshot == m.rows[ride].snapshot
    ensures Deliver(m, ds).rows[ride].subject == m.rows[ride].subject
    ensures IsTerminal(m.rows[ride]) ==>
              Deliver(m, ds).rows[ride] == m.rows[ride] && Count(Deliver(m, ds).accepts, ride) == Count(m.accepts, ride)
  {
    if ds != [] {
      var before, last := Deliver(m, ds[..|ds| - 1]), ds[|ds| - 1];
      RowsSettle(m, ds[..|ds| - 1], ride);
      SendHasEffect(before, last.message, last.outcomes);
      EffectKeepsRows(before, last.message, last.outcomes, Deliver(m, ds), ride);
    }
  }

  /** What the columns of a row say together. */
  predicate IsConsistent(row: EmailRow) {
    && row.subject == ReceiptSubject(row.snapshot.fare)
    && match row.status
    case EmailPending => row.attempts == 0 && row.lastError.None? && row.messageId.None? && row.sentAt.None?
    case EmailSent => row.attempts > 0 && row.lastError.None? && row.messageId.Some? && row.sentAt.Some?
                      && row.toEmail.Some?
    case EmailFailed => row.lastError.Some? && row.messageId.None? && row.sentAt.None?
                        && (row.attempts > 0 || row.lastError == Some(USER_NOT_FOUND))
  }

  lemma SendNowKeepsConsistent(m: Mail, email: Email, o: Outcomes, ride: RideId)
    requires email.receipt.rideId in m.rows && !IsTerminal(m.rows[email.receipt.rideId])
    requires ride in m.rows ==> IsConsistent(m.rows[ride])
    ensures ride in SendNow(m, email, o).0.rows ==> IsConsistent(SendNow(m, email, o).0.rows[ride])
  {
  }

  lemma SendKeepsConsistent(m: Mail, e: Message, o: Outcomes, ride: RideId)
    requires ride in m.rows ==> IsConsistent(m.rows[ride])
    ensures ride in Send(m, e, o).0.rows ==> IsConsistent(Send(m, e, o).0.rows[ride])
  {
    if ReachesSes(m, e, o) {
      var reached := e.rideId.value;
      var w := if reached in m.rows then m else m.(rows := m.rows[reached := RowBefore(m, e, o)]);
      SendNowKeepsConsistent(w, TheEmail(e, o), o, ride);
    }
  }

  /** The subject says the fare of the snapshot. A row is SENT with an address, an SES message id and a time,
      FAILED with an error and without them, and PENDING only before its first attempt. */
  lemma {:induction false} RowsAreConsistent(ds: seq<Delivery>, ride: RideId)
    requires ride in Deliver(NO_MAIL, ds).rows
    ensures IsConsistent(Deliver(NO_MAIL, ds).rows[ride])
  {
    if ds != [] {
      var before, last := Deliver(NO_MAIL, ds[..|ds| - 1]), ds[|ds| - 1];
      if ride in before.rows { RowsAreConsistent(ds[..|ds| - 1], ride); }
      SendKeepsConsistent(before, last.message, last.outcomes, ride);
    }
  }
}
