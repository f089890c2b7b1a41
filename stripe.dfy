/**
 * Model of routes/stripe.js: building payment-intent requests for events and club
 * memberships, and reconciling the database when the payment processor reports that an
 * intent succeeded or failed.
 */
module Stripe {
  import opened Tables
  import opened Records
  import opened Http
  import opened Store
  import Registrations
  import Memberships

  /** The metadata an intent carries back to the webhook: what was paid for, and by whom. */
  datatype IntentMetadata =
    | EventCharge(eventId: Id, userEmail: string)
    | MembershipCharge(clubId: Id, userEmail: string)
    | OtherCharge

  datatype PaymentIntent = PaymentIntent(id: string, metadata: IntentMetadata)

  /** What the handlers ask the payment processor to create: an amount in cents, in US dollars. */
  datatype IntentRequest = IntentRequest(amountCents: int, currency: string, metadata: IntentMetadata)

  /**
   * `createEventPaymentIntent`: all three fields are required (a zero amount counts as
   * missing), then the event must exist. `amountCents` is the request's amount in cents.
   */
  function CreateEventPaymentIntent(events: Table<Event>, eventId: Option<Id>, userEmail: Option<string>,
                                    amountCents: Option<int>): (r: Result<IntentRequest>)
    ensures eventId.None? || !Truthy(userEmail) || !TruthyInt(amountCents) ==>
      r == Failure(400, "Missing required fields: eventId, userEmail, amount")
    ensures eventId.Some? && Truthy(userEmail) && TruthyInt(amountCents) && eventId.value !in events.rows ==>
      r == Failure(404, "Event not found")
    ensures r.Success? <==> eventId.Some? && Truthy(userEmail) && TruthyInt(amountCents) && eventId.value in events.rows
    ensures r.Success? ==>
      r.value == IntentRequest(amountCents.value, "usd", EventCharge(eventId.value, userEmail.value))
  {
    if eventId.None? || !Truthy(userEmail) || !TruthyInt(amountCents) then
      Failure(400, "Missing required fields: eventId, userEmail, amount")
    else if eventId.value !in events.rows then
      Failure(404, "Event not found")
    else
      Success(IntentRequest(amountCents.value, "usd", EventCharge(eventId.value, userEmail.value)))
  }

  /** `createMembershipPaymentIntent`: the same checks, against the clubs. */
  function CreateMembershipPaymentIntent(clubs: Table<Club>, clubId: Option<Id>, userEmail: Option<string>,
                                         amountCents: Option<int>): (r: Result<IntentRequest>)
    ensures clubId.None? || !Truthy(userEmail) || !TruthyInt(amountCents) ==>
      r == Failure(400, "Missing required fields: clubId, userEmail, amount")
    ensures clubId.Some? && Truthy(userEmail) && TruthyInt(amountCents) && clubId.value !in clubs.rows ==>
      r == Failure(404, "Club not found")
    ensures r.Success? <==> clubId.Some? && Truthy(userEmail) && TruthyInt(amountCents) && clubId.value in clubs.rows
    ensures r.Success? ==>
      r.value == IntentRequest(amountCents.value, "usd", MembershipCharge(clubId.value, userEmail.value))
  {
    if clubId.None? || !Truthy(userEmail) || !TruthyInt(amountCents) then
      Failure(400, "Missing required fields: clubId, userEmail, amount")
    else if clubId.value !in clubs.rows then
      Failure(404, "Club not found")
    else
      Success(IntentRequest(amountCents.value, "usd", MembershipCharge(clubId.value, userEmail.value)))
  }

  // ---- webhook reconciliation ----

  /** The three collections the webhook touches. */
  datatype Ledger = Ledger(payments: Table<Payment>, registrations: Table<Registration>,
                           memberships: Table<Membership>)

  predicate LedgerOk(l: Ledger)
  {
    PaymentsOk(l.payments) && RegistrationsOk(l.registrations) && MembershipsOk(l.memberships)
  }

  function ForIntent(intentId: string): Payment -> bool
  {
    (p: Payment) => p.stripePaymentIntentId == Some(intentId)
  }

  /**
   * `updateOne({stripePaymentIntentId}, {$set: {status}})`: the first payment recorded for
   * the intent takes the status; when none was recorded nothing changes.
   */
  function MarkPayment(payments: Table<Payment>, intentId: string, status: string): (t: Table<Payment>)
    requires payments.Wf()
    ensures t.Wf() && t.next == payments.next && t.rows.Keys == payments.rows.Keys
    ensures FindFirst(payments, ForIntent(intentId)).None? ==> t == payments
    ensures FindFirst(payments, ForIntent(intentId)).Some? ==>
      var id := FindFirst(payments, ForIntent(intentId)).value;
      && t.rows[id] == payments.rows[id].(status := status)
      && forall k :: k in payments.rows && k != id ==> t.rows[k] == payments.rows[k]
  {
    match FindFirst(payments, ForIntent(intentId))
    case None => payments
    case Some(id) => Replace(payments, id, payments.rows[id].(status := status))
  }

  /** Marking with a valid status keeps the payments collection consistent. */
  lemma MarkPaymentKeepsPaymentsOk(payments: Table<Payment>, intentId: string, status: string)
    requires PaymentsOk(payments) && status in PaymentStatuses
    ensures PaymentsOk(MarkPayment(payments, intentId, status))
  {
  }

  /** Marking twice with the same status is marking once. */
  lemma MarkPaymentIdempotent(payments: Table<Payment>, intentId: string, status: string)
    requires payments.Wf()
    ensures MarkPayment(MarkPayment(payments, intentId, status), intentId, status)
            == MarkPayment(payments, intentId, status)
  {
    var once := MarkPayment(payments, intentId, status);
    var found := FindFirst(payments, ForIntent(intentId));
    assert FindFirst(once, ForIntent(intentId)) == found by {
      FindFirstSame(payments, once, ForIntent(intentId));
    }
    if found.Some? {
      var id := found.value;
      assert MarkPayment(once, intentId, status) == Replace(once, id, once.rows[id].(status := status));
      assert once.rows[id].(status := status) == once.rows[id];
      ReplaceSame(once, id);
    }
  }

  /** The row the webhook inserts for an event payment: no club, no registration time. */
  function WebhookRegistration(eventId: Id, userEmail: string, intentId: string): Registration
  {
    Registration(eventId, userEmail, None, "registered", Some(intentId), None)
  }

  /** The row the webhook inserts for a membership payment: active, no payment reference, no expiry. */
  function WebhookMembership(clubId: Id, userEmail: string): Membership
  {
    Membership(userEmail, clubId, "active", None, None)
  }

  /**
   * `handleSuccessfulPayment`: the intent's payment is marked completed, then the
   * registration or membership it paid for is created unless one exists already (in any
   * status). The event is not looked up and its capacity is not checked.
   */
  function Succeeded(l: Ledger, intent: PaymentIntent): (l': Ledger)
    requires l.payments.Wf() && l.registrations.Wf() && l.memberships.Wf()
    ensures l'.payments == MarkPayment(l.payments, intent.id, "completed")
    ensures !intent.metadata.EventCharge? ==> l'.registrations == l.registrations
    ensures !intent.metadata.MembershipCharge? ==> l'.memberships == l.memberships
  {
    Ledger(MarkPayment(l.payments, intent.id, "completed"),
           PaidRegistrations(l.registrations, intent), PaidMemberships(l.memberships, intent))
  }

  /** The registrations after a successful payment: the payer's seat is added for an event charge without one. */
  function PaidRegistrations(registrations: Table<Registration>, intent: PaymentIntent): Table<Registration>
    requires registrations.Wf()
  {
    match intent.metadata
    case EventCharge(eventId, email) =>
      if Registrations.IsRegistered(registrations, eventId, email) then registrations
      else Insert(registrations, WebhookRegistration(eventId, email, intent.id))
    case _ => registrations
  }

  /** The memberships after a successful payment: the payer's membership is added for a club charge without one. */
  function PaidMemberships(memberships: Table<Membership>, intent: PaymentIntent): Table<Membership>
    requires memberships.Wf()
  {
    match intent.metadata
    case MembershipCharge(clubId, email) =>
      if Memberships.IsMember(memberships, email, clubId) then memberships
      else Insert(memberships, WebhookMembership(clubId, email))
    case _ => memberships
  }

  /** `handleFailedPayment`: the intent's payment is marked failed; nothing else changes. */
  function Failed(l: Ledger, intent: PaymentIntent): (l': Ledger)
    requires l.payments.Wf()
    ensures l'.registrations == l.registrations && l'.memberships == l.memberships
    ensures l'.payments == MarkPayment(l.payments, intent.id, "failed")
  {
    l.(payments := MarkPayment(l.payments, intent.id, "failed"))
  }

  /** After a successful event payment the payer is registered for the event. */
  lemma SucceededRegisters(l: Ledger, intent: PaymentIntent)
    requires l.payments.Wf() && l.registrations.Wf() && l.memberships.Wf()
    requires intent.metadata.EventCharge?
    ensures Registrations.IsRegistered(Succeeded(l, intent).registrations,
                                       intent.metadata.eventId, intent.metadata.userEmail)
  {
    var m := intent.metadata;
    if !Registrations.IsRegistered(l.registrations, m.eventId, m.userEmail) {
      Registrations.RegisteredAfterInsert(l.registrations, WebhookRegistration(m.eventId, m.userEmail, intent.id));
    }
  }

  /** After a successful membership payment the payer has a membership of the club. */
  lemma SucceededEnrols(l: Ledger, intent: PaymentIntent)
    requires l.payments.Wf() && l.registrations.Wf() && l.memberships.Wf()
    requires intent.metadata.MembershipCharge?
    ensures Memberships.IsMember(Succeeded(l, intent).memberships, intent.metadata.userEmail, intent.metadata.clubId)
  {
    var m := intent.metadata;
    if !Memberships.IsMember(l.memberships, m.userEmail, m.clubId) {
      Memberships.MemberAfterInsert(l.memberships, WebhookMembership(m.clubId, m.userEmail));
    }
  }

  /** A successful payment keeps the three collections consistent. */
  lemma SucceededKeepsLedgerOk(l: Ledger, intent: PaymentIntent)
    requires LedgerOk(l)
    ensures LedgerOk(Succeeded(l, intent))
  {
    MarkPaymentKeepsPaymentsOk(l.payments, intent.id, "completed");
    match intent.metadata
    case EventCharge(eventId, email) =>
      if !Registrations.IsRegistered(l.registrations, eventId, email) {
        Registrations.NewAttendeeKeepsRegistrationsOk(l.registrations, WebhookRegistration(eventId, email, intent.id));
      }
    case MembershipCharge(clubId, email) =>
      if !Memberships.IsMember(l.memberships, email, clubId) {
        Memberships.NewMemberKeepsMembershipsOk(l.memberships, WebhookMembership(clubId, email));
      }
    case OtherCharge =>
  }

  /** The processor may deliver an event more than once: handling it again changes nothing more. */
  lemma SucceededIdempotent(l: Ledger, intent: PaymentIntent)
    requires l.payments.Wf() && l.registrations.Wf() && l.memberships.Wf()
    ensures Succeeded(Succeeded(l, intent), intent) == Succeeded(l, intent)
  {
    MarkPaymentIdempotent(l.payments, intent.id, "completed");
    match intent.metadata
    case EventCharge(eventId, email) => SucceededRegisters(l, intent);
    case MembershipCharge(clubId, email) => SucceededEnrols(l, intent);
    case OtherCharge =>
  }

  /** A repeated failure report changes nothing more either. */
  lemma FailedIdempotent(l: Ledger, intent: PaymentIntent)
    requires l.payments.Wf()
    ensures Failed(Failed(l, intent), intent) == Failed(l, intent)
  {
    MarkPaymentIdempotent(l.payments, intent.id, "failed");
  }

  /**
   * The webhook does not check the event's capacity: a successful payment for an event that
   * is already full still adds a seat.
   */
  lemma SucceededIgnoresCapacity(l: Ledger, intent: PaymentIntent, e: Event)
    requires l.payments.Wf() && l.registrations.Wf() && l.memberships.Wf()
    requires intent.metadata.EventCharge?
    requires !Registrations.IsRegistered(l.registrations, intent.metadata.eventId, intent.metadata.userEmail)
    requires Registrations.Full(e, Registrations.SeatsTaken(l.registrations, intent.metadata.eventId))
    ensures Registrations.SeatsTaken(Succeeded(l, intent).registrations, intent.metadata.eventId)
            > e.maxAttendees.value
  {
    var m := intent.metadata;
    CountInsert(l.registrations, WebhookRegistration(m.eventId, m.userEmail, intent.id),
                Registrations.HoldsSeat(m.eventId));
  }

  // ---- the handlers ----

  /** The database's view of the three collections. */
  function LedgerOf(db: Database): Ledger
    reads db
  {
    Ledger(db.payments, db.registrations, db.memberships)
  }

  /** `findOne` then `insertOne` on the registrations: the payer's seat, unless the pair has a row. */
  method EnsureRegistration(db: Database, intent: PaymentIntent)
    requires db.Valid()
    modifies db`registrations
    ensures db.Valid()
    ensures db.registrations == PaidRegistrations(old(db.registrations), intent)
  {
    if intent.metadata.EventCharge? {
      var eventId, email := intent.metadata.eventId, intent.metadata.userEmail;
      Registrations.DuplicateCheckFindsRegistration(db.registrations, eventId, email);
      var existing := FindFirst(db.registrations, Registrations.SameAttendee(eventId, email));
      if existing.None? {
        Registrations.NewAttendeeKeepsRegistrationsOk(db.registrations, WebhookRegistration(eventId, email, intent.id));
        db.registrations := Insert(db.registrations, WebhookRegistration(eventId, email, intent.id));
      }
    }
  }

  /** `findOne` then `insertOne` on the memberships: the payer's membership, unless the pair has one. */
  method EnsureMembership(db: Database, intent: PaymentIntent)
    requires db.Valid()
    modifies db`memberships
    ensures db.Valid()
    ensures db.memberships == PaidMemberships(old(db.memberships), intent)
  {
    if intent.metadata.MembershipCharge? {
      var clubId, email := intent.metadata.clubId, intent.metadata.userEmail;
      Memberships.DuplicateCheckFindsMembership(db.memberships, email, clubId);
      var existing := FindFirst(db.memberships, Memberships.SameMember(email, clubId));
      if existing.None? {
        Memberships.NewMemberKeepsMembershipsOk(db.memberships, WebhookMembership(clubId, email));
        db.memberships := Insert(db.memberships, WebhookMembership(clubId, email));
      }
    }
  }

  method HandleSuccessfulPayment(db: Database, intent: PaymentIntent)
    requires db.Valid()
    modifies db`payments, db`registrations, db`memberships
    ensures db.Valid()
    ensures LedgerOf(db) == Succeeded(old(LedgerOf(db)), intent)
  {
    ghost var before := LedgerOf(db);
    MarkPaymentKeepsPaymentsOk(db.payments, intent.id, "completed");
    db.payments := MarkPayment(db.payments, intent.id, "completed");
    EnsureRegistration(db, intent);
    EnsureMembership(db, intent);
    assert LedgerOf(db) == Ledger(MarkPayment(before.payments, intent.id, "completed"),
                                  PaidRegistrations(before.registrations, intent),
                                  PaidMemberships(before.memberships, intent));
  }

  method HandleFailedPayment(db: Database, intent: PaymentIntent)
    requires db.Valid()
    modifies db`payments
    ensures db.Valid()
    ensures LedgerOf(db) == Failed(old(LedgerOf(db)), intent)
  {
    MarkPaymentKeepsPaymentsOk(db.payments, intent.id, "failed");
    db.payments := MarkPayment(db.payments, intent.id, "failed");
  }

  /** A webhook delivery whose signature has been checked (or an error message when it failed). */
  datatype WebhookEvent = WebhookEvent(eventType: string, intent: PaymentIntent)

  /**
   * `handleWebhook`: a failed signature check is answered 400 and changes nothing; otherwise
   * the two intent outcomes are reconciled, any other event type is ignored, and the
   * delivery is acknowledged.
   */
  method HandleWebhook(db: Database, signatureError: Option<string>, event: WebhookEvent) returns (reply: Reply)
    requires db.Valid()
    modifies db`payments, db`registrations, db`memberships
    ensures db.Valid()
    ensures signatureError.Some? ==>
      reply == Http.Failed(400, "Webhook Error: " + signatureError.value) && LedgerOf(db) == old(LedgerOf(db))
    ensures signatureError.None? ==> reply == Received
    ensures signatureError.None? && event.eventType == "payment_intent.succeeded" ==>
      LedgerOf(db) == Succeeded(old(LedgerOf(db)), event.intent)
    ensures signatureError.None? && event.eventType == "payment_intent.payment_failed" ==>
      LedgerOf(db) == Failed(old(LedgerOf(db)), event.intent)
    ensures signatureError.None? && event.eventType !in {"payment_intent.succeeded", "payment_intent.payment_failed"} ==>
      LedgerOf(db) == old(LedgerOf(db))
  {
    if signatureError.Some? {
      return Http.Failed(400, "Webhook Error: " + signatureError.value);
    }
    if event.eventType == "payment_intent.succeeded" {
      HandleSuccessfulPayment(db, event.intent);
    } else if event.eventType == "payment_intent.payment_failed" {
      HandleFailedPayment(db, event.intent);
    }
    reply := Received;
  }
}
