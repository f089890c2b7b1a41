/** Model of routes/payments.js: payment records, their status updates and the three joined listings. */
module Payments {
  import opened Tables
  import opened Records
  import opened Http
  import opened Store
  import Users

  /** The document `createPayment` inserts once the type and the status have been checked. */
  function NewPayment(userEmail: string, amount: int, paymentType: string, clubId: Option<Id>,
                      eventId: Option<Id>, stripePaymentIntentId: Option<string>, status: string, now: int): Payment
  {
    Payment(userEmail, amount, paymentType, clubId, eventId, stripePaymentIntentId, status, now)
  }

  /** The type is checked before the status, so a request wrong in both is refused for its type. */
  method CreatePayment(db: Database, userEmail: string, amount: int, paymentType: string, clubId: Option<Id>,
                       eventId: Option<Id>, stripePaymentIntentId: Option<string>, status: string, now: int)
    returns (reply: Reply)
    requires db.Valid()
    modifies db`payments
    ensures db.Valid()
    ensures paymentType !in PaymentTypes ==>
      && reply == Failed(400, "Invalid payment type. Valid types are: membership, event")
      && db.payments == old(db.payments)
    ensures paymentType in PaymentTypes && status !in PaymentStatuses ==>
      && reply == Failed(400, "Invalid payment status. Valid statuses are: pending, completed, failed, refunded")
      && db.payments == old(db.payments)
    ensures paymentType in PaymentTypes && status in PaymentStatuses ==>
      && reply == Created(old(db.payments.next))
      && db.payments == Insert(old(db.payments), NewPayment(userEmail, amount, paymentType, clubId, eventId,
                                                            stripePaymentIntentId, status, now))
  {
    if paymentType !in PaymentTypes {
      return Failed(400, "Invalid payment type. Valid types are: membership, event");
    }
    if status !in PaymentStatuses {
      return Failed(400, "Invalid payment status. Valid statuses are: pending, completed, failed, refunded");
    }
    var p := NewPayment(userEmail, amount, paymentType, clubId, eventId, stripePaymentIntentId, status, now);
    reply := Created(db.payments.next);
    NewPaymentKeepsPaymentsOk(db.payments, p);
    db.payments := Insert(db.payments, p);
  }

  /** Inserting a payment whose type and status are valid keeps the payments collection consistent. */
  lemma NewPaymentKeepsPaymentsOk(payments: Table<Payment>, p: Payment)
    requires PaymentsOk(payments) && p.paymentType in PaymentTypes && p.status in PaymentStatuses
    ensures PaymentsOk(Insert(payments, p))
  {
  }

  method UpdatePaymentStatus(db: Database, paymentId: Id, status: string) returns (reply: Reply)
    requires db.Valid()
    modifies db`payments
    ensures db.Valid()
    ensures status !in PaymentStatuses ==>
      reply == Failed(400, "Invalid payment status") && db.payments == old(db.payments)
    ensures status in PaymentStatuses && paymentId !in old(db.payments.rows) ==>
      reply == Failed(404, "Payment not found") && db.payments == old(db.payments)
    ensures status in PaymentStatuses && paymentId in old(db.payments.rows) ==>
      && reply == Done("Payment status updated to " + status)
      && db.payments == Replace(old(db.payments), paymentId, old(db.payments.rows[paymentId]).(status := status))
  {
    if status !in PaymentStatuses {
      return Failed(400, "Invalid payment status");
    }
    if paymentId !in db.payments.rows {
      return Failed(404, "Payment not found");
    }
    db.payments := Replace(db.payments, paymentId, db.payments.rows[paymentId].(status := status));
    reply := Done("Payment status updated to " + status);
  }

  // ---- the joined listings ----

  /**
   * A payment with the names its `$lookup`s found: `$arrayElemAt: [..., 0]` gives the first
   * match, or nothing when the lookup found none (or the listing does not project the name).
   */
  datatype PaymentView = PaymentView(
    id: Id, payment: Payment, userName: Option<string>, clubName: Option<string>, eventName: Option<string>)

  /** The name of the club a payment points to, if it points to one that exists. */
  function ClubNameOf(clubs: Table<Club>, clubId: Option<Id>): (name: Option<string>)
    ensures name.Some? <==> clubId.Some? && clubId.value in clubs.rows
    ensures name.Some? ==> name.value == clubs.rows[clubId.value].clubName
  {
    if clubId.Some? && clubId.value in clubs.rows then Some(clubs.rows[clubId.value].clubName) else None
  }

  /** The title of the event a payment points to, if it points to one that exists. */
  function EventTitleOf(events: Table<Event>, eventId: Option<Id>): (title: Option<string>)
    ensures title.Some? <==> eventId.Some? && eventId.value in events.rows
    ensures title.Some? ==> title.value == events.rows[eventId.value].title
  {
    if eventId.Some? && eventId.value in events.rows then Some(events.rows[eventId.value].title) else None
  }

  /** The name of the first user with the payer's email, if there is one. */
  function UserNameOf(users: Table<User>, email: string): (name: Option<string>)
    requires users.Wf()
    ensures name.Some? <==> Users.HasUser(users, email)
    ensures name.Some? ==> name.value == users.rows[Users.UserWithEmail(users, email).value].name
  {
    match Users.UserWithEmail(users, email)
    case None => None
    case Some(id) => Some(users.rows[id].name)
  }

  function CreatedAtKey(payments: Table<Payment>): Id -> int
  {
    (id: Id) => if id in payments.rows then -payments.rows[id].createdAt else 0
  }

  /** `$match` then `$sort: {createdAt: -1}`: exactly the matching payments, each once, newest first. */
  function NewestFirst(payments: Table<Payment>, p: Payment -> bool): (ids: seq<Id>)
    requires payments.Wf()
    ensures forall id :: id in ids <==> id in payments.rows && p(payments.rows[id])
    ensures |ids| == Count(payments, p)
    ensures forall i, j :: 0 <= i < j < |ids| ==> payments.rows[ids[i]].createdAt >= payments.rows[ids[j]].createdAt
  {
    var matched := Where(payments, p);
    var r := SortBy(matched, CreatedAtKey(payments));
    SameElements(r, matched);
    assert forall i, j :: 0 <= i < j < |r| ==> CreatedAtKey(payments)(r[i]) <= CreatedAtKey(payments)(r[j]);
    r
  }

  function ByPayer(email: string): Payment -> bool
  {
    (p: Payment) => p.userEmail == email
  }

  function Any(): Payment -> bool
  {
    (p: Payment) => true
  }

  function ForClub(clubId: Id): Payment -> bool
  {
    (p: Payment) => p.clubId == Some(clubId)
  }

  /** `getPaymentsByUser`: the payer's payments, newest first, with club and event names. */
  function GetPaymentsByUser(payments: Table<Payment>, clubs: Table<Club>, events: Table<Event>, email: string)
    : (r: seq<PaymentView>)
    requires payments.Wf()
    ensures var ids := NewestFirst(payments, ByPayer(email));
      |r| == |ids| && forall i :: 0 <= i < |r| ==>
        && r[i].id == ids[i] && r[i].payment == payments.rows[ids[i]] && r[i].payment.userEmail == email
        && r[i].clubName == ClubNameOf(clubs, r[i].payment.clubId)
        && r[i].eventName == EventTitleOf(events, r[i].payment.eventId)
        && r[i].userName.None?
  {
    var ids := NewestFirst(payments, ByPayer(email));
    seq(|ids|, i requires 0 <= i < |ids| =>
      var p := payments.rows[ids[i]];
      PaymentView(ids[i], p, None, ClubNameOf(clubs, p.clubId), EventTitleOf(events, p.eventId)))
  }

  /** `getAllPayments`: every payment, newest first, with payer, club and event names. */
  function GetAllPayments(payments: Table<Payment>, users: Table<User>, clubs: Table<Club>, events: Table<Event>)
    : (r: seq<PaymentView>)
    requires payments.Wf() && users.Wf()
    ensures |r| == |payments.rows|
    ensures var ids := NewestFirst(payments, Any());
      |r| == |ids| && forall i :: 0 <= i < |r| ==>
        && r[i].id == ids[i] && r[i].payment == payments.rows[ids[i]]
        && r[i].userName == UserNameOf(users, r[i].payment.userEmail)
        && r[i].clubName == ClubNameOf(clubs, r[i].payment.clubId)
        && r[i].eventName == EventTitleOf(events, r[i].payment.eventId)
  {
    var ids := NewestFirst(payments, Any());
    AllListed(payments, ids);
    seq(|ids|, i requires 0 <= i < |ids| =>
      var p := payments.rows[ids[i]];
      PaymentView(ids[i], p, UserNameOf(users, p.userEmail), ClubNameOf(clubs, p.clubId), EventTitleOf(events, p.eventId)))
  }

  /** A listing of every row, each once, is as long as the table. */
  lemma AllListed(payments: Table<Payment>, ids: seq<Id>)
    requires payments.Wf()
    requires forall id :: id in ids <==> id in payments.rows
    requires |ids| == Count(payments, Any())
    ensures |ids| == |payments.rows|
  {
    var all := Where(payments, Any());
    assert |all| == |ids|;
    assert forall id :: id in all <==> id in payments.rows;
    DistinctCount(all, payments.rows.Keys);
  }

  /** `getPaymentsByClub`: the club's payments, newest first, with the payer's name. */
  function GetPaymentsByClub(payments: Table<Payment>, users: Table<User>, clubId: Id): (r: seq<PaymentView>)
    requires payments.Wf() && users.Wf()
    ensures var ids := NewestFirst(payments, ForClub(clubId));
      |r| == |ids| && forall i :: 0 <= i < |r| ==>
        && r[i].id == ids[i] && r[i].payment == payments.rows[ids[i]] && r[i].payment.clubId == Some(clubId)
        && r[i].userName == UserNameOf(users, r[i].payment.userEmail)
        && r[i].clubName.None? && r[i].eventName.None?
  {
    var ids := NewestFirst(payments, ForClub(clubId));
    seq(|ids|, i requires 0 <= i < |ids| =>
      var p := payments.rows[ids[i]];
      PaymentView(ids[i], p, UserNameOf(users, p.userEmail), None, None))
  }
}
