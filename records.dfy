/**
 * The documents stored in the six collections, the enumerations the handlers accept, and
 * the JavaScript truthiness rules (`x || default`, `if (!x)`) that the handlers apply to
 * optional request fields.
 */
module Records {
  import opened Tables

  const Roles: set<string> := {"admin", "clubManager", "member"}
  const ClubStatuses: set<string> := {"pending", "approved", "rejected"}
  const MembershipStatuses: set<string> := {"active", "expired", "pendingPayment", "cancelled"}
  const RegistrationStatuses: set<string> := {"registered", "cancelled"}
  const PaymentTypes: set<string> := {"membership", "event"}
  const PaymentStatuses: set<string> := {"pending", "completed", "failed", "refunded"}

  datatype User = User(
    email: string, name: string, photoURL: string, role: string, isActive: bool, createdAt: int)

  datatype Club = Club(
    clubName: string, description: string, category: string, location: string,
    bannerImage: string, membershipFee: int, status: string, managerEmail: string,
    createdAt: int)

  /** `paymentId` and `expiresAt` are `null` (None) when the creating handler leaves them unset. */
  datatype Membership = Membership(
    userEmail: string, clubId: Id, status: string, paymentId: Option<string>,
    expiresAt: Option<int>)

  /** `maxAttendees` is `null` (None) when the event has no limit. */
  datatype Event = Event(
    clubId: Id, title: string, description: string, eventDate: int, date: int,
    location: string, isPaid: bool, eventFee: int, maxAttendees: Option<int>, createdAt: int)

  /** `clubId` and `registeredAt` are set by the registration handler; the row the payment
      webhook creates has neither (None). */
  datatype Registration = Registration(
    eventId: Id, userEmail: string, clubId: Option<Id>, status: string,
    paymentId: Option<string>, registeredAt: Option<int>)

  datatype Payment = Payment(
    userEmail: string, amount: int, paymentType: string, clubId: Option<Id>,
    eventId: Option<Id>, stripePaymentIntentId: Option<string>, status: string,
    createdAt: int)

  // ---- JavaScript truthiness of optional request fields ----

  /** A string field is truthy when it is present and not empty. */
  predicate Truthy(s: Option<string>)
  {
    s.Some? && s.value != ""
  }

  /** A numeric field is truthy when it is present and not zero. */
  predicate TruthyInt(x: Option<int>)
  {
    x.Some? && x.value != 0
  }

  /** `s || d` for a string field. */
  function OrDefault(s: Option<string>, d: string): (r: string)
    ensures Truthy(s) ==> r == s.value
    ensures !Truthy(s) ==> r == d
  {
    if Truthy(s) then s.value else d
  }

  /** `s || null` for a string field. */
  function OrNull(s: Option<string>): (r: Option<string>)
    ensures r.Some? <==> Truthy(s)
    ensures r.Some? ==> r == s
  {
    if Truthy(s) then s else None
  }

  /** `x || d` for a numeric field. */
  function OrDefaultInt(x: Option<int>, d: int): (r: int)
    ensures TruthyInt(x) ==> r == x.value
    ensures !TruthyInt(x) ==> r == d
  {
    if TruthyInt(x) then x.value else d
  }

  /** A `$set` field: the given value replaces the stored one, an absent field keeps it. */
  function Patched<X>(stored: X, given: Option<X>): X
  {
    if given.Some? then given.value else stored
  }

  // ---- consistency of the stored collections ----

  /** The users collection: unique emails, every role one of the three. */
  predicate UsersOk(users: Table<User>)
  {
    && users.Wf() && UniqueEmails(users)
    && forall id :: id in users.rows ==> users.rows[id].role in Roles
  }

  predicate ClubsOk(clubs: Table<Club>)
  {
    clubs.Wf() && forall id :: id in clubs.rows ==> clubs.rows[id].status in ClubStatuses
  }

  /** The memberships collection: one per (user, club), every status valid. */
  predicate MembershipsOk(memberships: Table<Membership>)
  {
    && memberships.Wf() && OneMembershipPerPair(memberships)
    && forall id :: id in memberships.rows ==> memberships.rows[id].status in MembershipStatuses
  }

  /** The registrations collection: one per (event, user), every status valid. */
  predicate RegistrationsOk(registrations: Table<Registration>)
  {
    && registrations.Wf() && OneRegistrationPerPair(registrations)
    && forall id :: id in registrations.rows ==> registrations.rows[id].status in RegistrationStatuses
  }

  predicate PaymentsOk(payments: Table<Payment>)
  {
    && payments.Wf()
    && forall id :: id in payments.rows ==>
         payments.rows[id].status in PaymentStatuses && payments.rows[id].paymentType in PaymentTypes
  }

  /** No two users share an email (creation looks the email up first). */
  predicate UniqueEmails(users: Table<User>)
  {
    forall a, b :: a in users.rows && b in users.rows && users.rows[a].email == users.rows[b].email ==> a == b
  }

  /** At most one membership per (user, club), whatever its status. */
  predicate OneMembershipPerPair(memberships: Table<Membership>)
  {
    forall a, b ::
      (&& a in memberships.rows && b in memberships.rows
       && memberships.rows[a].userEmail == memberships.rows[b].userEmail
       && memberships.rows[a].clubId == memberships.rows[b].clubId) ==> a == b
  }

  /** At most one registration per (event, user), whatever its status. */
  predicate OneRegistrationPerPair(registrations: Table<Registration>)
  {
    forall a, b ::
      (&& a in registrations.rows && b in registrations.rows
       && registrations.rows[a].userEmail == registrations.rows[b].userEmail
       && registrations.rows[a].eventId == registrations.rows[b].eventId) ==> a == b
  }
}

/** What a handler sends back: an HTTP status code with a message, an identifier or an error. */
module Http {
  import opened Tables

  datatype Reply =
    | Done(message: string)   // 200 with a message
    | Existing(id: Id)        // 200 with the identifier of a record that already existed
    | Created(id: Id)         // 201 with the identifier of the new record
    | Received                // 200 `{received: true}` to the payment processor
    | Failed(code: int, error: string)

  datatype Result<T> = Success(value: T) | Failure(code: int, error: string)
}
