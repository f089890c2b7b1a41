/**
 * Model of routes/eventRegistrations.js: registering for an event (existence, duplicate and
 * capacity checks), status updates, deletion, and the three joined listings.
 */
module Registrations {
  import opened Tables
  import opened Records
  import opened Http
  import opened Store
  import Users

  /** The duplicate check's filter `{ eventId, userEmail }`: the status plays no part. */
  function SameAttendee(eventId: Id, userEmail: string): Registration -> bool
  {
    (r: Registration) => r.eventId == eventId && r.userEmail == userEmail
  }

  /** The capacity check's filter `{ eventId, status: 'registered' }`. */
  function HoldsSeat(eventId: Id): Registration -> bool
  {
    (r: Registration) => r.eventId == eventId && r.status == "registered"
  }

  /** Some registration, in any status, exists for the (event, user) pair. */
  predicate IsRegistered(registrations: Table<Registration>, eventId: Id, userEmail: string)
  {
    exists id :: id in registrations.rows && registrations.rows[id].eventId == eventId
                 && registrations.rows[id].userEmail == userEmail
  }

  /** The duplicate check finds a row exactly when the pair is registered, cancelled or not. */
  lemma DuplicateCheckFindsRegistration(registrations: Table<Registration>, eventId: Id, userEmail: string)
    requires registrations.Wf()
    ensures FindFirst(registrations, SameAttendee(eventId, userEmail)).Some?
            <==> IsRegistered(registrations, eventId, userEmail)
  {
    var found := FindFirst(registrations, SameAttendee(eventId, userEmail));
    if found.Some? {
      assert registrations.rows[found.value].eventId == eventId;
    }
  }

  /** The number of `registered` rows for the event. */
  function SeatsTaken(registrations: Table<Registration>, eventId: Id): nat
    requires registrations.Wf()
  {
    Count(registrations, HoldsSeat(eventId))
  }

  /** A truthy `maxAttendees` that the seats taken have reached. */
  predicate Full(e: Event, taken: nat)
  {
    TruthyInt(e.maxAttendees) && taken >= e.maxAttendees.value
  }

  /** The row `registerForEvent` inserts: `clubId` is taken from the event. */
  function NewRegistration(e: Event, eventId: Id, userEmail: string, paymentId: Option<string>,
                           now: int): Registration
  {
    Registration(eventId, userEmail, Some(e.clubId), "registered", OrNull(paymentId), Some(now))
  }

  /**
   * A registration admitted below the limit takes exactly one more seat, and so never takes
   * the event past a truthy `maxAttendees`.
   */
  lemma AdmittedRegistrationKeepsCapacity(registrations: Table<Registration>, e: Event, eventId: Id,
                                          userEmail: string, paymentId: Option<string>, now: int)
    requires registrations.Wf()
    requires !Full(e, SeatsTaken(registrations, eventId))
    ensures SeatsTaken(Insert(registrations, NewRegistration(e, eventId, userEmail, paymentId, now)), eventId)
            == SeatsTaken(registrations, eventId) + 1
    ensures TruthyInt(e.maxAttendees) ==>
      SeatsTaken(Insert(registrations, NewRegistration(e, eventId, userEmail, paymentId, now)), eventId)
      <= e.maxAttendees.value
  {
    CountInsert(registrations, NewRegistration(e, eventId, userEmail, paymentId, now), HoldsSeat(eventId));
  }

  /** Once a pair has a row, a second registration for it is refused. */
  lemma RegisteredAfterInsert(registrations: Table<Registration>, r: Registration)
    requires registrations.Wf()
    ensures IsRegistered(Insert(registrations, r), r.eventId, r.userEmail)
  {
    assert Insert(registrations, r).rows[registrations.next] == r;
  }

  /** Inserting a row for a (event, user) pair that has none keeps the collection consistent. */
  lemma NewAttendeeKeepsRegistrationsOk(registrations: Table<Registration>, r: Registration)
    requires RegistrationsOk(registrations) && r.status in RegistrationStatuses
    requires !IsRegistered(registrations, r.eventId, r.userEmail)
    ensures RegistrationsOk(Insert(registrations, r))
  {
    var after := Insert(registrations, r);
    forall a, b |
      && a in after.rows && b in after.rows
      && after.rows[a].userEmail == after.rows[b].userEmail
      && after.rows[a].eventId == after.rows[b].eventId
      ensures a == b
    {
      if a != registrations.next && b != registrations.next {
        assert after.rows[a] == registrations.rows[a] && after.rows[b] == registrations.rows[b];
      }
    }
  }

  /** A change that keeps every row's event and user, and a valid status, keeps the collection consistent. */
  lemma SamePairsKeepRegistrationsOk(registrations: Table<Registration>, after: Table<Registration>)
    requires RegistrationsOk(registrations) && after.Wf()
    requires after.rows.Keys <= registrations.rows.Keys
    requires forall id :: id in after.rows ==>
      && after.rows[id].eventId == registrations.rows[id].eventId
      && after.rows[id].userEmail == registrations.rows[id].userEmail
      && after.rows[id].status in RegistrationStatuses
    ensures RegistrationsOk(after)
  {
  }

  method RegisterForEvent(db: Database, eventId: Id, userEmail: string, paymentId: Option<string>, now: int)
    returns (reply: Reply)
    requires db.Valid()
    modifies db`registrations
    ensures db.Valid()
    ensures eventId !in db.events.rows ==>
      reply == Failed(404, "Event not found") && db.registrations == old(db.registrations)
    ensures eventId in db.events.rows && old(IsRegistered(db.registrations, eventId, userEmail)) ==>
      && reply == Failed(400, "User already registered for this event")
      && db.registrations == old(db.registrations)
    ensures eventId in db.events.rows && !old(IsRegistered(db.registrations, eventId, userEmail))
            && Full(db.events.rows[eventId], old(SeatsTaken(db.registrations, eventId))) ==>
      && reply == Failed(400, "Maximum attendees limit reached for this event")
      && db.registrations == old(db.registrations)
    ensures eventId in db.events.rows && !old(IsRegistered(db.registrations, eventId, userEmail))
            && !Full(db.events.rows[eventId], old(SeatsTaken(db.registrations, eventId))) ==>
      && reply == Created(old(db.registrations.next))
      && db.registrations == Insert(old(db.registrations),
           NewRegistration(db.events.rows[eventId], eventId, userEmail, paymentId, now))
  {
    if eventId !in db.events.rows {
      return Failed(404, "Event not found");
    }
    var event := db.events.rows[eventId];
    DuplicateCheckFindsRegistration(db.registrations, eventId, userEmail);
    var existing := FindFirst(db.registrations, SameAttendee(eventId, userEmail));
    if existing.Some? {
      return Failed(400, "User already registered for this event");
    }
    if TruthyInt(event.maxAttendees) {
      var current := Count(db.registrations, HoldsSeat(eventId));
      if current >= event.maxAttendees.value {
        return Failed(400, "Maximum attendees limit reached for this event");
      }
    }
    var registration := NewRegistration(event, eventId, userEmail, paymentId, now);
    NewAttendeeKeepsRegistrationsOk(db.registrations, registration);
    reply := Created(db.registrations.next);
    db.registrations := Insert(db.registrations, registration);
  }

  method UpdateRegistrationStatus(db: Database, registrationId: Id, status: string) returns (reply: Reply)
    requires db.Valid()
    modifies db`registrations
    ensures db.Valid()
    ensures status !in RegistrationStatuses ==>
      reply == Failed(400, "Invalid status") && db.registrations == old(db.registrations)
    ensures status in RegistrationStatuses && registrationId !in old(db.registrations.rows) ==>
      reply == Failed(404, "Registration not found") && db.registrations == old(db.registrations)
    ensures status in RegistrationStatuses && registrationId in old(db.registrations.rows) ==>
      && reply == Done("Registration status updated to " + status)
      && db.registrations == Replace(old(db.registrations), registrationId,
           old(db.registrations.rows[registrationId]).(status := status))
  {
    if status !in RegistrationStatuses {
      return Failed(400, "Invalid status");
    }
    if registrationId !in db.registrations.rows {
      return Failed(404, "Registration not found");
    }
    var after := Replace(db.registrations, registrationId, db.registrations.rows[registrationId].(status := status));
    SamePairsKeepRegistrationsOk(db.registrations, after);
    db.registrations := after;
    reply := Done("Registration status updated to " + status);
  }

  method DeleteRegistration(db: Database, registrationId: Id) returns (reply: Reply)
    requires db.Valid()
    modifies db`registrations
    ensures db.Valid()
    ensures registrationId !in old(db.registrations.rows) ==>
      reply == Failed(404, "Registration not found") && db.registrations == old(db.registrations)
    ensures registrationId in old(db.registrations.rows) ==>
      && reply == Done("Registration deleted successfully")
      && db.registrations == Remove(old(db.registrations), registrationId)
  {
    if registrationId !in db.registrations.rows {
      return Failed(404, "Registration not found");
    }
    var after := Remove(db.registrations, registrationId);
    SamePairsKeepRegistrationsOk(db.registrations, after);
    db.registrations := after;
    reply := Done("Registration deleted successfully");
  }
}

/**
 * The three aggregation pipelines of routes/eventRegistrations.js: a `$match`, `$lookup`s
 * whose `$unwind` drops the rows without a joined document, a projection, and a sort.
 */
module RegistrationListings {
  import opened Tables
  import opened Records
  import Users

  /** A registration of the user's list, with its event's and club's details. */
  datatype UserRegistrationView = UserRegistrationView(
    id: Id, registration: Registration, eventName: string, eventDate: int,
    eventLocation: string, clubName: string)

  /** A registration of an event's list, with the attendee's name and photo. */
  datatype EventRegistrationView = EventRegistrationView(
    id: Id, registration: Registration, userName: string, userPhoto: string)

  /** A registration of a club's list, with the event's title and the attendee's details. */
  datatype ClubRegistrationView = ClubRegistrationView(
    id: Id, registration: Registration, eventName: string, userName: string, userPhoto: string)

  // ---- getRegistrationsByUser ----

  /** The rows that survive `$match: {userEmail}` and the `$unwind` of both the event and the club. */
  function JoinsForUser(events: Table<Event>, clubs: Table<Club>, email: string): Registration -> bool
  {
    (r: Registration) =>
      r.userEmail == email && r.eventId in events.rows && r.clubId.Some? && r.clubId.value in clubs.rows
  }

  /** The projection of one joined row: the registration with its event's and club's details. */
  function UserView(registrations: Table<Registration>, events: Table<Event>, clubs: Table<Club>,
                    email: string, id: Id): (v: UserRegistrationView)
    requires id in registrations.rows && JoinsForUser(events, clubs, email)(registrations.rows[id])
    ensures v.id == id && v.registration == registrations.rows[id] && v.registration.userEmail == email
    ensures v.registration.eventId in events.rows && v.registration.clubId.Some?
    ensures v.registration.clubId.value in clubs.rows
    ensures var e := events.rows[v.registration.eventId];
      v.eventName == e.title && v.eventDate == e.eventDate && v.eventLocation == e.location
    ensures v.clubName == clubs.rows[v.registration.clubId.value].clubName
  {
    var r := registrations.rows[id];
    var e := events.rows[r.eventId];
    UserRegistrationView(id, r, e.title, e.eventDate, e.location, clubs.rows[r.clubId.value].clubName)
  }

  /** The date of the event a registration points to (0 when it has none). */
  function EventDateOf(registrations: Table<Registration>, events: Table<Event>): Id -> int
  {
    (id: Id) =>
      if id in registrations.rows && registrations.rows[id].eventId in events.rows
      then events.rows[registrations.rows[id].eventId].eventDate else 0
  }

  /**
   * The rows of `getRegistrationsByUser`: exactly the user's registrations whose event and
   * club both exist (rows the payment webhook created have no club and are left out), each
   * once, earliest event first.
   */
  function UserRegistrationIds(registrations: Table<Registration>, events: Table<Event>,
                               clubs: Table<Club>, email: string): (ids: seq<Id>)
    requires registrations.Wf()
    ensures forall id :: id in ids <==>
      id in registrations.rows && JoinsForUser(events, clubs, email)(registrations.rows[id])
    ensures |ids| == Count(registrations, JoinsForUser(events, clubs, email))
    ensures SortedBy(ids, EventDateOf(registrations, events))
  {
    var matched := Where(registrations, JoinsForUser(events, clubs, email));
    var sorted := SortBy(matched, EventDateOf(registrations, events));
    SameElements(sorted, matched);
    sorted
  }

  /** `getRegistrationsByUser`: the projections of those rows, in that order. */
  function GetRegistrationsByUser(registrations: Table<Registration>, events: Table<Event>,
                                  clubs: Table<Club>, email: string): (r: seq<UserRegistrationView>)
    requires registrations.Wf()
    ensures var ids := UserRegistrationIds(registrations, events, clubs, email);
      |r| == |ids| && forall i :: 0 <= i < |r| ==> r[i] == UserView(registrations, events, clubs, email, ids[i])
    ensures forall i, j :: 0 <= i < j < |r| ==> r[i].eventDate <= r[j].eventDate
  {
    var ids := UserRegistrationIds(registrations, events, clubs, email);
    var r := seq(|ids|, i requires 0 <= i < |ids| => UserView(registrations, events, clubs, email, ids[i]));
    assert forall i :: 0 <= i < |r| ==> r[i].eventDate == EventDateOf(registrations, events)(ids[i]);
    r
  }

  /**
   * `getRegistrationsByUser` as the pipeline is written: its `$sort` names `event.eventDate`,
   * a field the preceding `$project` has removed, so every row has the same (missing) key
   * and the listing keeps the collection's natural order.
   */
  function GetRegistrationsByUserAsWritten(registrations: Table<Registration>, events: Table<Event>,
                                           clubs: Table<Club>, email: string): (r: seq<UserRegistrationView>)
    requires registrations.Wf()
    ensures var ids := Where(registrations, JoinsForUser(events, clubs, email));
      |r| == |ids| && forall i :: 0 <= i < |r| ==> r[i] == UserView(registrations, events, clubs, email, ids[i])
    ensures forall i, j :: 0 <= i < j < |r| ==> r[i].id < r[j].id
  {
    var ids := Where(registrations, JoinsForUser(events, clubs, email));
    seq(|ids|, i requires 0 <= i < |ids| => UserView(registrations, events, clubs, email, ids[i]))
  }

  /**
   * As written, a user who registered first for a later event and then for an earlier one
   * sees the later event first.
   */
  lemma AsWrittenListingIgnoresEventDate(registrations: Table<Registration>, events: Table<Event>,
                                         clubs: Table<Club>, email: string, first: Id, second: Id)
    requires registrations.Wf() && first < second
    requires first in registrations.rows && JoinsForUser(events, clubs, email)(registrations.rows[first])
    requires second in registrations.rows && JoinsForUser(events, clubs, email)(registrations.rows[second])
    requires EventDateOf(registrations, events)(first) > EventDateOf(registrations, events)(second)
    ensures var r := GetRegistrationsByUserAsWritten(registrations, events, clubs, email);
      exists i, j :: 0 <= i < j < |r| && r[i].eventDate > r[j].eventDate
  {
    var r := GetRegistrationsByUserAsWritten(registrations, events, clubs, email);
    var ids := Where(registrations, JoinsForUser(events, clubs, email));
    var i :| 0 <= i < |ids| && ids[i] == first;
    var j :| 0 <= j < |ids| && ids[j] == second;
    assert i < j;
    assert r[i].eventDate > r[j].eventDate;
  }

  // ---- getRegistrationsByEvent ----

  /** The rows that survive `$match: {eventId}` and the `$unwind` of the attendee. */
  function JoinsForEvent(users: Table<User>, eventId: Id): Registration -> bool
  {
    (r: Registration) => r.eventId == eventId && Users.HasUser(users, r.userEmail)
  }

  /** The projection of one joined row: the registration with its attendee's name and photo. */
  function EventView(registrations: Table<Registration>, users: Table<User>, eventId: Id, id: Id)
    : (v: EventRegistrationView)
    requires users.Wf()
    requires id in registrations.rows && JoinsForEvent(users, eventId)(registrations.rows[id])
    ensures v.id == id && v.registration == registrations.rows[id] && v.registration.eventId == eventId
    ensures Users.UserWithEmail(users, v.registration.userEmail).Some?
    ensures var u := users.rows[Users.UserWithEmail(users, v.registration.userEmail).value];
      v.userName == u.name && v.userPhoto == u.photoURL
  {
    var r := registrations.rows[id];
    var u := users.rows[Users.UserWithEmail(users, r.userEmail).value];
    EventRegistrationView(id, r, u.name, u.photoURL)
  }

  /**
   * `getRegistrationsByEvent`: the projections of exactly the event's registrations whose
   * attendee has a user document, in natural order.
   */
  function GetRegistrationsByEvent(registrations: Table<Registration>, users: Table<User>, eventId: Id)
    : (r: seq<EventRegistrationView>)
    requires registrations.Wf() && users.Wf()
    ensures var ids := Where(registrations, JoinsForEvent(users, eventId));
      |r| == |ids| && forall i :: 0 <= i < |r| ==> r[i] == EventView(registrations, users, eventId, ids[i])
  {
    var ids := Where(registrations, JoinsForEvent(users, eventId));
    seq(|ids|, i requires 0 <= i < |ids| => EventView(registrations, users, eventId, ids[i]))
  }

  // ---- getRegistrationsByClub ----

  /** The rows that survive `$match: {clubId}` and the `$unwind` of the event and the attendee. */
  function JoinsForClub(events: Table<Event>, users: Table<User>, clubId: Id): Registration -> bool
  {
    (r: Registration) => r.clubId == Some(clubId) && r.eventId in events.rows && Users.HasUser(users, r.userEmail)
  }

  /** The projection of one joined row: the registration with the event's title and the attendee's details. */
  function ClubView(registrations: Table<Registration>, events: Table<Event>, users: Table<User>,
                    clubId: Id, id: Id): (v: ClubRegistrationView)
    requires users.Wf()
    requires id in registrations.rows && JoinsForClub(events, users, clubId)(registrations.rows[id])
    ensures v.id == id && v.registration == registrations.rows[id]
    ensures v.registration.clubId == Some(clubId) && v.registration.eventId in events.rows
    ensures v.eventName == events.rows[v.registration.eventId].title
    ensures Users.UserWithEmail(users, v.registration.userEmail).Some?
    ensures var u := users.rows[Users.UserWithEmail(users, v.registration.userEmail).value];
      v.userName == u.name && v.userPhoto == u.photoURL
  {
    var r := registrations.rows[id];
    var u := users.rows[Users.UserWithEmail(users, r.userEmail).value];
    ClubRegistrationView(id, r, events.rows[r.eventId].title, u.name, u.photoURL)
  }

  function RegisteredAtOf(registrations: Table<Registration>): Id -> Option<int>
  {
    (id: Id) => if id in registrations.rows then registrations.rows[id].registeredAt else None
  }

  /**
   * The rows of `getRegistrationsByClub`: exactly the club's registrations whose event and
   * attendee exist, each once, most recent registration first (rows without a registration
   * time last).
   */
  function ClubRegistrationIds(registrations: Table<Registration>, events: Table<Event>,
                               users: Table<User>, clubId: Id): (ids: seq<Id>)
    requires registrations.Wf()
    ensures forall id :: id in ids <==>
      id in registrations.rows && JoinsForClub(events, users, clubId)(registrations.rows[id])
    ensures |ids| == Count(registrations, JoinsForClub(events, users, clubId))
    ensures forall i, j :: 0 <= i < j < |ids| && RegisteredAtOf(registrations)(ids[j]).Some? ==>
      && RegisteredAtOf(registrations)(ids[i]).Some?
      && RegisteredAtOf(registrations)(ids[i]).value >= RegisteredAtOf(registrations)(ids[j]).value
  {
    var matched := Where(registrations, JoinsForClub(events, users, clubId));
    var sorted := SortDescending(matched, RegisteredAtOf(registrations));
    SameElements(sorted, matched);
    sorted
  }

  /** `getRegistrationsByClub`: the projections of those rows, in that order. */
  function GetRegistrationsByClub(registrations: Table<Registration>, events: Table<Event>,
                                  users: Table<User>, clubId: Id): (r: seq<ClubRegistrationView>)
    requires registrations.Wf() && users.Wf()
    ensures var ids := ClubRegistrationIds(registrations, events, users, clubId);
      |r| == |ids| && forall i :: 0 <= i < |r| ==> r[i] == ClubView(registrations, events, users, clubId, ids[i])
  {
    var ids := ClubRegistrationIds(registrations, events, users, clubId);
    seq(|ids|, i requires 0 <= i < |ids| => ClubView(registrations, events, users, clubId, ids[i]))
  }
}
