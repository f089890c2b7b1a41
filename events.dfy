/**
 * Model of routes/events.js: event creation, the paged and sorted event listing, the
 * listing by club, lookup, updates, and deletion together with the event's registrations.
 */
module Events {
  import opened Tables
  import opened Records
  import opened Http
  import opened Store
  import Registrations

  /**
   * The document `createEvent` inserts. The date is `eventDate || date || now` and is stored
   * under both names; `isPaid` is the truthiness of the field, `eventFee` defaults to 0 and
   * a falsy `maxAttendees` means no limit.
   */
  function NewEvent(clubId: Id, title: string, description: string, eventDate: Option<int>,
                    date: Option<int>, location: string, isPaid: Option<bool>, eventFee: Option<int>,
                    maxAttendees: Option<int>, now: int): (e: Event)
    ensures TruthyInt(eventDate) ==> e.eventDate == eventDate.value
    ensures !TruthyInt(eventDate) && TruthyInt(date) ==> e.eventDate == date.value
    ensures !TruthyInt(eventDate) && !TruthyInt(date) ==> e.eventDate == now
    ensures e.date == e.eventDate && e.createdAt == now && e.clubId == clubId
    ensures e.isPaid <==> isPaid == Some(true)
    ensures e.eventFee == OrDefaultInt(eventFee, 0)
    ensures e.maxAttendees.Some? <==> TruthyInt(maxAttendees)
    ensures e.maxAttendees.Some? ==> e.maxAttendees == maxAttendees
  {
    var when := if TruthyInt(eventDate) then eventDate.value else if TruthyInt(date) then date.value else now;
    Event(clubId, title, description, when, when, location, isPaid == Some(true),
          OrDefaultInt(eventFee, 0), if TruthyInt(maxAttendees) then maxAttendees else None, now)
  }

  /** The club is not looked up: an event may name a club that does not exist. */
  method CreateEvent(db: Database, clubId: Id, title: string, description: string, eventDate: Option<int>,
                     date: Option<int>, location: string, isPaid: Option<bool>, eventFee: Option<int>,
                     maxAttendees: Option<int>, now: int) returns (reply: Reply)
    requires db.Valid()
    modifies db`events
    ensures db.Valid()
    ensures reply == Created(old(db.events.next))
    ensures db.events == Insert(old(db.events), NewEvent(clubId, title, description, eventDate, date,
                                                         location, isPaid, eventFee, maxAttendees, now))
  {
    reply := Created(db.events.next);
    db.events := Insert(db.events, NewEvent(clubId, title, description, eventDate, date, location,
                                            isPaid, eventFee, maxAttendees, now));
  }

  // ---- getAllEvents ----

  /** The numeric fields an event listing can be sorted on; any other name sorts nothing. */
  datatype EventField = EventDate | Date | CreatedAt | EventFee | Unsorted

  /** `sortBy || 'eventDate'`. */
  function EventFieldOf(sortBy: Option<string>): (f: EventField)
    ensures !Truthy(sortBy) || sortBy.value == "eventDate" <==> f == EventDate
    ensures sortBy == Some("date") <==> f == Date
    ensures sortBy == Some("createdAt") <==> f == CreatedAt
    ensures sortBy == Some("eventFee") <==> f == EventFee
    ensures f == Unsorted <==> Truthy(sortBy) && sortBy.value !in {"eventDate", "date", "createdAt", "eventFee"}
  {
    if !Truthy(sortBy) then EventDate
    else match sortBy.value
      case "eventDate" => EventDate
      case "date" => Date
      case "createdAt" => CreatedAt
      case "eventFee" => EventFee
      case _ => Unsorted
  }

  /** The field's value; a field no document has compares equal everywhere. */
  function FieldValue(e: Event, f: EventField): int
  {
    match f
    case EventDate => e.eventDate
    case Date => e.date
    case CreatedAt => e.createdAt
    case EventFee => e.eventFee
    case Unsorted => 0
  }

  /** The ascending sort key: the field, negated for `sortOrder=desc`. */
  function EventKey(events: Table<Event>, f: EventField, descending: bool): Id -> int
  {
    (id: Id) =>
      if id !in events.rows then 0
      else if descending then -FieldValue(events.rows[id], f)
      else FieldValue(events.rows[id], f)
  }

  /** The `find` filter: the club's events when `clubId` is given, every event otherwise. */
  function ClubFilter(clubId: Option<Id>): Event -> bool
  {
    (e: Event) => clubId.Some? ==> e.clubId == clubId.value
  }

  /**
   * `(page - 1) * limit`, the number of events page `page` skips, written as repeated
   * addition so that the paging proofs stay linear.
   */
  function Offset(page: int, limit: nat): nat
    decreases page
  {
    if page <= 1 then 0 else Offset(page - 1, limit) + limit
  }

  lemma {:induction false} OffsetIsProduct(page: int, limit: nat)
    requires page >= 1
    ensures Offset(page, limit) == (page - 1) * limit
    decreases page
  {
    if page > 1 {
      OffsetIsProduct(page - 1, limit);
    }
  }

  lemma {:induction false} OffsetMonotone(a: int, b: int, limit: nat)
    requires a <= b
    ensures Offset(a, limit) <= Offset(b, limit)
    decreases b - a
  {
    if a < b {
      OffsetMonotone(a, b - 1, limit);
    }
  }

  /** `Math.ceil(total / limit)`: the fewest pages of `limit` events that hold `total` events. */
  function TotalPages(total: nat, limit: nat): (pages: nat)
    requires limit >= 1
    ensures Offset(pages + 1, limit) >= total
    ensures pages > 0 ==> Offset(pages, limit) < total
  {
    var pages := (total + limit - 1) / limit;
    OffsetIsProduct(pages + 1, limit);
    OffsetIsProduct(if pages > 0 then pages else 1, limit);
    pages
  }

  /** The answer of `getAllEvents`. */
  datatype EventsPage = EventsPage(events: seq<Id>, totalPages: nat, currentPage: nat, total: nat)

  /** The listing before paging: the matching events, each once, in the requested order. */
  function SortedEvents(events: Table<Event>, clubId: Option<Id>, f: EventField, descending: bool): (r: seq<Id>)
    requires events.Wf()
    ensures forall id :: id in r <==> id in events.rows && (clubId.Some? ==> events.rows[id].clubId == clubId.value)
    ensures |r| == Count(events, ClubFilter(clubId))
    ensures forall i, j :: 0 <= i < j < |r| ==>
      if descending then FieldValue(events.rows[r[i]], f) >= FieldValue(events.rows[r[j]], f)
      else FieldValue(events.rows[r[i]], f) <= FieldValue(events.rows[r[j]], f)
  {
    var matched := Where(events, ClubFilter(clubId));
    var r := SortBy(matched, EventKey(events, f, descending));
    SameElements(r, matched);
    forall i, j | 0 <= i < j < |r|
      ensures if descending then FieldValue(events.rows[r[i]], f) >= FieldValue(events.rows[r[j]], f)
              else FieldValue(events.rows[r[i]], f) <= FieldValue(events.rows[r[j]], f)
    {
      assert EventKey(events, f, descending)(r[i]) <= EventKey(events, f, descending)(r[j]);
    }
    r
  }

  /**
   * `getAllEvents`: `page` and `limit` (after `parseInt`, None when absent or not a number)
   * default to 1 and 10 when falsy; the page is the window of `limit` events after the first
   * `(page - 1) * limit` of the sorted listing. A negative page or limit makes the store
   * refuse the query, which the handler answers with a 500.
   */
  function GetAllEvents(events: Table<Event>, page: Option<int>, limit: Option<int>, sortBy: Option<string>,
                        sortOrder: Option<string>, clubId: Option<Id>): (r: Result<EventsPage>)
    requires events.Wf()
    ensures r.Failure? <==> OrDefaultInt(page, 1) < 1 || OrDefaultInt(limit, 10) < 1
    ensures r.Failure? ==> r == Failure(500, "Internal server error")
    ensures r.Success? ==>
      var p, l := OrDefaultInt(page, 1), OrDefaultInt(limit, 10);
      var all := SortedEvents(events, clubId, EventFieldOf(sortBy), sortOrder == Some("desc"));
      && r.value.total == |all| && r.value.currentPage == p
      && r.value.totalPages == TotalPages(|all|, l)
      && r.value.events == Page(all, Offset(p, l), l)
  {
    var p, l := OrDefaultInt(page, 1), OrDefaultInt(limit, 10);
    if p < 1 || l < 1 then Failure(500, "Internal server error")
    else
      var all := SortedEvents(events, clubId, EventFieldOf(sortBy), sortOrder == Some("desc"));
      Success(EventsPage(Page(all, Offset(p, l), l), TotalPages(|all|, l), p, |all|))
  }

  /**
   * Paging covers the listing: the event at position `k` of the sorted listing is on page
   * `k / limit + 1`, which is within the page count, at offset `k % limit`.
   */
  lemma EveryEventHasAPage(events: Table<Event>, limit: int, sortBy: Option<string>,
                           sortOrder: Option<string>, clubId: Option<Id>, k: nat)
    requires events.Wf() && limit >= 1
    requires k < Count(events, ClubFilter(clubId))
    ensures var r := GetAllEvents(events, Some(k / limit + 1), Some(limit), sortBy, sortOrder, clubId);
      && r.Success? && k / limit + 1 <= r.value.totalPages && k % limit < |r.value.events|
      && r.value.events[k % limit] == SortedEvents(events, clubId, EventFieldOf(sortBy), sortOrder == Some("desc"))[k]
  {
    var all := SortedEvents(events, clubId, EventFieldOf(sortBy), sortOrder == Some("desc"));
    var page, j := k / limit + 1, k % limit;
    var window := Page(all, Offset(page, limit), limit);
    assert 1 <= page <= TotalPages(|all|, limit) && j < |window| && window[j] == all[k] by {
      PageCoversPosition(all, limit, k);
    }
    assert GetAllEvents(events, Some(page), Some(limit), sortBy, sortOrder, clubId)
           == Success(EventsPage(window, TotalPages(|all|, limit), page, |all|)) by {
      RequestedPage(events, page, limit, sortBy, sortOrder, clubId);
    }
  }

  /** Position `k` of a listing is on page `k / limit + 1`, which is counted, at offset `k % limit`. */
  lemma PageCoversPosition(all: seq<Id>, limit: int, k: nat)
    requires limit >= 1 && k < |all|
    ensures 1 <= k / limit + 1 <= TotalPages(|all|, limit)
    ensures k % limit < |Page(all, Offset(k / limit + 1, limit), limit)|
    ensures Page(all, Offset(k / limit + 1, limit), limit)[k % limit] == all[k]
  {
    DivisionSplit(k, limit);
    PositionOnPage(all, limit, k / limit + 1, k % limit);
  }

  /** A request for a page and a limit of at least 1 answers that window of the sorted listing. */
  lemma RequestedPage(events: Table<Event>, page: int, limit: int, sortBy: Option<string>,
                      sortOrder: Option<string>, clubId: Option<Id>)
    requires events.Wf() && page >= 1 && limit >= 1
    ensures var all := SortedEvents(events, clubId, EventFieldOf(sortBy), sortOrder == Some("desc"));
      GetAllEvents(events, Some(page), Some(limit), sortBy, sortOrder, clubId)
      == Success(EventsPage(Page(all, Offset(page, limit), limit), TotalPages(|all|, limit), page, |all|))
  {
    assert OrDefaultInt(Some(page), 1) == page && OrDefaultInt(Some(limit), 10) == limit;
  }

  /** The element at position `Offset(page, limit) + j` is the `j`-th of page `page`, and that page exists. */
  lemma PositionOnPage(all: seq<Id>, limit: nat, page: int, j: nat)
    requires limit >= 1 && page >= 1 && j < limit
    requires Offset(page, limit) + j < |all|
    ensures page <= TotalPages(|all|, limit)
    ensures j < |Page(all, Offset(page, limit), limit)|
    ensures Page(all, Offset(page, limit), limit)[j] == all[Offset(page, limit) + j]
  {
    CoveredPosition(TotalPages(|all|, limit), page, Offset(page, limit) + j, limit);
  }

  /** Position `k` lies `k % limit` events into page `k / limit + 1`. */
  lemma DivisionSplit(k: nat, limit: nat)
    requires limit >= 1
    ensures Offset(k / limit + 1, limit) + k % limit == k && k % limit < limit
  {
    OffsetIsProduct(k / limit + 1, limit);
  }

  /** A position before the end of the last page's window belongs to a page that exists. */
  lemma CoveredPosition(pages: nat, page: int, k: nat, limit: nat)
    requires Offset(page, limit) <= k < Offset(pages + 1, limit)
    ensures page <= pages
  {
    if pages + 1 <= page {
      OffsetMonotone(pages + 1, page, limit);
    }
  }

  /**
   * The example the paging arithmetic is meant for: 12 events in pages of 5 make 3 pages,
   * page 2 holds the sixth to the tenth event, and page 3 the last two.
   */
  lemma TwelveEventsMakeThreePages(all: seq<Id>)
    requires |all| == 12
    ensures TotalPages(|all|, 5) == 3
    ensures Page(all, Offset(2, 5), 5) == all[5..10]
    ensures Page(all, Offset(3, 5), 5) == all[10..]
  {
    assert Offset(2, 5) == 5 && Offset(3, 5) == 10;
  }

  function OfClub(clubId: Id): Event -> bool
  {
    (e: Event) => e.clubId == clubId
  }

  function EventDateKey(events: Table<Event>): Id -> int
  {
    (id: Id) => if id in events.rows then events.rows[id].eventDate else 0
  }

  /** `getEventsByClub`: exactly the club's events, each once, earliest first. */
  function GetEventsByClub(events: Table<Event>, clubId: Id): (r: seq<Id>)
    requires events.Wf()
    ensures forall id :: id in r <==> id in events.rows && events.rows[id].clubId == clubId
    ensures |r| == Count(events, OfClub(clubId))
    ensures forall i, j :: 0 <= i < j < |r| ==> events.rows[r[i]].eventDate <= events.rows[r[j]].eventDate
  {
    var matched := Where(events, OfClub(clubId));
    var r := SortBy(matched, EventDateKey(events));
    SameElements(r, matched);
    assert forall i, j :: 0 <= i < j < |r| ==> EventDateKey(events)(r[i]) <= EventDateKey(events)(r[j]);
    r
  }

  function GetEventById(events: Table<Event>, eventId: Id): (r: Result<Event>)
    ensures r.Failure? <==> eventId !in events.rows
    ensures r.Failure? ==> r == Failure(404, "Event not found")
    ensures r.Success? ==> r.value == events.rows[eventId]
  {
    if eventId in events.rows then Success(events.rows[eventId]) else Failure(404, "Event not found")
  }

  /** The fields a request body may carry to `updateEvent`; absent fields are None. */
  datatype EventPatch = EventPatch(
    title: Option<string>, description: Option<string>, eventDate: Option<int>, date: Option<int>,
    location: Option<string>, isPaid: Option<bool>, eventFee: Option<int>, maxAttendees: Option<int>,
    createdAt: Option<int>)

  /** `$set` of the body: each field given replaces the stored one; `date` is not kept equal to `eventDate`. */
  function UpdatedEvent(e: Event, patch: EventPatch): (e': Event)
    ensures e'.clubId == e.clubId
    ensures patch.title.Some? ==> e'.title == patch.title.value
    ensures patch.title.None? ==> e'.title == e.title
    ensures patch.description.Some? ==> e'.description == patch.description.value
    ensures patch.description.None? ==> e'.description == e.description
    ensures patch.eventDate.Some? ==> e'.eventDate == patch.eventDate.value
    ensures patch.eventDate.None? ==> e'.eventDate == e.eventDate
    ensures patch.date.Some? ==> e'.date == patch.date.value
    ensures patch.date.None? ==> e'.date == e.date
    ensures patch.location.Some? ==> e'.location == patch.location.value
    ensures patch.location.None? ==> e'.location == e.location
    ensures patch.isPaid.Some? ==> e'.isPaid == patch.isPaid.value
    ensures patch.isPaid.None? ==> e'.isPaid == e.isPaid
    ensures patch.eventFee.Some? ==> e'.eventFee == patch.eventFee.value
    ensures patch.eventFee.None? ==> e'.eventFee == e.eventFee
    ensures patch.maxAttendees.Some? ==> e'.maxAttendees == patch.maxAttendees
    ensures patch.maxAttendees.None? ==> e'.maxAttendees == e.maxAttendees
    ensures patch.createdAt.Some? ==> e'.createdAt == patch.createdAt.value
    ensures patch.createdAt.None? ==> e'.createdAt == e.createdAt
  {
    e.(title := Patched(e.title, patch.title),
       description := Patched(e.description, patch.description),
       eventDate := Patched(e.eventDate, patch.eventDate),
       date := Patched(e.date, patch.date),
       location := Patched(e.location, patch.location),
       isPaid := Patched(e.isPaid, patch.isPaid),
       eventFee := Patched(e.eventFee, patch.eventFee),
       maxAttendees := if patch.maxAttendees.Some? then patch.maxAttendees else e.maxAttendees,
       createdAt := Patched(e.createdAt, patch.createdAt))
  }

  /** Moving an event's `eventDate` alone leaves the `date` the event was created with. */
  lemma RescheduleLeavesDate(e: Event, when: int)
    requires e.date == e.eventDate && when != e.eventDate
    ensures var e' := UpdatedEvent(e, EventPatch(None, None, Some(when), None, None, None, None, None, None));
      e'.eventDate == when && e'.date != e'.eventDate
  {
  }

  method UpdateEvent(db: Database, eventId: Id, patch: EventPatch) returns (reply: Reply)
    requires db.Valid()
    modifies db`events
    ensures db.Valid()
    ensures eventId !in old(db.events.rows) ==> reply == Failed(404, "Event not found") && db.events == old(db.events)
    ensures eventId in old(db.events.rows) ==>
      && reply == Done("Event updated successfully")
      && db.events == Replace(old(db.events), eventId, UpdatedEvent(old(db.events.rows[eventId]), patch))
  {
    if eventId !in db.events.rows {
      return Failed(404, "Event not found");
    }
    db.events := Replace(db.events, eventId, UpdatedEvent(db.events.rows[eventId], patch));
    reply := Done("Event updated successfully");
  }

  function ForEvent(eventId: Id): Registration -> bool
  {
    (r: Registration) => r.eventId == eventId
  }

  /** The event goes, and with it every registration for it; registrations for other events stay. */
  method DeleteEvent(db: Database, eventId: Id) returns (reply: Reply)
    requires db.Valid()
    modifies db`events, db`registrations
    ensures db.Valid()
    ensures eventId !in old(db.events.rows) ==>
      && reply == Failed(404, "Event not found")
      && db.events == old(db.events) && db.registrations == old(db.registrations)
    ensures eventId in old(db.events.rows) ==>
      && reply == Done("Event deleted successfully")
      && db.events == Remove(old(db.events), eventId)
      && db.registrations == RemoveWhere(old(db.registrations), ForEvent(eventId))
    ensures forall id :: id in db.registrations.rows ==> db.registrations.rows[id].eventId != eventId
                                                           || eventId !in old(db.events.rows)
  {
    if eventId !in db.events.rows {
      return Failed(404, "Event not found");
    }
    db.events := Remove(db.events, eventId);
    var after := RemoveWhere(db.registrations, ForEvent(eventId));
    Registrations.SamePairsKeepRegistrationsOk(db.registrations, after);
    db.registrations := after;
    reply := Done("Event deleted successfully");
  }
}
