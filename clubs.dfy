/**
 * Model of routes/clubs.js: club creation, the filtered and sorted club listing, the
 * listings by status and by manager, status changes, detail updates and deletion.
 */
module Clubs {
  import opened Tables
  import opened Records
  import opened Http
  import opened Store

  /** The document `createClub` inserts: pending, with the given manager. */
  function NewClub(clubName: string, description: string, category: string, location: string,
                   bannerImage: Option<string>, membershipFee: Option<int>, email: string, now: int): Club
  {
    Club(clubName, description, category, location, OrDefault(bannerImage, ""),
         OrDefaultInt(membershipFee, 0), "pending", email, now)
  }

  method CreateClub(db: Database, clubName: string, description: string, category: string, location: string,
                    bannerImage: Option<string>, membershipFee: Option<int>, email: Option<string>, now: int)
    returns (reply: Reply)
    requires db.Valid()
    modifies db`clubs
    ensures db.Valid()
    ensures !Truthy(email) ==> reply == Failed(400, "Manager email is required") && db.clubs == old(db.clubs)
    ensures Truthy(email) ==>
      && reply == Created(old(db.clubs.next))
      && db.clubs == Insert(old(db.clubs),
           NewClub(clubName, description, category, location, bannerImage, membershipFee, email.value, now))
    ensures reply.Created? ==>
      var c := db.clubs.rows[reply.id];
      c.status == "pending" && c.managerEmail == email.value && c.membershipFee == OrDefaultInt(membershipFee, 0)
  {
    if !Truthy(email) {
      return Failed(400, "Manager email is required");
    }
    reply := Created(db.clubs.next);
    db.clubs := Insert(db.clubs, NewClub(clubName, description, category, location, bannerImage,
                                         membershipFee, email.value, now));
  }

  // ---- getAllClubs ----

  /** The orders `sortBy` selects. */
  datatype ClubOrder = NewestFirst | OldestFirst | HighestFee | LowestFee

  /** `sortBy`: the four known names, newest first otherwise (also when absent). */
  function ClubOrderOf(sortBy: Option<string>): (o: ClubOrder)
    ensures sortBy == Some("oldest") <==> o == OldestFirst
    ensures sortBy == Some("highestFee") <==> o == HighestFee
    ensures sortBy == Some("lowestFee") <==> o == LowestFee
  {
    if !Truthy(sortBy) then NewestFirst
    else match sortBy.value
      case "newest" => NewestFirst
      case "oldest" => OldestFirst
      case "highestFee" => HighestFee
      case "lowestFee" => LowestFee
      case _ => NewestFirst
  }

  /** Whether club `a` may be listed before club `b` in the given order. */
  predicate ListedBefore(a: Club, b: Club, o: ClubOrder)
  {
    match o
    case NewestFirst => a.createdAt >= b.createdAt
    case OldestFirst => a.createdAt <= b.createdAt
    case HighestFee => a.membershipFee >= b.membershipFee
    case LowestFee => a.membershipFee <= b.membershipFee
  }

  /** The ascending sort key that realises the order (a descending sort negates the field). */
  function OrderKey(clubs: Table<Club>, o: ClubOrder): Id -> int
  {
    (id: Id) =>
      if id !in clubs.rows then 0
      else
        var c := clubs.rows[id];
        match o
        case NewestFirst => -c.createdAt
        case OldestFirst => c.createdAt
        case HighestFee => -c.membershipFee
        case LowestFee => c.membershipFee
  }

  /**
   * The `find` filter of `getAllClubs`: approved clubs only unless `admin` is exactly
   * `"true"`, the name matching the search pattern when one is given, the category when one
   * is given. `matches(pattern, name)` stands for the case-insensitive regular expression test.
   */
  function ClubFilter(admin: Option<string>, search: Option<string>, matches: (string, string) -> bool,
                      category: Option<string>): Club -> bool
  {
    (c: Club) =>
      && (admin != Some("true") ==> c.status == "approved")
      && (Truthy(search) ==> matches(search.value, c.clubName))
      && (Truthy(category) ==> c.category == category.value)
  }

  /**
   * `getAllClubs`: every club the filter admits, each once, in the order `sortBy` names
   * (clubs that tie keep the collection's natural order).
   */
  function GetAllClubs(clubs: Table<Club>, admin: Option<string>, search: Option<string>,
                       matches: (string, string) -> bool, category: Option<string>,
                       sortBy: Option<string>): (r: seq<Id>)
    requires clubs.Wf()
    ensures forall id :: id in r <==> id in clubs.rows && ClubFilter(admin, search, matches, category)(clubs.rows[id])
    ensures |r| == Count(clubs, ClubFilter(admin, search, matches, category))
    ensures forall i, j :: 0 <= i < j < |r| ==> ListedBefore(clubs.rows[r[i]], clubs.rows[r[j]], ClubOrderOf(sortBy))
  {
    var matched := Where(clubs, ClubFilter(admin, search, matches, category));
    var o := ClubOrderOf(sortBy);
    var r := SortBy(matched, OrderKey(clubs, o));
    SameElements(r, matched);
    KeyOrderIsListingOrder(clubs, o, r);
    r
  }

  /** Sorting by the key puts the clubs in the order's listing order. */
  lemma KeyOrderIsListingOrder(clubs: Table<Club>, o: ClubOrder, r: seq<Id>)
    requires forall id :: id in r ==> id in clubs.rows
    requires SortedBy(r, OrderKey(clubs, o))
    ensures forall i, j :: 0 <= i < j < |r| ==> ListedBefore(clubs.rows[r[i]], clubs.rows[r[j]], o)
  {
    forall i, j | 0 <= i < j < |r| ensures ListedBefore(clubs.rows[r[i]], clubs.rows[r[j]], o) {
      assert OrderKey(clubs, o)(r[i]) <= OrderKey(clubs, o)(r[j]);
    }
  }

  /** Without an `admin` flag, a search or a category, exactly the approved clubs are listed. */
  lemma PublicListingIsApprovedClubs(clubs: Table<Club>, matches: (string, string) -> bool, sortBy: Option<string>)
    requires clubs.Wf()
    ensures var r := GetAllClubs(clubs, None, None, matches, None, sortBy);
      forall id :: id in r <==> id in clubs.rows && clubs.rows[id].status == "approved"
  {
    forall id | id in clubs.rows
      ensures ClubFilter(None, None, matches, None)(clubs.rows[id]) <==> clubs.rows[id].status == "approved"
    {
      assert !Truthy(None);
    }
  }

  /** With `admin=true` and no search or category, every club is listed, pending and rejected ones included. */
  lemma AdminListingIsEveryClub(clubs: Table<Club>, matches: (string, string) -> bool, sortBy: Option<string>)
    requires clubs.Wf()
    ensures var r := GetAllClubs(clubs, Some("true"), None, matches, None, sortBy);
      forall id :: id in r <==> id in clubs.rows
  {
    forall id | id in clubs.rows ensures ClubFilter(Some("true"), None, matches, None)(clubs.rows[id]) {
      assert !Truthy(None);
    }
  }

  // ---- getClubsByStatus and getClubsByManager ----

  /** The `find` filter of `getClubsByStatus`. */
  function StatusFilter(status: string, search: Option<string>, matches: (string, string) -> bool,
                        category: Option<string>): Club -> bool
  {
    (c: Club) =>
      && c.status == status
      && (Truthy(search) ==> matches(search.value, c.clubName))
      && (Truthy(category) ==> c.category == category.value)
  }

  /** `getClubsByStatus`: a status outside the three is refused; otherwise the matches in natural order. */
  function GetClubsByStatus(clubs: Table<Club>, status: string, search: Option<string>,
                            matches: (string, string) -> bool, category: Option<string>): (r: Result<seq<Id>>)
    requires clubs.Wf()
    ensures status !in ClubStatuses <==> r.Failure?
    ensures r.Failure? ==> r == Failure(400, "Invalid status")
    ensures r.Success? ==> Ascending(r.value) && forall id :: id in r.value <==>
      && id in clubs.rows && clubs.rows[id].status == status
      && (Truthy(search) ==> matches(search.value, clubs.rows[id].clubName))
      && (Truthy(category) ==> clubs.rows[id].category == category.value)
  {
    if status !in ClubStatuses then Failure(400, "Invalid status")
    else Success(Where(clubs, StatusFilter(status, search, matches, category)))
  }

  function ManagedBy(email: string): Club -> bool
  {
    (c: Club) => c.managerEmail == email
  }

  /** `getClubsByManager`: the clubs whose manager is `email`, in natural order. */
  function GetClubsByManager(clubs: Table<Club>, email: string): (r: seq<Id>)
    requires clubs.Wf()
    ensures Ascending(r)
    ensures forall id :: id in r <==> id in clubs.rows && clubs.rows[id].managerEmail == email
  {
    Where(clubs, ManagedBy(email))
  }

  // ---- updates and deletion ----

  method UpdateClubStatus(db: Database, clubId: Id, status: string) returns (reply: Reply)
    requires db.Valid()
    modifies db`clubs
    ensures db.Valid()
    ensures status !in ClubStatuses ==>
      && reply == Failed(400, "Invalid status. Valid statuses are: pending, approved, rejected")
      && db.clubs == old(db.clubs)
    ensures status in ClubStatuses && clubId !in old(db.clubs.rows) ==>
      reply == Failed(404, "Club not found") && db.clubs == old(db.clubs)
    ensures status in ClubStatuses && clubId in old(db.clubs.rows) ==>
      && reply == Done("Club status updated to " + status)
      && db.clubs == Replace(old(db.clubs), clubId, old(db.clubs.rows[clubId]).(status := status))
  {
    if status !in ClubStatuses {
      return Failed(400, "Invalid status. Valid statuses are: pending, approved, rejected");
    }
    if clubId !in db.clubs.rows {
      return Failed(404, "Club not found");
    }
    db.clubs := Replace(db.clubs, clubId, db.clubs.rows[clubId].(status := status));
    reply := Done("Club status updated to " + status);
  }

  /** The fields a request body may carry to `updateClub`; absent fields are None. */
  datatype ClubPatch = ClubPatch(
    clubName: Option<string>, description: Option<string>, category: Option<string>,
    location: Option<string>, bannerImage: Option<string>, membershipFee: Option<int>,
    managerEmail: Option<string>, status: Option<string>, createdAt: Option<int>)

  /**
   * `$set` of the body after `managerEmail` and `status` are deleted from it: every other
   * field given replaces the stored one, whatever its value.
   */
  function UpdatedClub(c: Club, patch: ClubPatch): (c': Club)
    ensures c'.managerEmail == c.managerEmail && c'.status == c.status
    ensures patch.clubName.Some? ==> c'.clubName == patch.clubName.value
    ensures patch.clubName.None? ==> c'.clubName == c.clubName
    ensures patch.description.Some? ==> c'.description == patch.description.value
    ensures patch.description.None? ==> c'.description == c.description
    ensures patch.category.Some? ==> c'.category == patch.category.value
    ensures patch.category.None? ==> c'.category == c.category
    ensures patch.location.Some? ==> c'.location == patch.location.value
    ensures patch.location.None? ==> c'.location == c.location
    ensures patch.bannerImage.Some? ==> c'.bannerImage == patch.bannerImage.value
    ensures patch.bannerImage.None? ==> c'.bannerImage == c.bannerImage
    ensures patch.membershipFee.Some? ==> c'.membershipFee == patch.membershipFee.value
    ensures patch.membershipFee.None? ==> c'.membershipFee == c.membershipFee
    ensures patch.createdAt.Some? ==> c'.createdAt == patch.createdAt.value
    ensures patch.createdAt.None? ==> c'.createdAt == c.createdAt
    ensures patch == ClubPatch(None, None, None, None, None, None, patch.managerEmail, patch.status, None) ==> c' == c
  {
    c.(clubName := Patched(c.clubName, patch.clubName),
       description := Patched(c.description, patch.description),
       category := Patched(c.category, patch.category),
       location := Patched(c.location, patch.location),
       bannerImage := Patched(c.bannerImage, patch.bannerImage),
       membershipFee := Patched(c.membershipFee, patch.membershipFee),
       createdAt := Patched(c.createdAt, patch.createdAt))
  }

  method UpdateClub(db: Database, clubId: Id, patch: ClubPatch) returns (reply: Reply)
    requires db.Valid()
    modifies db`clubs
    ensures db.Valid()
    ensures clubId !in old(db.clubs.rows) ==> reply == Failed(404, "Club not found") && db.clubs == old(db.clubs)
    ensures clubId in old(db.clubs.rows) ==>
      && reply == Done("Club updated successfully")
      && db.clubs == Replace(old(db.clubs), clubId, UpdatedClub(old(db.clubs.rows[clubId]), patch))
  {
    if clubId !in db.clubs.rows {
      return Failed(404, "Club not found");
    }
    db.clubs := Replace(db.clubs, clubId, UpdatedClub(db.clubs.rows[clubId], patch));
    reply := Done("Club updated successfully");
  }

  /** Only the club document goes: its memberships, events and payments stay. */
  method DeleteClub(db: Database, clubId: Id) returns (reply: Reply)
    requires db.Valid()
    modifies db`clubs
    ensures db.Valid()
    ensures clubId !in old(db.clubs.rows) ==> reply == Failed(404, "Club not found") && db.clubs == old(db.clubs)
    ensures clubId in old(db.clubs.rows) ==>
      reply == Done("Club deleted successfully") && db.clubs == Remove(old(db.clubs), clubId)
  {
    if clubId !in db.clubs.rows {
      return Failed(404, "Club not found");
    }
    db.clubs := Remove(db.clubs, clubId);
    reply := Done("Club deleted successfully");
  }
}
