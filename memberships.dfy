/** Model of routes/memberships.js: joining a club, status updates, deletion and the two listings. */
module Memberships {
  import opened Tables
  import opened Records
  import opened Http
  import opened Store
  import Users

  /** The duplicate check's filter `{ userEmail, clubId }`: the status plays no part. */
  function SameMember(userEmail: string, clubId: Id): Membership -> bool
  {
    (m: Membership) => m.userEmail == userEmail && m.clubId == clubId
  }

  /** Some membership, in any status, exists for the (user, club) pair. */
  predicate IsMember(memberships: Table<Membership>, userEmail: string, clubId: Id)
  {
    exists id :: id in memberships.rows && memberships.rows[id].userEmail == userEmail
                 && memberships.rows[id].clubId == clubId
  }

  /** The duplicate check finds a row exactly when the pair has a membership, whatever its status. */
  lemma DuplicateCheckFindsMembership(memberships: Table<Membership>, userEmail: string, clubId: Id)
    requires memberships.Wf()
    ensures FindFirst(memberships, SameMember(userEmail, clubId)).Some? <==> IsMember(memberships, userEmail, clubId)
  {
    var found := FindFirst(memberships, SameMember(userEmail, clubId));
    if found.Some? {
      assert memberships.rows[found.value].clubId == clubId;
    }
  }

  /** The document `createMembership` inserts: active, no expiry. */
  function NewMembership(userEmail: string, clubId: Id, paymentId: Option<string>): Membership
  {
    Membership(userEmail, clubId, "active", OrNull(paymentId), None)
  }

  /** Inserting a membership for a pair that has none keeps the collection consistent. */
  lemma NewMemberKeepsMembershipsOk(memberships: Table<Membership>, m: Membership)
    requires MembershipsOk(memberships) && m.status in MembershipStatuses
    requires !IsMember(memberships, m.userEmail, m.clubId)
    ensures MembershipsOk(Insert(memberships, m))
  {
    var after := Insert(memberships, m);
    forall a, b |
      && a in after.rows && b in after.rows
      && after.rows[a].userEmail == after.rows[b].userEmail
      && after.rows[a].clubId == after.rows[b].clubId
      ensures a == b
    {
      if a != memberships.next && b != memberships.next {
        assert after.rows[a] == memberships.rows[a] && after.rows[b] == memberships.rows[b];
      }
    }
  }

  /** Once a pair has a membership, a second one for it is refused. */
  lemma MemberAfterInsert(memberships: Table<Membership>, m: Membership)
    requires memberships.Wf()
    ensures IsMember(Insert(memberships, m), m.userEmail, m.clubId)
  {
    assert Insert(memberships, m).rows[memberships.next] == m;
  }

  /** A change that keeps every row's user and club, and a valid status, keeps the collection consistent. */
  lemma SamePairsKeepMembershipsOk(memberships: Table<Membership>, after: Table<Membership>)
    requires MembershipsOk(memberships) && after.Wf()
    requires after.rows.Keys <= memberships.rows.Keys
    requires forall id :: id in after.rows ==>
      && after.rows[id].userEmail == memberships.rows[id].userEmail
      && after.rows[id].clubId == memberships.rows[id].clubId
      && after.rows[id].status in MembershipStatuses
    ensures MembershipsOk(after)
  {
  }

  /** The club is not looked up: a membership may name a club that does not exist. */
  method CreateMembership(db: Database, userEmail: string, clubId: Id, paymentId: Option<string>)
    returns (reply: Reply)
    requires db.Valid()
    modifies db`memberships
    ensures db.Valid()
    ensures old(IsMember(db.memberships, userEmail, clubId)) ==>
      && reply == Failed(400, "Membership already exists for this user and club")
      && db.memberships == old(db.memberships)
    ensures !old(IsMember(db.memberships, userEmail, clubId)) ==>
      && reply == Created(old(db.memberships.next))
      && db.memberships == Insert(old(db.memberships), NewMembership(userEmail, clubId, paymentId))
  {
    DuplicateCheckFindsMembership(db.memberships, userEmail, clubId);
    var existing := FindFirst(db.memberships, SameMember(userEmail, clubId));
    if existing.Some? {
      return Failed(400, "Membership already exists for this user and club");
    }
    NewMemberKeepsMembershipsOk(db.memberships, NewMembership(userEmail, clubId, paymentId));
    reply := Created(db.memberships.next);
    db.memberships := Insert(db.memberships, NewMembership(userEmail, clubId, paymentId));
  }

  method UpdateMembershipStatus(db: Database, membershipId: Id, status: string) returns (reply: Reply)
    requires db.Valid()
    modifies db`memberships
    ensures db.Valid()
    ensures status !in MembershipStatuses ==>
      reply == Failed(400, "Invalid status") && db.memberships == old(db.memberships)
    ensures status in MembershipStatuses && membershipId !in old(db.memberships.rows) ==>
      reply == Failed(404, "Membership not found") && db.memberships == old(db.memberships)
    ensures status in MembershipStatuses && membershipId in old(db.memberships.rows) ==>
      && reply == Done("Membership status updated to " + status)
      && db.memberships == Replace(old(db.memberships), membershipId,
           old(db.memberships.rows[membershipId]).(status := status))
  {
    if status !in MembershipStatuses {
      return Failed(400, "Invalid status");
    }
    if membershipId !in db.memberships.rows {
      return Failed(404, "Membership not found");
    }
    var after := Replace(db.memberships, membershipId, db.memberships.rows[membershipId].(status := status));
    SamePairsKeepMembershipsOk(db.memberships, after);
    db.memberships := after;
    reply := Done("Membership status updated to " + status);
  }

  method DeleteMembership(db: Database, membershipId: Id) returns (reply: Reply)
    requires db.Valid()
    modifies db`memberships
    ensures db.Valid()
    ensures membershipId !in old(db.memberships.rows) ==>
      reply == Failed(404, "Membership not found") && db.memberships == old(db.memberships)
    ensures membershipId in old(db.memberships.rows) ==>
      && reply == Done("Membership deleted successfully")
      && db.memberships == Remove(old(db.memberships), membershipId)
  {
    if membershipId !in db.memberships.rows {
      return Failed(404, "Membership not found");
    }
    var after := Remove(db.memberships, membershipId);
    SamePairsKeepMembershipsOk(db.memberships, after);
    db.memberships := after;
    reply := Done("Membership deleted successfully");
  }

  // ---- getMembershipsByUser ----

  /** A membership of the user's list, with its club's details. */
  datatype UserMembershipView = UserMembershipView(
    id: Id, membership: Membership, clubName: string, description: string, category: string,
    location: string, membershipFee: int)

  /** The rows that survive `$match: {userEmail}` and the `$unwind` of the club. */
  function JoinsForUser(clubs: Table<Club>, email: string): Membership -> bool
  {
    (m: Membership) => m.userEmail == email && m.clubId in clubs.rows
  }

  /** The projection of one joined row: the membership with its club's details. */
  function UserView(memberships: Table<Membership>, clubs: Table<Club>, email: string, id: Id)
    : (v: UserMembershipView)
    requires id in memberships.rows && JoinsForUser(clubs, email)(memberships.rows[id])
    ensures v.id == id && v.membership == memberships.rows[id] && v.membership.userEmail == email
    ensures v.membership.clubId in clubs.rows
    ensures var c := clubs.rows[v.membership.clubId];
      && v.clubName == c.clubName && v.description == c.description && v.category == c.category
      && v.location == c.location && v.membershipFee == c.membershipFee
  {
    var m := memberships.rows[id];
    var c := clubs.rows[m.clubId];
    UserMembershipView(id, m, c.clubName, c.description, c.category, c.location, c.membershipFee)
  }

  /**
   * `getMembershipsByUser`: the projections of exactly the user's memberships whose club
   * exists, in natural order.
   */
  function GetMembershipsByUser(memberships: Table<Membership>, clubs: Table<Club>, email: string)
    : (r: seq<UserMembershipView>)
    requires memberships.Wf()
    ensures var ids := Where(memberships, JoinsForUser(clubs, email));
      |r| == |ids| && forall i :: 0 <= i < |r| ==> r[i] == UserView(memberships, clubs, email, ids[i])
  {
    var ids := Where(memberships, JoinsForUser(clubs, email));
    seq(|ids|, i requires 0 <= i < |ids| => UserView(memberships, clubs, email, ids[i]))
  }

  // ---- getMembershipsByClub ----

  /** A membership of the club's list, with the member's name and photo. */
  datatype ClubMembershipView = ClubMembershipView(
    id: Id, membership: Membership, userName: string, userPhoto: string)

  /** The rows that survive `$match: {clubId}` and the `$unwind` of the member. */
  function JoinsForClub(users: Table<User>, clubId: Id): Membership -> bool
  {
    (m: Membership) => m.clubId == clubId && Users.HasUser(users, m.userEmail)
  }

  /** The projection of one joined row: the membership with its member's name and photo. */
  function ClubView(memberships: Table<Membership>, users: Table<User>, clubId: Id, id: Id)
    : (v: ClubMembershipView)
    requires users.Wf()
    requires id in memberships.rows && JoinsForClub(users, clubId)(memberships.rows[id])
    ensures v.id == id && v.membership == memberships.rows[id] && v.membership.clubId == clubId
    ensures Users.UserWithEmail(users, v.membership.userEmail).Some?
    ensures var u := users.rows[Users.UserWithEmail(users, v.membership.userEmail).value];
      v.userName == u.name && v.userPhoto == u.photoURL
  {
    var m := memberships.rows[id];
    var u := users.rows[Users.UserWithEmail(users, m.userEmail).value];
    ClubMembershipView(id, m, u.name, u.photoURL)
  }

  /**
   * `getMembershipsByClub`: the projections of exactly the club's memberships whose member
   * has a user document, in natural order.
   */
  function GetMembershipsByClub(memberships: Table<Membership>, users: Table<User>, clubId: Id)
    : (r: seq<ClubMembershipView>)
    requires memberships.Wf() && users.Wf()
    ensures var ids := Where(memberships, JoinsForClub(users, clubId));
      |r| == |ids| && forall i :: 0 <= i < |r| ==> r[i] == ClubView(memberships, users, clubId, ids[i])
  {
    var ids := Where(memberships, JoinsForClub(users, clubId));
    seq(|ids|, i requires 0 <= i < |ids| => ClubView(memberships, users, clubId, ids[i]))
  }
}
