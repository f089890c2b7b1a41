/**
 * Model of middleware/auth.js: the four guards that identify the caller by email and admit
 * or refuse the request according to the caller's role.
 */
module Auth {
  import opened Tables
  import opened Records
  import Users

  /** The three places a request may carry the caller's email. */
  datatype EmailSources = EmailSources(query: Option<string>, body: Option<string>, headers: Option<string>)

  /** `req.query.email || req.body.email || req.headers.email`: the first truthy one. */
  function RequestEmail(src: EmailSources): (email: Option<string>)
    ensures email.Some? <==> Truthy(src.query) || Truthy(src.body) || Truthy(src.headers)
    ensures Truthy(src.query) ==> email == src.query
    ensures !Truthy(src.query) && Truthy(src.body) ==> email == src.body
    ensures !Truthy(src.query) && !Truthy(src.body) && Truthy(src.headers) ==> email == src.headers
  {
    if Truthy(src.query) then src.query
    else if Truthy(src.body) then src.body
    else if Truthy(src.headers) then src.headers
    else None
  }

  /** A guard either admits the request, attaching the caller's user document, or refuses it. */
  datatype Verdict = Admitted(user: User) | Denied(code: int, error: string)

  /** The user document `findOne({email})` returns for the request's email, if any. */
  function Caller(users: Table<User>, email: string): (u: Option<User>)
    requires users.Wf()
    ensures u.Some? <==> Users.HasUser(users, email)
    ensures u.Some? ==> u.value.email == email && u.value in users.rows.Values
  {
    match Users.UserWithEmail(users, email)
    case None => None
    case Some(id) => Some(users.rows[id])
  }

  /** What a guard demands of the caller's role. */
  datatype Requirement = AnyRole | AdminOnly | ManagerOrAdmin | ValidRole

  /** The role test each guard applies to the user it found. */
  predicate Meets(role: string, req: Requirement)
  {
    match req
    case AnyRole => true
    case AdminOnly => role == "admin"
    case ManagerOrAdmin => role == "clubManager" || role == "admin"
    case ValidRole => role == "member" || role == "clubManager" || role == "admin"
  }

  /** The common shape of the four guards: 401 without an email, then the user and its role decide. */
  function Guard(users: Table<User>, src: EmailSources, req: Requirement, refusal: Verdict): Verdict
    requires users.Wf()
  {
    var email := RequestEmail(src);
    if email.None? then Denied(401, "User email not provided")
    else
      var u := Caller(users, email.value);
      if u.Some? && Meets(u.value.role, req) then Admitted(u.value) else refusal
  }

  /** `verifyRole`: any known caller is admitted; an unknown one is refused with 401. */
  function VerifyRole(users: Table<User>, src: EmailSources): (v: Verdict)
    requires users.Wf()
    ensures RequestEmail(src).None? ==> v == Denied(401, "User email not provided")
    ensures RequestEmail(src).Some? && !Users.HasUser(users, RequestEmail(src).value) ==>
      v == Denied(401, "User not found")
    ensures v.Admitted? <==> RequestEmail(src).Some? && Users.HasUser(users, RequestEmail(src).value)
    ensures v.Admitted? ==> v.user == Caller(users, RequestEmail(src).value).value
  {
    Guard(users, src, AnyRole, Denied(401, "User not found"))
  }

  /** `verifyAdmin`: only an admin is admitted; anyone else with an email gets 403. */
  function VerifyAdmin(users: Table<User>, src: EmailSources): (v: Verdict)
    requires users.Wf()
    ensures RequestEmail(src).None? ==> v == Denied(401, "User email not provided")
    ensures v.Admitted? <==> RequestEmail(src).Some? && Caller(users, RequestEmail(src).value).Some?
                             && Meets(Caller(users, RequestEmail(src).value).value.role, AdminOnly)
    ensures v.Admitted? ==> v.user == Caller(users, RequestEmail(src).value).value
    ensures v.Denied? && RequestEmail(src).Some? ==> v == Denied(403, "Access denied. Admin required.")
  {
    Guard(users, src, AdminOnly, Denied(403, "Access denied. Admin required."))
  }

  /** `verifyClubManager`: a club manager or an admin is admitted; anyone else with an email gets 403. */
  function VerifyClubManager(users: Table<User>, src: EmailSources): (v: Verdict)
    requires users.Wf()
    ensures RequestEmail(src).None? ==> v == Denied(401, "User email not provided")
    ensures v.Admitted? <==> RequestEmail(src).Some? && Caller(users, RequestEmail(src).value).Some?
                             && Meets(Caller(users, RequestEmail(src).value).value.role, ManagerOrAdmin)
    ensures v.Admitted? ==> v.user == Caller(users, RequestEmail(src).value).value
    ensures v.Denied? && RequestEmail(src).Some? ==>
      v == Denied(403, "Access denied. Club Manager or Admin required.")
  {
    Guard(users, src, ManagerOrAdmin, Denied(403, "Access denied. Club Manager or Admin required."))
  }

  /** `verifyMember`: a caller with any of the three roles is admitted; anyone else with an email gets 403. */
  function VerifyMember(users: Table<User>, src: EmailSources): (v: Verdict)
    requires users.Wf()
    ensures RequestEmail(src).None? ==> v == Denied(401, "User email not provided")
    ensures v.Admitted? <==> RequestEmail(src).Some? && Caller(users, RequestEmail(src).value).Some?
                             && Meets(Caller(users, RequestEmail(src).value).value.role, ValidRole)
    ensures v.Admitted? ==> v.user == Caller(users, RequestEmail(src).value).value
    ensures v.Denied? && RequestEmail(src).Some? ==> v == Denied(403, "Access denied. Valid user required.")
  {
    Guard(users, src, ValidRole, Denied(403, "Access denied. Valid user required."))
  }

  /** The role hierarchy as a rank: admin above club manager above member, anything else below. */
  function Rank(role: string): nat
  {
    if role == "admin" then 3 else if role == "clubManager" then 2 else if role == "member" then 1 else 0
  }

  lemma RankOfRoles(role: string)
    ensures Meets(role, ValidRole) <==> Rank(role) >= 1
    ensures Meets(role, ManagerOrAdmin) <==> Rank(role) >= 2
    ensures Meets(role, AdminOnly) <==> Rank(role) >= 3
  {
  }

  /** The member guard's role test accepts exactly the three roles a user may hold. */
  lemma ValidRoleIsRoles(role: string)
    ensures Meets(role, ValidRole) <==> role in Roles
  {
  }

  /** Each role guard admits exactly the known callers whose rank reaches its threshold. */
  lemma GuardsAreRankThresholds(users: Table<User>, src: EmailSources)
    requires users.Wf()
    ensures VerifyAdmin(users, src).Admitted? <==>
      VerifyRole(users, src).Admitted? && Rank(VerifyRole(users, src).user.role) >= 3
    ensures VerifyClubManager(users, src).Admitted? <==>
      VerifyRole(users, src).Admitted? && Rank(VerifyRole(users, src).user.role) >= 2
    ensures VerifyMember(users, src).Admitted? <==>
      VerifyRole(users, src).Admitted? && Rank(VerifyRole(users, src).user.role) >= 1
  {
    var email := RequestEmail(src);
    if email.Some? {
      var u := Caller(users, email.value);
      if u.Some? {
        RankOfRoles(u.value.role);
      }
    }
  }

  /** Admission by a stricter guard implies admission by every looser one, with the same user. */
  lemma GuardHierarchy(users: Table<User>, src: EmailSources)
    requires users.Wf()
    ensures VerifyAdmin(users, src).Admitted? ==> VerifyClubManager(users, src) == VerifyAdmin(users, src)
    ensures VerifyClubManager(users, src).Admitted? ==> VerifyMember(users, src) == VerifyClubManager(users, src)
    ensures VerifyMember(users, src).Admitted? ==> VerifyRole(users, src) == VerifyMember(users, src)
  {
    GuardsAreRankThresholds(users, src);
  }

  /**
   * When every stored role is one of the three, `verifyMember` admits exactly whom
   * `verifyRole` admits; the two differ only in refusing an unknown caller with 403 instead of 401.
   */
  lemma MemberGuardIsRoleGuard(users: Table<User>, src: EmailSources)
    requires UsersOk(users)
    ensures VerifyMember(users, src).Admitted? <==> VerifyRole(users, src).Admitted?
    ensures VerifyMember(users, src).Admitted? ==> VerifyMember(users, src) == VerifyRole(users, src)
  {
    var email := RequestEmail(src);
    if email.Some? {
      var u := Caller(users, email.value);
      if u.Some? {
        var id := Users.UserWithEmail(users, email.value).value;
        ValidRoleIsRoles(users.rows[id].role);
      }
    }
  }
}
