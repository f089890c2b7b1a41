/**
 * The database handle every handler receives: one table per collection. The handlers
 * change these fields in place; `Valid` is the consistency they all preserve.
 */
module Store {
  import opened Tables
  import opened Records

  class Database {
    var users: Table<User>
    var clubs: Table<Club>
    var memberships: Table<Membership>
    var events: Table<Event>
    var registrations: Table<Registration>
    var payments: Table<Payment>

    ghost predicate Valid()
      reads this
    {
      && UsersOk(users) && ClubsOk(clubs) && MembershipsOk(memberships)
      && events.Wf() && RegistrationsOk(registrations) && PaymentsOk(payments)
    }

    /** A fresh, empty database. */
    constructor ()
      ensures Valid()
      ensures users.rows == map[] && clubs.rows == map[] && memberships.rows == map[]
      ensures events.rows == map[] && registrations.rows == map[] && payments.rows == map[]
    {
      users := Table(map[], 0);
      clubs := Table(map[], 0);
      memberships := Table(map[], 0);
      events := Table(map[], 0);
      registrations := Table(map[], 0);
      payments := Table(map[], 0);
    }
  }
}
