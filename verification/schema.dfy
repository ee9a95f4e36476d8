/**
 The three tables of the booking service and the integrity rules they keep.
 A table is a sequence of rows in id order; the database is the three
 tables together.
 */
module Schema {
  import opened RowIds

  /** A registered account. The password is kept only as its hash. */
  datatype User = User(id: int, username: string, hashedPassword: string)

  /** A scheduled bus service between two cities. */
  datatype Route = Route(
    id: int, fromCity: string, toCity: string, bus: string, departure: string, arrival: string)

  /** A user's reservation: the owner's id plus the route fields and a date,
      all copied from the request as given. */
  datatype Booking = Booking(
    id: int, userId: int, fromCity: string, toCity: string, bus: string, date: string)

  datatype Db = Db(users: seq<User>, routes: seq<Route>, bookings: seq<Booking>)

  datatype Option<T> = None | Some(value: T)

  /** The three failures a handler reports (all as HTTP 400 with a detail string). */
  datatype Error = UsernameTaken | InvalidCredentials | UserNotFound

  datatype Result<T> = Ok(value: T) | Err(error: Error)

  /** The primary key of each table, as a function value for RowIds. */
  function UserId(u: User): int { u.id }
  function RouteId(r: Route): int { r.id }
  function BookingId(b: Booking): int { b.id }

  /** The column constraint `unique=True` on users.username. */
  ghost predicate UniqueUsernames(users: seq<User>)
  {
    forall i, j :: 0 <= i < j < |users| ==> users[i].username != users[j].username
  }

  predicate HasUsername(users: seq<User>, username: string)
  {
    exists u :: u in users && u.username == username
  }

  ghost predicate HasUserId(users: seq<User>, id: int)
  {
    exists u :: u in users && u.id == id
  }

  /** What every reachable database satisfies: ascending ids in each
      table, unique usernames, and every booking owned by a registered user. */
  ghost predicate Valid(db: Db)
  {
    && KeysIncreasing(db.users, UserId)
    && KeysIncreasing(db.routes, RouteId)
    && KeysIncreasing(db.bookings, BookingId)
    && UniqueUsernames(db.users)
    && forall b :: b in db.bookings ==> HasUserId(db.users, b.userId)
  }

  /** `SELECT * FROM users WHERE username = ?` followed by fetch_one: the
      first row with that username, if any. */
  function FindUser(users: seq<User>, username: string): (r: Option<User>)
    ensures r.None? <==> !HasUsername(users, username)
    ensures r.Some? ==> r.value in users && r.value.username == username
    decreases |users|
  {
    if |users| == 0 then None
    else if users[0].username == username then Some(users[0])
    else
      assert users == [users[0]] + users[1..];
      FindUser(users[1..], username)
  }

  /** When usernames are unique, the row fetch_one returns is the one row
      carrying that username. */
  lemma FindUserUnique(users: seq<User>, u: User)
    requires UniqueUsernames(users)
    requires u in users
    ensures FindUser(users, u.username) == Some(u)
  {
    var r := FindUser(users, u.username);
    var i :| 0 <= i < |users| && users[i] == u;
    var j :| 0 <= j < |users| && users[j] == r.value;
    assert i == j;
  }

  /** Two rows with the same username are the same row. */
  lemma SameUsernameSameUser(users: seq<User>, u: User, v: User)
    requires UniqueUsernames(users)
    requires u in users && v in users && u.username == v.username
    ensures u == v
  {
    FindUserUnique(users, u);
    FindUserUnique(users, v);
  }
}
