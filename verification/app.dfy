/**
 The request handlers of the booking service. Each handler takes the
 database and the request's fields and returns a Reply: the response
 (a value or one of the three errors) together with the database after
 the request. A request is handled atomically.
 */
module App {
  import opened Seqs
  import opened RowIds
  import opened Schema
  import opened Passwords

  datatype Reply<T> = Reply(result: Result<T>, db: Db)

  /** The body of a POST /bookings request. */
  datatype BookingIn = BookingIn(
    username: string, fromCity: string, toCity: string, bus: string, date: string)

  /** A route row before the store has given it an id. */
  datatype NewRoute = NewRoute(
    fromCity: string, toCity: string, bus: string, departure: string, arrival: string)

  const RegisteredMessage := "User registered successfully"
  const LoginMessage := "Login successful"
  const BookingAddedMessage := "Booking added"
  const BookingDeletedMessage := "Booking deleted"

  /** The detail string sent with each error. An unknown user and a wrong
      password share one message. */
  function Detail(e: Error): (d: string)
    ensures d == "Username already taken" <==> e == UsernameTaken
    ensures d == "Invalid username or password" <==> e == InvalidCredentials
    ensures d == "User not found" <==> e == UserNotFound
  {
    match e
    case UsernameTaken => "Username already taken"
    case InvalidCredentials => "Invalid username or password"
    case UserNotFound => "User not found"
  }

  function Last<T>(s: seq<T>): T
    requires |s| > 0
  {
    s[|s| - 1]
  }

  /** The row the store writes for `row` under the given id. */
  function MakeRoute(id: int, row: NewRoute): Route
  {
    Route(id, row.fromCity, row.toCity, row.bus, row.departure, row.arrival)
  }

  /** The six routes seeded into an empty routes table. */
  const SampleRoutes: seq<NewRoute> := [
    NewRoute("Mumbai", "Pune", "Shivneri Express", "07:00", "10:00"),
    NewRoute("Delhi", "Agra", "Rajdhani Express", "09:00", "12:00"),
    NewRoute("Bangalore", "Mysore", "Kaveri Deluxe", "06:30", "09:30"),
    NewRoute("Chennai", "Tirupati", "Godavari Express", "08:00", "11:00"),
    NewRoute("Hyderabad", "Vijayawada", "Deccan Queen", "13:00", "17:00"),
    NewRoute("Kolkata", "Durgapur", "Eastern Star", "10:00", "13:00")
  ]

  /** Inserting `rows` one at a time: each becomes a new route row after
      the existing rows, under the next free id. */
  function InsertRoutes(routes: seq<Route>, rows: seq<NewRoute>): (r: seq<Route>)
    ensures |r| == |routes| + |rows|
    ensures r[..|routes|] == routes
    ensures forall k :: 0 <= k < |rows| ==> r[|routes| + k] == MakeRoute(NextKey(routes, RouteId) + k, rows[k])
    decreases |rows|
  {
    if |rows| == 0 then routes
    else
      var route := MakeRoute(NextKey(routes, RouteId), rows[0]);
      NextKeyAfterAppend(routes, RouteId, route);
      var rest := rows[1..];
      var r := InsertRoutes(routes + [route], rest);
      assert r[..|routes| + 1] == routes + [route];
      assert r[..|routes|] == (routes + [route])[..|routes|];
      assert r[|routes|] == route;
      assert forall k :: 1 <= k < |rows| ==>
        rows[k] == rest[k - 1] && r[|routes| + k] == r[|routes + [route]| + (k - 1)];
      r
  }

  /** The startup hook: seed the sample routes when the routes table is
      empty; otherwise change nothing. */
  function Startup(db: Db): (r: Db)
    ensures |db.routes| > 0 ==> r == db
    ensures |db.routes| == 0 ==>
      && r.users == db.users && r.bookings == db.bookings
      && |r.routes| == |SampleRoutes|
      && forall k :: 0 <= k < |SampleRoutes| ==>
           r.routes[k] == MakeRoute(k + 1, SampleRoutes[k])
  {
    if |db.routes| > 0 then db
    else db.(routes := InsertRoutes(db.routes, SampleRoutes))
  }

  /** POST /register. */
  function Register(h: Hasher, db: Db, username: string, password: string): (r: Reply<string>)
    ensures HasUsername(db.users, username) ==> r == Reply(Err(UsernameTaken), db)
    ensures !HasUsername(db.users, username) ==>
      && r.result == Ok(RegisteredMessage)
      && r.db.routes == db.routes && r.db.bookings == db.bookings
      && |r.db.users| == |db.users| + 1 && r.db.users[..|db.users|] == db.users
      && Last(r.db.users).username == username
      && Last(r.db.users).hashedPassword == h.hash(password)
      && forall u :: u in db.users ==> u.id < Last(r.db.users).id
  {
    if FindUser(db.users, username).Some? then Reply(Err(UsernameTaken), db)
    else
      var user := User(NextKey(db.users, UserId), username, h.hash(password));
      assert (db.users + [user])[..|db.users|] == db.users;
      Reply(Ok(RegisteredMessage), db.(users := db.users + [user]))
  }

  /** POST /login. Only checks the credentials; nothing is stored. */
  function Login(h: Hasher, db: Db, username: string, password: string): (r: Reply<string>)
    ensures r.db == db
    ensures r.result.Ok? ==> r.result.value == LoginMessage
    ensures r.result.Err? ==> r.result.error == InvalidCredentials
    ensures r.result.Ok? ==>
      exists u :: u in db.users && u.username == username && h.verify(password, u.hashedPassword)
    ensures !HasUsername(db.users, username) ==> r.result.Err?
  {
    match FindUser(db.users, username)
    case None => Reply(Err(InvalidCredentials), db)
    case Some(u) =>
      if !h.verify(password, u.hashedPassword) then Reply(Err(InvalidCredentials), db)
      else Reply(Ok(LoginMessage), db)
  }

  /** GET /routes: the whole routes table. */
  function GetRoutes(db: Db): (r: Reply<seq<Route>>)
    ensures r.db == db
    ensures r.result == Ok(db.routes)
  {
    Reply(Ok(db.routes), db)
  }

  /** The search condition: both cities equal, as exact strings. */
  predicate Connects(x: Route, fromCity: string, toCity: string)
  {
    x.fromCity == fromCity && x.toCity == toCity
  }

  /** GET /search: the routes from `fromCity` to `toCity`, in table order. */
  function SearchBuses(db: Db, fromCity: string, toCity: string): (r: Reply<seq<Route>>)
    ensures r.db == db
    ensures r.result.Ok?
    ensures forall x :: x in r.result.value <==> x in db.routes && Connects(x, fromCity, toCity)
    ensures forall x :: multiset(r.result.value)[x] == if Connects(x, fromCity, toCity) then multiset(db.routes)[x] else 0
    ensures IsSubsequence(r.result.value, db.routes)
  {
    Reply(Ok(Filter((x: Route) => Connects(x, fromCity, toCity), db.routes)), db)
  }

  /** POST /bookings: resolve the username, then store the booking under
      that user's id with the next free booking id. */
  function AddBooking(db: Db, req: BookingIn): (r: Reply<string>)
    ensures !HasUsername(db.users, req.username) ==> r == Reply(Err(UserNotFound), db)
    ensures HasUsername(db.users, req.username) ==>
      && r.result == Ok(BookingAddedMessage)
      && r.db.users == db.users && r.db.routes == db.routes
      && |r.db.bookings| == |db.bookings| + 1 && r.db.bookings[..|db.bookings|] == db.bookings
      && var b := Last(r.db.bookings);
         && (forall x :: x in db.bookings ==> x.id < b.id)
         && (exists u :: u in db.users && u.username == req.username && u.id == b.userId)
         && b.fromCity == req.fromCity && b.toCity == req.toCity
         && b.bus == req.bus && b.date == req.date
  {
    match FindUser(db.users, req.username)
    case None => Reply(Err(UserNotFound), db)
    case Some(u) =>
      var b := Booking(NextKey(db.bookings, BookingId), u.id, req.fromCity, req.toCity, req.bus, req.date);
      assert (db.bookings + [b])[..|db.bookings|] == db.bookings;
      Reply(Ok(BookingAddedMessage), db.(bookings := db.bookings + [b]))
  }

  /** GET /bookings/{username}: the bookings of the user with that name, in
      table order, every field copied as stored. */
  function GetUserBookings(db: Db, username: string): (r: Reply<seq<Booking>>)
    ensures r.db == db
    ensures r.result.Err? <==> !HasUsername(db.users, username)
    ensures r.result.Err? ==> r.result.error == UserNotFound
    ensures r.result.Ok? ==>
      && (exists u :: u in db.users && u.username == username
            && (forall b :: b in r.result.value <==> b in db.bookings && b.userId == u.id)
            && (forall b :: multiset(r.result.value)[b] == if b.userId == u.id then multiset(db.bookings)[b] else 0))
      && IsSubsequence(r.result.value, db.bookings)
  {
    match FindUser(db.users, username)
    case None => Reply(Err(UserNotFound), db)
    case Some(u) => Reply(Ok(Filter((b: Booking) => b.userId == u.id, db.bookings)), db)
  }

  /** DELETE /bookings/{booking_id}: drop every booking with that id. It
      reports success whether or not such a booking existed. */
  function DeleteBooking(db: Db, bookingId: int): (r: Reply<string>)
    ensures r.result == Ok(BookingDeletedMessage)
    ensures r.db.users == db.users && r.db.routes == db.routes
    ensures forall b :: b in r.db.bookings <==> b in db.bookings && b.id != bookingId
    ensures forall b :: multiset(r.db.bookings)[b] == if b.id != bookingId then multiset(db.bookings)[b] else 0
    ensures IsSubsequence(r.db.bookings, db.bookings)
  {
    Reply(Ok(BookingDeletedMessage), db.(bookings := Filter((b: Booking) => b.id != bookingId, db.bookings)))
  }
}
