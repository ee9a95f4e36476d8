/**
 The service as a state machine: a request is one of the HTTP endpoints
 (or a process start, which runs the startup hook again), and a run is
 any sequence of requests handled one after another.
 */
module Server {
  import opened Schema
  import opened Passwords
  import App

  datatype Request =
    | Startup
    | Register(username: string, password: string)
    | Login(username: string, password: string)
    | GetRoutes
    | Search(fromCity: string, toCity: string)
    | AddBooking(booking: App.BookingIn)
    | GetBookings(username: string)
    | DeleteBooking(bookingId: int)

  /** The database after handling one request. Users are never removed or
      rewritten, and once routes exist they are never changed. */
  function Step(h: Hasher, db: Db, req: Request): (r: Db)
    ensures |r.users| >= |db.users| && r.users[..|db.users|] == db.users
    ensures |db.routes| > 0 ==> r.routes == db.routes
    ensures !req.Startup? ==> r.routes == db.routes
  {
    match req
    case Startup => App.Startup(db)
    case Register(u, p) => App.Register(h, db, u, p).db
    case Login(u, p) => App.Login(h, db, u, p).db
    case GetRoutes => App.GetRoutes(db).db
    case Search(f, t) => App.SearchBuses(db, f, t).db
    case AddBooking(b) => App.AddBooking(db, b).db
    case GetBookings(u) => App.GetUserBookings(db, u).db
    case DeleteBooking(id) => App.DeleteBooking(db, id).db
  }

  /** The database after handling `reqs` in order. */
  function Run(h: Hasher, db: Db, reqs: seq<Request>): Db
    decreases |reqs|
  {
    if |reqs| == 0 then db else Run(h, Step(h, db, reqs[0]), reqs[1..])
  }

  const EmptyDb := Db([], [], [])
}
