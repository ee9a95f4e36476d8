/**
 The database invariant: every handler preserves `Valid`, so every
 database reachable from an empty store is valid. In particular usernames
 stay unique, ids stay distinct, and every booking names a registered user.
 */
module Invariant {
  import opened Seqs
  import opened RowIds
  import opened Schema
  import opened Passwords
  import App
  import opened Server

  /** The store created by the schema at first start. */
  lemma EmptyValid()
    ensures Valid(EmptyDb)
  {
  }

  lemma StartupPreservesValid(db: Db)
    requires Valid(db)
    ensures Valid(App.Startup(db))
  {
    var r := App.Startup(db);
    if |db.routes| == 0 {
      forall i, j | 0 <= i < j < |r.routes|
        ensures RouteId(r.routes[i]) < RouteId(r.routes[j])
      {
        assert r.routes[i].id == i + 1 && r.routes[j].id == j + 1;
      }
    }
  }

  lemma RegisterPreservesValid(h: Hasher, db: Db, username: string, password: string)
    requires Valid(db)
    ensures Valid(App.Register(h, db, username, password).db)
  {
    var r := App.Register(h, db, username, password);
    if !HasUsername(db.users, username) {
      var u := App.Last(r.db.users);
      PrefixPlusLast(db.users, r.db.users);
      AppendGreaterKey(db.users, UserId, u);
      forall i, j | 0 <= i < j < |r.db.users|
        ensures r.db.users[i].username != r.db.users[j].username
      {
        if j == |db.users| {
          assert r.db.users[i] in db.users;
        } else {
          assert r.db.users[i] == db.users[i] && r.db.users[j] == db.users[j];
        }
      }
      forall b | b in r.db.bookings
        ensures HasUserId(r.db.users, b.userId)
      {
        var v :| v in db.users && v.id == b.userId;
        assert v in r.db.users;
      }
    }
  }

  lemma AddBookingPreservesValid(db: Db, req: App.BookingIn)
    requires Valid(db)
    ensures Valid(App.AddBooking(db, req).db)
  {
    var r := App.AddBooking(db, req);
    if HasUsername(db.users, req.username) {
      var b := App.Last(r.db.bookings);
      PrefixPlusLast(db.bookings, r.db.bookings);
      AppendGreaterKey(db.bookings, BookingId, b);
      assert HasUserId(r.db.users, b.userId);
    }
  }

  lemma DeleteBookingPreservesValid(db: Db, bookingId: int)
    requires Valid(db)
    ensures Valid(App.DeleteBooking(db, bookingId).db)
  {
    var r := App.DeleteBooking(db, bookingId);
    SubsequenceKeepsIncreasing(r.db.bookings, db.bookings, BookingId);
  }

  /** Every request keeps the database valid. */
  lemma StepPreservesValid(h: Hasher, db: Db, req: Request)
    requires Valid(db)
    ensures Valid(Step(h, db, req))
  {
    match req
    case Startup => StartupPreservesValid(db);
    case Register(u, p) => RegisterPreservesValid(h, db, u, p);
    case AddBooking(b) => AddBookingPreservesValid(db, b);
    case DeleteBooking(id) => DeleteBookingPreservesValid(db, id);
    case _ =>
  }

  lemma {:induction false} RunPreservesValid(h: Hasher, db: Db, reqs: seq<Request>)
    requires Valid(db)
    ensures Valid(Run(h, db, reqs))
    decreases |reqs|
  {
    if |reqs| > 0 {
      StepPreservesValid(h, db, reqs[0]);
      RunPreservesValid(h, Step(h, db, reqs[0]), reqs[1..]);
    }
  }

  /** Whatever requests arrive, no two users ever share a username. */
  lemma UsernamesStayUnique(h: Hasher, reqs: seq<Request>)
    ensures UniqueUsernames(Run(h, EmptyDb, reqs).users)
  {
    EmptyValid();
    RunPreservesValid(h, EmptyDb, reqs);
  }
}
