/**
 Properties that relate several handler calls: what one request means for
 the next one.
 */
module Properties {
  import opened Seqs
  import opened RowIds
  import opened Schema
  import opened Passwords
  import opened App

  /** Registering a username a second time is refused and stores nothing. */
  lemma RegisterTwice(h: Hasher, db: Db, username: string, password: string, password': string)
    ensures var db' := Register(h, db, username, password).db;
      Register(h, db', username, password') == Reply(Err(UsernameTaken), db')
  {
    var db' := Register(h, db, username, password).db;
    if !HasUsername(db.users, username) {
      assert Last(db'.users) in db'.users;
    }
  }

  /** A freshly registered user can log in with the password they chose. */
  lemma RegisterThenLogin(h: Hasher, db: Db, username: string, password: string)
    requires Sound(h)
    requires !HasUsername(db.users, username)
    ensures Login(h, Register(h, db, username, password).db, username, password).result == Ok(LoginMessage)
  {
    var db' := Register(h, db, username, password).db;
    var u := Last(db'.users);
    PrefixPlusLast(db.users, db'.users);
    var found := FindUser(db'.users, username);
    assert found.value == u by {
      assert found.value in db.users + [u];
    }
  }

  /** With unique usernames, a login succeeds exactly when the user exists
      and the password verifies against the stored hash. */
  lemma LoginIff(h: Hasher, db: Db, username: string, password: string)
    requires UniqueUsernames(db.users)
    ensures Login(h, db, username, password).result.Ok? <==>
      exists u :: u in db.users && u.username == username && h.verify(password, u.hashedPassword)
  {
    if u :| u in db.users && u.username == username && h.verify(password, u.hashedPassword) {
      FindUserUnique(db.users, u);
    }
  }

  /** The bookings listed for a user are exactly the stored bookings that
      carry that user's id. */
  lemma UserBookingsExact(db: Db, u: User)
    requires UniqueUsernames(db.users)
    requires u in db.users
    ensures var r := GetUserBookings(db, u.username).result;
      && r.Ok?
      && (forall b :: b in r.value <==> b in db.bookings && b.userId == u.id)
      && (forall b :: multiset(r.value)[b] == if b.userId == u.id then multiset(db.bookings)[b] else 0)
  {
    FindUserUnique(db.users, u);
  }

  /** A booking just added appears in its owner's booking list. */
  lemma AddBookingThenList(db: Db, req: BookingIn)
    requires UniqueUsernames(db.users)
    requires HasUsername(db.users, req.username)
    ensures var db' := AddBooking(db, req).db;
      var r := GetUserBookings(db', req.username).result;
      r.Ok? && Last(db'.bookings) in r.value
  {
    var db' := AddBooking(db, req).db;
    var b := Last(db'.bookings);
    var owner :| owner in db.users && owner.username == req.username && owner.id == b.userId;
    var u := FindUser(db'.users, req.username).value;
    SameUsernameSameUser(db.users, u, owner);
    assert b in db'.bookings;
  }

  /** After a booking id is deleted, no user's list shows a booking with it. */
  lemma DeleteThenList(db: Db, bookingId: int, username: string)
    ensures var r := GetUserBookings(DeleteBooking(db, bookingId).db, username).result;
      r.Ok? ==> forall b :: b in r.value ==> b.id != bookingId
  {
    var db' := DeleteBooking(db, bookingId).db;
    var r := GetUserBookings(db', username).result;
    if r.Ok? {
      SubsequenceMembers(r.value, db'.bookings);
    }
  }

  /** Deleting an id no booking carries changes nothing (and still reports
      success). */
  lemma DeleteAbsentUnchanged(db: Db, bookingId: int)
    requires forall b :: b in db.bookings ==> b.id != bookingId
    ensures DeleteBooking(db, bookingId) == Reply(Ok(BookingDeletedMessage), db)
  {
    FilterKeepsAll((b: Booking) => b.id != bookingId, db.bookings);
  }

  /** Deleting the same id twice has the effect of deleting it once. */
  lemma DeleteIdempotent(db: Db, bookingId: int)
    ensures var db' := DeleteBooking(db, bookingId).db;
      DeleteBooking(db', bookingId).db == db'
  {
    DeleteAbsentUnchanged(DeleteBooking(db, bookingId).db, bookingId);
  }

  /** In a valid database, deleting an existing booking id removes exactly
      one row. */
  lemma DeleteRemovesOne(db: Db, bookingId: int)
    requires KeysIncreasing(db.bookings, BookingId)
    requires exists b :: b in db.bookings && b.id == bookingId
    ensures |DeleteBooking(db, bookingId).db.bookings| == |db.bookings| - 1
  {
    var b :| b in db.bookings && b.id == bookingId;
    var i :| 0 <= i < |db.bookings| && db.bookings[i] == b;
    forall j | 0 <= j < |db.bookings| && j != i
      ensures db.bookings[j].id != bookingId
    {
      IncreasingKeysDistinct(db.bookings, BookingId, i, j);
    }
    FilterDropsOne((x: Booking) => x.id != bookingId, db.bookings, i);
  }

  /** Running the startup hook a second time changes nothing. */
  lemma StartupIdempotent(db: Db)
    ensures Startup(Startup(db)) == Startup(db)
  {
  }
}
