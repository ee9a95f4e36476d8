/**
 Concrete behaviour against the seed data: the six sample routes an empty
 routes table receives at startup, and the searches a user would make.
 */
module Scenarios {
  import opened Schema
  import opened Seqs
  import opened App

  const Shivneri := Route(1, "Mumbai", "Pune", "Shivneri Express", "07:00", "10:00")

  const SeededTable := [
    Shivneri,
    Route(2, "Delhi", "Agra", "Rajdhani Express", "09:00", "12:00"),
    Route(3, "Bangalore", "Mysore", "Kaveri Deluxe", "06:30", "09:30"),
    Route(4, "Chennai", "Tirupati", "Godavari Express", "08:00", "11:00"),
    Route(5, "Hyderabad", "Vijayawada", "Deccan Queen", "13:00", "17:00"),
    Route(6, "Kolkata", "Durgapur", "Eastern Star", "10:00", "13:00")
  ]

  /** The routes table right after the first startup. */
  lemma SeededRoutes(db: Db)
    requires db.routes == []
    ensures Startup(db).routes == SeededTable
  {
    var r := Startup(db).routes;
    assert |r| == 6;
    assert r[0] == MakeRoute(1, SampleRoutes[0]);
    assert r[1] == MakeRoute(2, SampleRoutes[1]);
    assert r[2] == MakeRoute(3, SampleRoutes[2]);
    assert r[3] == MakeRoute(4, SampleRoutes[3]);
    assert r[4] == MakeRoute(5, SampleRoutes[4]);
    assert r[5] == MakeRoute(6, SampleRoutes[5]);
  }

  /** Listing routes after one or two startups on an empty routes table
      gives the six sample routes, not twelve. */
  lemma StartupTwiceListsSix(db: Db)
    requires db.routes == []
    ensures GetRoutes(Startup(Startup(db))).result == Ok(SeededTable)
  {
    SeededRoutes(db);
  }

  /** Mumbai to Pune finds only the Shivneri Express, 07:00 to 10:00. */
  lemma SearchMumbaiPune(db: Db)
    requires db.routes == []
    ensures SearchBuses(Startup(db), "Mumbai", "Pune").result == Ok([Shivneri])
  {
    SeededRoutes(db);
    SearchSeededMumbaiPune(Startup(db));
  }

  lemma SearchSeededMumbaiPune(db: Db)
    requires db.routes == SeededTable
    ensures SearchBuses(db, "Mumbai", "Pune").result == Ok([Shivneri])
  {
    OnlyShivneriConnects();
    SearchSingle(db, "Mumbai", "Pune", Shivneri);
  }

  lemma OnlyShivneriConnects()
    ensures multiset(SeededTable)[Shivneri] == 1
    ensures forall x :: x in SeededTable && Connects(x, "Mumbai", "Pune") ==> x == Shivneri
  {
  }

  /** A search that exactly one row of the table satisfies returns that row. */
  lemma SearchSingle(db: Db, fromCity: string, toCity: string, c: Route)
    requires multiset(db.routes)[c] == 1 && Connects(c, fromCity, toCity)
    requires forall x :: x in db.routes && Connects(x, fromCity, toCity) ==> x == c
    ensures SearchBuses(db, fromCity, toCity).result == Ok([c])
  {
    var r := SearchBuses(db, fromCity, toCity).result.value;
    AllEqualCount(r, c);
    assert |r| == 1;
    assert r[0] in r;
    assert r == [c];
  }

  /** The reverse direction, Pune to Mumbai, finds nothing. */
  lemma SearchPuneMumbai(db: Db)
    requires db.routes == []
    ensures SearchBuses(Startup(db), "Pune", "Mumbai").result == Ok([])
  {
    SeededRoutes(db);
    SearchSeededPuneMumbai(Startup(db));
  }

  lemma SearchSeededPuneMumbai(db: Db)
    requires db.routes == SeededTable
    ensures SearchBuses(db, "Pune", "Mumbai").result == Ok([])
  {
  }
}
