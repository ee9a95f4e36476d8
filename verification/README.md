# Bus finder backend, modelled in Dafny

This project models the HTTP backend of a small bus-route search and booking
service (`backend/app.py`). The backend keeps three tables in SQLite:

- users: id, username (declared unique) and a bcrypt password hash;
- routes: id, from city, to city, bus name, departure and arrival times;
- bookings: id, owner's user id, from city, to city, bus name and date.

Every handler is a short read-check-write on these tables. The model treats
the database as an immutable value `Db(users, routes, bookings)`. Each table
is a sequence of rows in id order. Each handler is a pure function from the
database and the request fields to a `Reply`, which holds the response and
the database after the request:

- the response is `Ok(value)` or `Err(e)`;
- `e` is one of `UsernameTaken`, `InvalidCredentials` or `UserNotFound`;
- `App.Detail` gives the exact detail string for each error;
- success messages are the source's literal strings.

Modules:

- `Seqs`: the meaning of a WHERE-filtered SELECT or DELETE. `Filter` returns
  the matching rows, in table order, each with its multiplicity.
  `IsSubsequence` states "in table order".
- `RowIds`: how ids are chosen. An INTEGER PRIMARY KEY without AUTOINCREMENT
  gets one past the largest id in the table, or 1 when the table is empty.
  The contracts use only two facts: the new id is fresh, and it is larger
  than every existing id. Because of the second fact, tables stay in
  ascending id order. SQL promises no order for a SELECT without ORDER BY;
  ascending id order is the order in which SQLite's full table scan returns
  rows, and the model takes it as the result order.
- `Passwords`: the hash/verify pair, described below.
- `Schema`: the row types, the `Valid` invariant and `FindUser`.
  `FindUser` models `SELECT ... WHERE username = ?` followed by `fetch_one`.
- `App`: the startup hook and the seven handlers.
- `Server`: the requests as a state machine. `Step` handles one request and
  `Run` handles a sequence. A process restart runs the startup hook again,
  so startup is one of the requests.
- `Invariant`: every request preserves `Valid`. So every reachable database
  has unique usernames, distinct ascending ids, and bookings owned by
  registered users.
- `Properties` and `Scenarios`: lemmas that relate several calls, and
  concrete facts about the six seeded routes.

Password hashing is a parameter, not a function of the model. A `Hasher` is
any pair `(hash, verify)`. `Passwords.Sound(h)` is the only assumption made
about it: `verify(p, hash(p))` holds for every `p`. Only the lemma that needs
it, `Properties.RegisterThenLogin`, requires it. The stored password field
is always `hash(password)`, never the password itself.

Names follow the code. The route columns are `bus`, `departure` and
`arrival`, and the handlers are `Startup`, `Register`, `Login`, `GetRoutes`,
`SearchBuses`, `AddBooking`, `GetUserBookings` and `DeleteBooking`.

## Model

| member | source | states |
|---|---|---|
| Seqs.Filter | backend/app.py:164-165 | A filtered SELECT returns exactly the rows that satisfy the condition. Each row keeps its multiplicity and the rows stay in table order. |
| RowIds.NextKey | backend/app.py:17 | A new row's id is larger than every id in its table, and is 1 when the table is empty. |
| Schema.FindUser | backend/app.py:112-113 | The username lookup finds nothing exactly when no row has that username. Otherwise it returns a row of the table with that username. |
| Schema.FindUserUnique | backend/app.py:18 | Because usernames are unique, the lookup returns the one row with that username. |
| Schema.SameUsernameSameUser | backend/app.py:18 | Two rows with the same username are the same row. |
| App.Detail | backend/app.py:114-146 | Each error has its own detail string. An unknown user and a wrong password share "Invalid username or password". |
| App.InsertRoutes | backend/app.py:102-104 | Inserting the sample rows one by one appends them in order and keeps the existing rows. The new rows get consecutive ids starting at the table's next id. |
| App.Startup | backend/app.py:88-104 | With an empty routes table, startup adds the six sample routes with ids 1 to 6 and leaves users and bookings alone. With a non-empty routes table it changes nothing. |
| App.Register | backend/app.py:110-119 | A taken username gives UsernameTaken and leaves the database unchanged. Otherwise exactly one user is appended, carrying the username, the hash of the password and an id above every existing id. Routes and bookings do not change. |
| App.Login | backend/app.py:121-129 | Login never changes the database and only ever fails with InvalidCredentials. Success implies a user with that name whose stored hash verifies the password. An unknown username always fails. |
| App.GetRoutes | backend/app.py:131-134 | Listing routes returns the whole routes table in table order and changes nothing. |
| App.SearchBuses | backend/app.py:136-139 | Search returns exactly the routes whose from and to cities both equal the query, in table order with their multiplicities, and changes nothing. |
| App.AddBooking | backend/app.py:141-156 | An unknown username gives UserNotFound and leaves the database unchanged. Otherwise exactly one booking is appended with a fresh larger id, the named user's id and the request's cities, bus and date. Users and routes do not change. |
| App.GetUserBookings | backend/app.py:158-178 | Listing never changes the database. It fails with UserNotFound exactly when the username is unknown. Otherwise it returns the stored bookings carrying that user's id, fields unchanged, with their multiplicities and in table order. |
| App.DeleteBooking | backend/app.py:180-184 | Delete always reports success (for ids in the 64-bit range; see Left out). It removes every booking with the id and keeps all other bookings in order. Users and routes do not change. |
| Server.Step | backend/app.py:88-184 | No request removes or rewrites a user. No request other than startup touches routes, and startup leaves a non-empty routes table alone. |
| Invariant.EmptyValid | backend/app.py:44-45 | The freshly created empty store satisfies the invariant. |
| Invariant.StartupPreservesValid | backend/app.py:92-104 | Seeding keeps the invariant. |
| Invariant.RegisterPreservesValid | backend/app.py:112-118 | Registration keeps usernames unique and user ids ascending. Existing bookings still point at registered users. |
| Invariant.AddBookingPreservesValid | backend/app.py:143-155 | A new booking keeps booking ids ascending and points at a registered user. |
| Invariant.DeleteBookingPreservesValid | backend/app.py:182-183 | Deleting bookings keeps the invariant. |
| Invariant.StepPreservesValid | backend/app.py:88-184 | Every request keeps the invariant. |
| Invariant.RunPreservesValid | backend/app.py:88-184 | Any sequence of requests keeps the invariant. |
| Invariant.UsernamesStayUnique | backend/app.py:18 | Starting from the empty store, usernames stay unique whatever requests arrive. |
| Properties.RegisterTwice | backend/app.py:112-115 | Registering a username again fails with UsernameTaken and stores nothing. |
| Properties.RegisterThenLogin | backend/app.py:116-129 | Given a sound hasher, a newly registered user can log in with the password they registered. |
| Properties.LoginIff | backend/app.py:123-129 | With unique usernames, login succeeds if and only if a user with that name exists and the password verifies against its stored hash. |
| Properties.UserBookingsExact | backend/app.py:160-178 | For a registered user, the listing holds exactly the bookings with that user's id, with their multiplicities. |
| Properties.AddBookingThenList | backend/app.py:143-165 | A booking just added shows up in its owner's booking list; the user the listing resolves is the booking's owner because usernames are unique. |
| Properties.DeleteThenList | backend/app.py:182-183 | After a delete, no booking list shows a booking with the deleted id. |
| Properties.DeleteAbsentUnchanged | backend/app.py:180-184 | Deleting an id that no booking has still reports success and changes nothing. |
| Properties.DeleteIdempotent | backend/app.py:182-184 | Deleting the same id twice has the same effect as deleting it once. |
| Properties.DeleteRemovesOne | backend/app.py:182-183 | With distinct booking ids, deleting an existing id removes exactly one row. |
| Properties.StartupIdempotent | backend/app.py:92-93 | Running the startup hook twice has the same effect as running it once. |
| Scenarios.SeededRoutes | backend/app.py:93-104 | The first startup on an empty routes table yields the six sample routes, in order, with ids 1 to 6. |
| Scenarios.StartupTwiceListsSix | backend/app.py:131-134 | After two startups, listing routes gives the same six sample routes, with no duplicates. |
| Scenarios.SearchSingle | backend/app.py:136-139 | When exactly one row of the routes table, occurring once, matches the query, the search returns just that row. |
| Scenarios.SearchMumbaiPune | backend/app.py:136-139 | On the seed data, Mumbai to Pune finds only the Shivneri Express, 07:00 to 10:00. |
| Scenarios.SearchPuneMumbai | backend/app.py:136-139 | On the seed data, the reverse search, Pune to Mumbai, finds nothing. |

## Left out

- The Streamlit front end (`frontend/streamlit_bus_app.py`) is not part of this model. It is UI widgets, session state and HTTP client calls.
- bcrypt and passlib internals are not modelled: salting, cost factor, and the timing of verify. Hashing is an arbitrary `Hasher` value with one soundness assumption. Because the model's hash is a function, one password always hashes to the same value, whereas bcrypt salts each hash.
- The database connection and its lifecycle are not modelled: the engine, `create_all`, connect and disconnect in the shutdown hook, and `async`/`await`. The SQLite file's persistence across restarts is modelled only as the database value carried from one request to the next.
- Concurrency is not modelled, including the check-then-insert races in `register` and `add_booking`. Every request is atomic and sequential. The database's own unique-constraint failure on a duplicate insert cannot be reached in this sequential model, so it is not modelled.
- HTTP status codes, pydantic validation of request bodies and `orm_mode` are not modelled. A malformed body never reaches a handler. The 400 status is the `Err` constructor, and the detail string is `App.Detail`.
- RowIds.NextKey: the id is modelled as one past the largest id, or 1 for an empty table. SQLite's fallback of a random unused id once the largest id reaches 2^63-1 is not modelled, and integers are unbounded.
- App.DeleteBooking: booking ids are unbounded integers here. In the source, an id outside the signed 64-bit range makes the SQLite driver raise while binding the parameter, so the request ends in a server error instead of "Booking deleted". That case is not modelled, and the contract's "always reports success" holds only for ids within the 64-bit range.
- Passwords.Hasher: `hash` and `verify` are total functions that never fail. passlib's bcrypt handler raises on a password containing a NUL byte or longer than its size limit; on such a password, register and login end in a server error in the source rather than `Ok` or `InvalidCredentials`. That failure is not modelled.
- App.Login: its own contract states success only in one direction. The two-way statement needs unique usernames and is Properties.LoginIff.
