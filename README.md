# Bus reservation ledger

A model of the seat bookkeeping at the heart of a small bus reservation
system. The system keeps three tables, `users`, `buses` and `bookings`, and
offers the same operations through three front ends: a Flask web app
(`app.py`), a Tk desktop app (`gui_app.py`) and a terminal program over its
own sqlite database (`main.py`). CSV helpers (`utils.py`) import buses in
bulk and export bookings. The tables and their defaults and constraints come
from `models.py`.

The model is one `Reservations.Ledger` class. It holds the users and buses as
maps from id to row and the bookings as a sequence in insertion order. Id
counters stand for the AUTOINCREMENT keys. The class offers the table steps
every front end is built from: insert a user, insert buses, revise a bus,
delete a bus (ORM style or raw SQL style) and reserve seats. Each front-end
handler is a method on a `Ledger`, in module `Web`, `Desktop` or `Terminal`.
The CSV helpers are in `CsvIo`. Python's `int()` and `str()` on text are in
`Numerals`.

The central invariant is the seat balance of every bus: available seats equal
the total less the seats booked on it, and `0 <= available <= total`
(`Ledger.AllBalanced`). Every operation states whether it keeps it. The web
and desktop bookings always do. The terminal booking does not (see
Findings). A `Ledger.Valid` invariant keeps usernames unique, keys below their
counters and booking ids increasing.

Two facts about the code shape the model:
- No delete cascade is declared on `Bus.bookings` (models.py:30). So deleting
  a bus through the ORM keeps its bookings and nulls their bus reference,
  and the raw SQL delete in `main.py` keeps them with the stale id.
- The terminal program uses its own database with no phone, timestamp,
  departure or extra columns, and it stores passwords as typed.

## Model

| member | source | states |
|---|---|---|
| Models.BusRow | models.py:20-29 | name and route are required (a missing one fails the insert); total, available and fare default to 40, 40 and 0 when no value is given; given values, and the nullable departure and extra as given, are stored |
| Numerals.ShowInt | utils.py:20 | str() of an int: a leading minus exactly for negatives, then decimal digits |
| Numerals.ShowNatValue | utils.py:20 | the digits str() writes for a natural number have exactly that value |
| Numerals.ParseShowRoundTrip | utils.py:20 | int(str(n)) == n for every integer (Python's digit limit aside), so exported ids and seat counts read back exactly |
| Reservations.BookedSeatsAppend | app.py:197-200 | appending a booking adds its seats to its own bus's booked count and nothing to any other bus |
| Reservations.BookedSeatsOfUnusedId | main.py:24-44 | a bus id at or above every id the bookings reference has no seats booked on it, so a fresh bus starts with none |
| Reservations.Detach | models.py:30-43 | the ORM delete of a bus keeps every booking, in order, and clears only the references to that bus |
| Reservations.DetachBookedSeats | models.py:30-43 | after detaching, the deleted bus has no booked seats and every other bus's booked count is unchanged |
| Reservations.RecomputedAvailable | app.py:126 | max(0, total - booked) is never negative, equals the free capacity when the bus is not oversold, is 0 when it is, and never exceeds a non-negative total |
| Reservations.WithBusesContents | utils.py:43-45 | adding buses under ids above every key adds one entry per bus, keeps the old entries, and puts the k-th bus at start + k |
| Reservations.WithBusesBalanced | utils.py:37-38 | buses added with available == total and nothing booked keep every bus balanced |
| Reservations.Ledger.constructor | models.py:45-46 | the fresh schema has empty tables, is valid and is balanced |
| Reservations.Ledger.InsertUser | models.py:15 | the insert fails exactly when the username is taken and then changes nothing; otherwise the user is stored under the next fresh id |
| Reservations.Ledger.InsertBus | main.py:24-33 | the bus is stored under the next fresh id with no seats booked on it; balance is kept when the new bus is balanced |
| Reservations.Ledger.InsertBuses | utils.py:43-45 | one commit of several buses stores them in order under consecutive fresh ids; users and bookings are unchanged; balance is kept |
| Reservations.Ledger.ReviseBus | app.py:123-129 | the bus's fields are overwritten and its available seats set to max(0, total - booked); other buses and the bookings are unchanged; balance is kept when the new total covers the booked seats |
| Reservations.Ledger.RemoveBusDetaching | app.py:142 | the bus row goes, the bookings are detached from it, nothing else changes, and balance is kept |
| Reservations.Ledger.RemoveBusRow | main.py:138 | only the bus row goes; the bookings keep their old bus id; balance is kept |
| Reservations.Ledger.Reserve | app.py:197-200 | the bus loses exactly `seats` available seats, one booking of that bus is appended, booked seats grow by `seats`; the accounting identity always survives and full balance survives when 0 <= seats <= available |
| Web.AddBus | app.py:105-111 | a missing or empty total is 40 and fare 0; an unparseable one fails with nothing stored; otherwise one new bus with available == total |
| Web.EditBus | app.py:120-129 | an unknown id or unparseable field changes nothing; an empty total or fare keeps the old value; available becomes max(0, total - booked), never negative |
| Web.DeleteBus | app.py:139-144 | an unknown id changes nothing; otherwise only that bus goes and its bookings stay, detached; balance is kept |
| Web.Book | app.py:183-201 | refused with no change for an unknown bus, an unparseable count or one outside [1, available]; otherwise available drops by exactly `seats` and one booking is appended; balance is kept |
| Web.Register | app.py:47-57 | a taken username is refused with no change; a new user is stored and is not an admin |
| Desktop.AddBus | gui_app.py:105-112 | no name changes nothing; no route fails the NOT NULL column; otherwise one new bus with total >= 1 and available == total, dismissed seats or fare taking the defaults |
| Desktop.DeleteSelected | gui_app.py:115-119 | no selection or no confirmation changes nothing; otherwise exactly the selected bus goes |
| Desktop.EditSelected | gui_app.py:122-132 | no selection changes nothing; an empty name leaves name, route, total and fare unchanged; available is recomputed as max(0, total - booked) either way |
| Desktop.DoBook | gui_app.py:61-73 | no selection or a dismissed seats dialog changes nothing; otherwise available drops by exactly q and one booking is appended; balance is kept |
| Terminal.InitDb | main.py:47-55 | the admin user is added only when no user is named admin, so after any number of runs there is exactly one admin row |
| Terminal.RegisterUser | main.py:61-76 | a taken username fails the UNIQUE constraint with no change; a new user is not an admin |
| Terminal.Login | main.py:79-96 | succeeds exactly when some row matches both username and password, and returns that row's id and admin flag |
| Terminal.AddBus | main.py:101-114 | one new bus with available == total |
| Terminal.DeleteBus | main.py:131-142 | only the bus row goes, if present; bookings are unchanged; balance is kept |
| Terminal.BookSeat | main.py:168-195 | refused with no change exactly when the bus is unknown or seats > available; otherwise available drops by exactly `seats` and one booking row is inserted; the accounting identity is kept |
| Terminal.NegativeSeatsOverfill | main.py:180-186 | booking -2 seats on a fresh 40-seat bus is accepted and leaves 42 available on a 40-seat bus |
| Terminal.BookSeatChecked | main.py:168-195 | with a lower bound of 1 on the seat count, the full balance is kept |
| Terminal.Joined | main.py:149-154 | the export query keeps exactly the bookings whose user and bus rows both exist |
| Terminal.ExportRows | main.py:149-161 | the header, then for each joined booking, in table order, the row of its id, username, bus name, seats and passenger |
| Terminal.JoinedRowReadsBack | main.py:150-161 | an exported joined row has five cells; its id and seats read back exactly; the other cells are the username, the bus name and the passenger |
| Terminal.DeletedBusLeavesExport | main.py:131-154 | after a delete, the deleted bus's bookings drop out of the joined export and every other joinable booking stays |
| CsvIo.ImportedBus | utils.py:30-42 | a missing or unparseable total is 40; available == total; an unparseable fare fails the row and a missing one is 0; name, route, departure and extra are copied from their cells, a missing name being 'Unnamed' and a missing route, departure or extra '' |
| CsvIo.PendingBalanced | utils.py:37-38 | every imported bus with a non-negative total is balanced with nothing booked |
| CsvIo.ImportStored | utils.py:43-45 | committing the imported buses adds one bus per row at consecutive ids and keeps the old buses |
| CsvIo.PendingBuses | utils.py:29-44 | the import loop succeeds exactly when every row's fare parses, and then holds each row's bus in row order |
| CsvIo.ImportBuses | utils.py:25-47 | an unparseable fare stores nothing; otherwise exactly one bus per row is added, row k under id start + k, and the row count is returned; balance is kept for non-negative totals |
| CsvIo.ExportBookings | utils.py:13-22 | the header, then exactly one row per booking in table order |
| CsvIo.ExportRowReadsBack | utils.py:18-20 | an exported row has seven cells; its id and seats read back exactly; the user and bus cells are their names, or empty when the user row or bus row is gone; the passenger cell is the passenger and a missing phone is empty |

## Left out

- Flask routing, templates, flash messages, redirects, Flask-Login and the admin-only guards; Tk widgets and dialogs. Dialog bounds appear only as method preconditions.
- Sessions, connections and commits: each handler is one atomic step. The web booking's use of a second session for the insert is not modelled.
- Password hashing: the web stores a hash from a foreign library, so `Web.Register` takes the stored credential as a parameter. The web and desktop login handlers are not modelled for that reason. Only the terminal login, which compares plain text, is.
- CSV quoting and tokenising: import rows are column-to-text maps and export rows are lists of cell texts. A short CSV row, where DictReader yields None values, is not modelled.
- Timestamps: `booked_at` is an opaque text passed in by the caller.
- Row id reuse: ids come from counters that never go back.
- Column length limits (String(80) and the like), which sqlite does not enforce.
- Concurrent bookings: the code has no concurrency.
- The seats default of 1 on `bookings.seats` is declared but never used, because every insert gives a count. The web booking form's own fallback of 1 seat is a separate constant, `Web.FormSeats`.
- Numerals.ParseInt: does not accept underscores between digits, non-ASCII digits or whitespace other than space and \t to \r, which Python's int() accepts.
- 64-bit integers: sqlite stores at most 64-bit integers and Python's sqlite3 raises OverflowError when binding a larger one, so a web total or fare, a CSV total or fare, or a terminal count outside that range fails the insert in the system; the model's integers are unbounded and store it. The terminal's `available_seats - ?` update (main.py:186) can overflow to a REAL in sqlite, which the model does not capture either.
- Numerals.ParseShowRoundTrip: Python's int() and str() refuse numbers of more than 4300 digits by default; the model has no such limit, so the round trip is stated for every integer.
- Terminal.DeleteBus: the bus id arrives as an int; the crash of `int(input())` on bad text is not modelled.
- Web.AddBus: a request without a `name` or `route` field gets a 400 response from the framework before any table work; the model takes both as given strings.
- Web.EditBus: a request without a `name` or `route` field gets a 400 response from the framework before any table work; the model takes both as given strings.
- Terminal.AddBus: the seat and fare counts arrive as ints; the crash of `int(input())` on bad text is not modelled.
- Terminal.BookSeat: the bus id and seat count arrive as ints; the crash of `int(input())` on bad text is not modelled.
- Desktop.EditSelected: dialogs dismissed after the name dialog are taken as answered, so a None route, total or fare written to the row is not modelled.
- Desktop.AddBus: after a failed insert the desktop session stays in a failed state; the model only says the tables are unchanged.
- Desktop.DoBook: after a dismissed passenger-name dialog fails the NOT NULL insert the desktop session stays in a failed state; the model only says the tables are unchanged.

## Findings

| source | as written | input that shows it | evidently intended | confidence | as-written member | corrected member |
|---|---|---|---|---|---|---|
| main.py:180 | book_seat refuses only an unknown bus or `seats > available`; a zero or negative count is accepted | book -2 seats on a fresh 40-seat bus: 42 seats become available on a 40-seat bus, with -2 seats booked | refuse counts below 1, as app.py:192 does, so that `0 <= available <= total` is kept | high, not executed | Terminal.NegativeSeatsOverfill | Terminal.BookSeatChecked |
