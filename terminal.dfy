/**
 * The terminal front end (main.py), which keeps its own sqlite tables: no
 * phone, timestamp, departure or extra columns, and passwords stored as
 * typed. Each function is one atomic step on a Ledger standing for that
 * database; numeric input arrives already converted by int().
 */
module Terminal {
  import opened Wrappers
  import opened Models
  import opened Numerals
  import opened Reservations

  /** What login hands to the menus. */
  datatype Session = Session(id: int, username: string, isAdmin: bool)

  const AdminName := "admin"
  const AdminPassword := "admin123"

  /** init_db's seeding: add the admin user only when no user is named "admin", so a second run adds nothing. */
  method InitDb(l: Ledger)
    requires l.Valid()
    modifies l
    ensures l.Valid()
    ensures UsernameTaken(old(l.users), AdminName) ==> unchanged(l)
    ensures !UsernameTaken(old(l.users), AdminName) ==>
      old(l.nextUserId) !in old(l.users) && l.users == old(l.users)[old(l.nextUserId) := User(AdminName, AdminPassword, true)]
    ensures UsernameTaken(l.users, AdminName)
    ensures forall a, b :: a in l.users && b in l.users && l.users[a].username == AdminName == l.users[b].username ==> a == b
    ensures l.buses == old(l.buses) && l.bookings == old(l.bookings)
  {
    if !UsernameTaken(l.users, AdminName) {
      var r := l.InsertUser(User(AdminName, AdminPassword, true));
      assert l.users[r.value].username == AdminName;
    }
  }

  /** register_user: the INSERT fails on the UNIQUE username and leaves the table unchanged; a new user is not an admin. */
  method RegisterUser(l: Ledger, username: string, password: string) returns (r: Result<int, Error>)
    requires l.Valid()
    modifies l
    ensures l.Valid()
    ensures r.Err? <==> UsernameTaken(old(l.users), username)
    ensures r.Err? ==> r.error == DuplicateUsername && unchanged(l)
    ensures r.Ok? ==> r.value !in old(l.users) && l.users == old(l.users)[r.value := User(username, password, false)]
    ensures l.buses == old(l.buses) && l.bookings == old(l.bookings)
  {
    r := l.InsertUser(User(username, password, false));
  }

  /** login: succeeds exactly when some row matches both username and password, and returns that row's id and admin flag. */
  method Login(l: Ledger, username: string, password: string) returns (s: Option<Session>)
    ensures s.Some? <==> exists id :: id in l.users && l.users[id].username == username && l.users[id].password == password
    ensures s.Some? ==>
      && s.value.id in l.users
      && l.users[s.value.id].username == username == s.value.username
      && l.users[s.value.id].password == password
      && s.value.isAdmin == l.users[s.value.id].isAdmin
  {
    if exists id :: id in l.users && l.users[id].username == username && l.users[id].password == password {
      var id :| id in l.users && l.users[id].username == username && l.users[id].password == password;
      s := Some(Session(id, username, l.users[id].isAdmin));
    } else {
      s := None;
    }
  }

  /** add_bus: a new bus whose available seats equal its total. */
  method AddBus(l: Ledger, name: string, route: string, seats: int, fare: int) returns (id: int)
    requires l.Valid()
    modifies l
    ensures l.Valid()
    ensures id !in old(l.buses) && l.buses == old(l.buses)[id := Bus(name, route, seats, seats, fare, None, None)]
    ensures l.buses[id].availableSeats == l.buses[id].totalSeats
    ensures l.users == old(l.users) && l.bookings == old(l.bookings)
    ensures BookedSeats(l.bookings, id) == 0
    ensures old(l.AllBalanced()) && seats >= 0 ==> l.AllBalanced()
  {
    id := l.InsertBus(Bus(name, route, seats, seats, fare, None, None));
  }

  /** delete_bus: only the bus row goes (none if the id is unknown); its bookings stay, still naming the old id. */
  method DeleteBus(l: Ledger, busId: int)
    requires l.Valid()
    modifies l
    ensures l.Valid()
    ensures l.buses == old(l.buses) - {busId}
    ensures l.bookings == old(l.bookings) && l.users == old(l.users)
    ensures old(l.AllBalanced()) ==> l.AllBalanced()
  {
    l.RemoveBusRow(busId);
  }

  /**
   * book_seat as written: refused with no change when the bus is unknown or
   * `seats > available`. There is no lower bound on `seats`, so the
   * accounting identity and `available >= 0` survive but `available <= total`
   * does not (see NegativeSeatsOverfill).
   */
  method BookSeat(l: Ledger, userId: int, busId: int, seats: int, name: string) returns (r: Result<int, Error>)
    requires l.Valid()
    modifies l
    ensures l.Valid()
    ensures r.Ok? <==> busId in old(l.buses) && seats <= old(l.buses[busId].availableSeats)
    ensures r.Err? ==> r.error == NotEnoughSeats && unchanged(l)
    ensures r.Ok? ==>
      && l.buses == old(l.buses)[busId := old(l.buses[busId]).(availableSeats := old(l.buses[busId].availableSeats) - seats)]
      && l.bookings == old(l.bookings) + [Booking(r.value, userId, Some(busId), seats, None, name, None)]
    ensures r.Ok? ==> 0 <= l.buses[busId].availableSeats
    ensures l.users == old(l.users)
    ensures old(l.AllAccounted()) ==> l.AllAccounted()
  {
    if busId !in l.buses || seats > l.buses[busId].availableSeats {
      return Err(NotEnoughSeats);
    }
    var id := l.Reserve(busId, seats, userId, name, None, None);
    r := Ok(id);
  }

  /**
   * A booking of -2 seats on a fresh 40-seat bus goes through BookSeat and
   * leaves 42 seats available on a 40-seat bus, with -2 seats booked.
   */
  method NegativeSeatsOverfill() returns (total: int, available: int, booked: int)
    ensures total == 40 && available == 42 && booked == -2
    ensures available > total
  {
    var l := new Ledger();
    var busId := AddBus(l, "Express", "North-South", 40, 100);
    var r := BookSeat(l, 1, busId, -2, "Rider");
    total, available := l.buses[busId].totalSeats, l.buses[busId].availableSeats;
    booked := BookedSeats(l.bookings, busId);
  }

  /**
   * book_seat with the lower bound the web handler applies: a count outside
   * `[1, available]` is refused too, and then the full balance
   * `available == total - booked`, `0 <= available <= total` is kept.
   */
  method BookSeatChecked(l: Ledger, userId: int, busId: int, seats: int, name: string) returns (r: Result<int, Error>)
    requires l.Valid()
    modifies l
    ensures l.Valid()
    ensures r.Ok? <==> busId in old(l.buses) && 1 <= seats <= old(l.buses[busId].availableSeats)
    ensures r.Err? ==> r.error == NotEnoughSeats && unchanged(l)
    ensures r.Ok? ==>
      && l.buses == old(l.buses)[busId := old(l.buses[busId]).(availableSeats := old(l.buses[busId].availableSeats) - seats)]
      && l.bookings == old(l.bookings) + [Booking(r.value, userId, Some(busId), seats, None, name, None)]
    ensures l.users == old(l.users)
    ensures old(l.AllBalanced()) ==> l.AllBalanced()
  {
    if busId !in l.buses || seats <= 0 || seats > l.buses[busId].availableSeats {
      return Err(NotEnoughSeats);
    }
    var id := l.Reserve(busId, seats, userId, name, None, None);
    r := Ok(id);
  }

  /** A booking survives the inner join with users and buses. */
  predicate Joinable(b: Booking, users: map<int, User>, buses: map<int, Bus>) {
    b.userId in users && b.busId.Some? && b.busId.value in buses
  }

  /** The bookings the export query returns: those whose user and bus rows both exist, in table order. */
  function Joined(bs: seq<Booking>, users: map<int, User>, buses: map<int, Bus>): (r: seq<Booking>)
    ensures |r| <= |bs|
    ensures forall b :: b in r <==> b in bs && Joinable(b, users, buses)
  {
    if bs == [] then []
    else
      var last := bs[|bs| - 1];
      Joined(bs[..|bs| - 1], users, buses) + (if Joinable(last, users, buses) then [last] else [])
  }

  const ExportHeader: seq<string> := ["BookingID", "User", "Bus", "Seats", "Passenger"]

  function JoinedRow(b: Booking, users: map<int, User>, buses: map<int, Bus>): seq<string>
    requires Joinable(b, users, buses)
  {
    [ShowInt(b.id), users[b.userId].username, buses[b.busId.value].name, ShowInt(b.seats), b.passengerName]
  }

  /** export_bookings_csv: the header, then one row per joined booking. */
  function ExportRows(bs: seq<Booking>, users: map<int, User>, buses: map<int, Bus>): (rows: seq<seq<string>>)
    ensures |rows| == |Joined(bs, users, buses)| + 1 && rows[0] == ExportHeader
    ensures forall i :: 0 <= i < |Joined(bs, users, buses)| ==>
      Joinable(Joined(bs, users, buses)[i], users, buses) &&
      rows[i + 1] == JoinedRow(Joined(bs, users, buses)[i], users, buses)
  {
    var j := Joined(bs, users, buses);
    [ExportHeader] + seq(|j|, i requires 0 <= i < |j| => JoinedRow(j[i], users, buses))
  }

  /**
   * Reading a joined row back gives the booking's id and seats exactly, its
   * user's and bus's names, and the passenger.
   */
  lemma JoinedRowReadsBack(b: Booking, users: map<int, User>, buses: map<int, Bus>)
    requires Joinable(b, users, buses)
    ensures var row := JoinedRow(b, users, buses);
      && |row| == |ExportHeader|
      && ParseInt(row[0]) == Some(b.id)
      && ParseInt(row[3]) == Some(b.seats)
      && row[1] == users[b.userId].username
      && row[2] == buses[b.busId.value].name
      && row[4] == b.passengerName
  {
    ParseShowRoundTrip(b.id);
    ParseShowRoundTrip(b.seats);
  }

  /**
   * After delete_bus the deleted bus's bookings are still in the table but
   * drop out of the export, and every booking with both rows present stays in it.
   */
  lemma {:induction false} DeletedBusLeavesExport(bs: seq<Booking>, users: map<int, User>, buses: map<int, Bus>, busId: int)
    ensures forall b :: b in Joined(bs, users, buses - {busId}) ==> b.busId != Some(busId)
    ensures forall b :: b in bs && Joinable(b, users, buses) && b.busId != Some(busId) ==> b in Joined(bs, users, buses - {busId})
    ensures |Joined(bs, users, buses - {busId})| <= |Joined(bs, users, buses)|
  {
    if bs != [] {
      DeletedBusLeavesExport(bs[..|bs| - 1], users, buses, busId);
    }
  }
}
