/**
 * The web front end's handlers (app.py), reduced to what they do to the
 * tables. A form field is `Some(text)` when the request carries it; a
 * handler whose request fails (int() raising, an unknown bus) commits nothing.
 */
module Web {
  import opened Wrappers
  import opened Models
  import opened Numerals
  import opened Reservations

  /** The seat count the booking form falls back to when it sends none. */
  const FormSeats := 1

  /** `int(form.get(key) or fallback)`: an absent or empty field takes the fallback. */
  function IntOrFallback(field: Option<string>, fallback: int): Option<int> {
    if field.None? || field.value == "" then Some(fallback) else ParseInt(field.value)
  }

  /** `int(form.get(key, default))`: only an absent field takes the default; empty text fails. */
  function IntWithDefault(field: Option<string>, default: int): Option<int> {
    if field.None? then Some(default) else ParseInt(field.value)
  }

  /**
   * add_bus: a new bus whose available seats equal its total; a missing or
   * empty total is 40 and a missing or empty fare is 0.
   */
  method AddBus(l: Ledger, name: string, route: string, totalField: Option<string>,
                fareField: Option<string>, departField: Option<string>) returns (r: Result<int, Error>)
    requires l.Valid()
    modifies l
    ensures l.Valid()
    ensures r.Err? <==> IntOrFallback(totalField, DefaultTotalSeats).None? || IntOrFallback(fareField, DefaultFare).None?
    ensures r.Err? ==> r.error == BadInteger && unchanged(l)
    ensures r.Ok? ==> r.value !in old(l.buses) && r.value in l.buses
    ensures r.Ok? ==>
      var total := IntOrFallback(totalField, DefaultTotalSeats).value;
      l.buses == old(l.buses)[r.value := Bus(name, route, total, total,
        IntOrFallback(fareField, DefaultFare).value, Some(departField.GetOr("")), None)]
    ensures r.Ok? ==> l.buses[r.value].availableSeats == l.buses[r.value].totalSeats
    ensures r.Ok? && (totalField == None || totalField == Some("")) ==> l.buses[r.value].totalSeats == DefaultTotalSeats
    ensures r.Ok? && (fareField == None || fareField == Some("")) ==> l.buses[r.value].fare == DefaultFare
    ensures l.users == old(l.users) && l.bookings == old(l.bookings)
    ensures r.Ok? ==> BookedSeats(l.bookings, r.value) == 0
    ensures r.Ok? && old(l.AllBalanced()) && l.buses[r.value].totalSeats >= 0 ==> l.AllBalanced()
  {
    var total := IntOrFallback(totalField, DefaultTotalSeats);
    var fare := IntOrFallback(fareField, DefaultFare);
    if total.None? || fare.None? {
      return Err(BadInteger);
    }
    var id := l.InsertBus(Bus(name, route, total.value, total.value, fare.value, Some(departField.GetOr("")), None));
    r := Ok(id);
  }

  /**
   * edit_bus: overwrite the bus's fields, keep the old total or fare when its
   * field is missing or empty, and recompute the available seats as
   * `max(0, total - Σ seats booked on the bus)`.
   */
  method EditBus(l: Ledger, busId: int, name: string, route: string, totalField: Option<string>,
                 fareField: Option<string>, departField: Option<string>) returns (r: Result<int, Error>)
    requires l.Valid()
    modifies l
    ensures l.Valid()
    ensures busId !in old(l.buses) ==> r == Err(NotFound)
    ensures busId in old(l.buses) ==>
      (r.Err? <==> IntOrFallback(totalField, old(l.buses[busId].totalSeats)).None?
                   || IntOrFallback(fareField, old(l.buses[busId].fare)).None?)
    ensures r.Err? ==> unchanged(l)
    ensures r.Ok? ==> r.value == busId && busId in old(l.buses) && busId in l.buses
    ensures r.Ok? ==>
      var total := IntOrFallback(totalField, old(l.buses[busId].totalSeats)).value;
      l.buses == old(l.buses)[busId := Bus(name, route, total,
        RecomputedAvailable(total, BookedSeats(l.bookings, busId)),
        IntOrFallback(fareField, old(l.buses[busId].fare)).value,
        Some(departField.GetOr("")), old(l.buses[busId].extra))]
    ensures r.Ok? ==> 0 <= l.buses[busId].availableSeats
    ensures r.Ok? && (totalField == None || totalField == Some("")) ==> l.buses[busId].totalSeats == old(l.buses[busId].totalSeats)
    ensures r.Ok? && (fareField == None || fareField == Some("")) ==> l.buses[busId].fare == old(l.buses[busId].fare)
    ensures l.users == old(l.users) && l.bookings == old(l.bookings)
    ensures r.Ok? && old(l.AllBalanced()) && l.buses[busId].totalSeats >= BookedSeats(l.bookings, busId) ==> l.AllBalanced()
  {
    if busId !in l.buses {
      return Err(NotFound);
    }
    var bus := l.buses[busId];
    var total := IntOrFallback(totalField, bus.totalSeats);
    var fare := IntOrFallback(fareField, bus.fare);
    if total.None? || fare.None? {
      return Err(BadInteger);
    }
    l.ReviseBus(busId, name, route, total.value, fare.value, Some(departField.GetOr("")));
    r := Ok(busId);
  }

  /** delete_bus: an unknown id changes nothing; otherwise only that bus goes and its bookings stay. */
  method DeleteBus(l: Ledger, busId: int) returns (deleted: bool)
    requires l.Valid()
    modifies l
    ensures l.Valid()
    ensures deleted == (busId in old(l.buses))
    ensures !deleted ==> unchanged(l)
    ensures l.buses == old(l.buses) - {busId}
    ensures deleted ==> l.bookings == Detach(old(l.bookings), busId)
    ensures |l.bookings| == |old(l.bookings)|
    ensures l.users == old(l.users)
    ensures old(l.AllBalanced()) ==> l.AllBalanced()
  {
    deleted := busId in l.buses;
    if deleted {
      l.RemoveBusDetaching(busId);
    }
  }

  /**
   * book: refused with no change when the bus is unknown, the seat count does
   * not parse, or it lies outside `[1, available]`; otherwise the bus loses
   * exactly that many available seats and one booking of it is appended.
   */
  method Book(l: Ledger, busId: int, userId: int, username: string, seatsField: Option<string>,
              nameField: Option<string>, phoneField: Option<string>, now: string) returns (r: Result<int, Error>)
    requires l.Valid()
    modifies l
    ensures l.Valid()
    ensures busId !in old(l.buses) ==> r == Err(NotFound)
    ensures busId in old(l.buses) && IntWithDefault(seatsField, FormSeats).None? ==> r == Err(BadInteger)
    ensures r.Ok? <==>
      && busId in old(l.buses)
      && IntWithDefault(seatsField, FormSeats).Some?
      && 1 <= IntWithDefault(seatsField, FormSeats).value <= old(l.buses[busId].availableSeats)
    ensures r.Err? ==> unchanged(l)
    ensures r.Ok? ==>
      var seats := IntWithDefault(seatsField, FormSeats).value;
      && l.buses == old(l.buses)[busId := old(l.buses[busId]).(availableSeats := old(l.buses[busId].availableSeats) - seats)]
      && l.bookings == old(l.bookings) + [Booking(r.value, userId, Some(busId), seats, Some(now),
                                                  nameField.GetOr(username), Some(phoneField.GetOr("")))]
      && BookedSeats(l.bookings, busId) == old(BookedSeats(l.bookings, busId)) + seats
    ensures r.Ok? ==> 0 <= l.buses[busId].availableSeats
    ensures l.users == old(l.users)
    ensures old(l.AllBalanced()) ==> l.AllBalanced()
  {
    if busId !in l.buses {
      return Err(NotFound);
    }
    var seats := IntWithDefault(seatsField, FormSeats);
    if seats.None? {
      return Err(BadInteger);
    }
    if seats.value <= 0 || seats.value > l.buses[busId].availableSeats {
      return Err(InvalidSeatCount);
    }
    var id := l.Reserve(busId, seats.value, userId, nameField.GetOr(username), Some(phoneField.GetOr("")), Some(now));
    r := Ok(id);
  }

  /**
   * register: a taken username is refused with the table unchanged; a new
   * user is never an administrator. `credential` is the stored password hash.
   */
  method Register(l: Ledger, username: string, credential: string) returns (r: Result<int, Error>)
    requires l.Valid()
    modifies l
    ensures l.Valid()
    ensures r.Err? <==> UsernameTaken(old(l.users), username)
    ensures r.Err? ==> r.error == DuplicateUsername && unchanged(l)
    ensures r.Ok? ==> r.value !in old(l.users) && l.users == old(l.users)[r.value := User(username, credential, false)]
    ensures r.Ok? ==> !l.users[r.value].isAdmin
    ensures l.buses == old(l.buses) && l.bookings == old(l.bookings)
  {
    if UsernameTaken(l.users, username) {
      return Err(DuplicateUsername);
    }
    r := l.InsertUser(User(username, credential, false));
  }
}
