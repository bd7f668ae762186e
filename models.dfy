/**
 * The three tables of the reservation system (models.py): users, buses and
 * bookings, with the column defaults and the NOT NULL and UNIQUE constraints
 * the schema declares.
 */
module Models {
  import opened Wrappers

  /** Why an operation refused a request; a refused request changes no table. */
  datatype Error =
    | BadInteger        // Python's int() raised ValueError on a text field
    | MissingRequired   // a NOT NULL column received no value
    | DuplicateUsername // the UNIQUE constraint on users.username
    | NotFound          // no bus has the requested id
    | InvalidSeatCount  // the web guard: seats <= 0 or seats > available
    | NotEnoughSeats    // the terminal guard: unknown bus or seats > available
    | NothingSelected   // a desktop callback run with no bus selected
    | Cancelled         // a desktop dialog dismissed without a value
    | NotConfirmed      // the desktop delete confirmation answered "no"

  /** A row of `users`; `password` is whatever the front end stores (a hash or, in the terminal, the plain text). */
  datatype User = User(username: string, password: string, isAdmin: bool)

  /** A row of `buses`. `departTime` and `extra` are nullable columns. */
  datatype Bus = Bus(
    name: string,
    route: string,
    totalSeats: int,
    availableSeats: int,
    fare: int,
    departTime: Option<string>,
    extra: Option<string>)

  /**
   * A row of `bookings`. `busId` is nullable: the ORM clears it when the bus is
   * deleted. `bookedAt` is the rendered creation timestamp, an opaque text.
   */
  datatype Booking = Booking(
    id: int,
    userId: int,
    busId: Option<int>,
    seats: int,
    bookedAt: Option<string>,
    passengerName: string,
    passengerPhone: Option<string>)

  // Column defaults declared on `buses` and `bookings`.
  const DefaultTotalSeats := 40
  const DefaultAvailableSeats := 40
  const DefaultFare := 0
  const DefaultBookingSeats := 1

  /** Some row of `users` carries `username`. */
  predicate UsernameTaken(users: map<int, User>, username: string) {
    exists id :: id in users && users[id].username == username
  }

  /** The UNIQUE constraint on `users.username`. */
  ghost predicate UniqueUsernames(users: map<int, User>) {
    forall a, b :: a in users && b in users && users[a].username == users[b].username ==> a == b
  }

  /**
   * Inserting a bus row through the ORM: a column given no value (None) takes
   * its declared default, and a NOT NULL column without a default (name,
   * route) makes the insert fail.
   */
  function BusRow(
    name: Option<string>, route: Option<string>,
    total: Option<int>, available: Option<int>, fare: Option<int>,
    departTime: Option<string>, extra: Option<string>): (r: Result<Bus, Error>)
    ensures r.Ok? <==> name.Some? && route.Some?
    ensures r.Err? ==> r.error == MissingRequired
    ensures r.Ok? ==> r.value.name == name.value && r.value.route == route.value
    ensures r.Ok? && total.None? ==> r.value.totalSeats == DefaultTotalSeats
    ensures r.Ok? && available.None? ==> r.value.availableSeats == DefaultAvailableSeats
    ensures r.Ok? && fare.None? ==> r.value.fare == DefaultFare
    ensures r.Ok? && total.Some? ==> r.value.totalSeats == total.value
    ensures r.Ok? && available.Some? ==> r.value.availableSeats == available.value
    ensures r.Ok? && fare.Some? ==> r.value.fare == fare.value
    ensures r.Ok? ==> r.value.departTime == departTime && r.value.extra == extra
  {
    if name.None? || route.None? then Err(MissingRequired)
    else Ok(Bus(name.value, route.value,
                total.GetOr(DefaultTotalSeats), available.GetOr(DefaultAvailableSeats),
                fare.GetOr(DefaultFare), departTime, extra))
  }
}
