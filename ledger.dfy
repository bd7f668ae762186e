/**
 * The reservation ledger shared by the three front ends: the users, buses and
 * bookings tables held in memory, the table operations every front end is
 * built from, and the seat accounting that relates a bus's available seats
 * to the bookings made on it.
 */
module Reservations {
  import opened Wrappers
  import opened Models

  /** Seats booking `b` takes from bus `busId`. */
  function SeatsOn(b: Booking, busId: int): int {
    if b.busId == Some(busId) then b.seats else 0
  }

  /** The sum of seats over the bookings that reference bus `busId`. */
  function BookedSeats(bs: seq<Booking>, busId: int): int {
    if bs == [] then 0 else BookedSeats(bs[..|bs| - 1], busId) + SeatsOn(bs[|bs| - 1], busId)
  }

  lemma BookedSeatsAppend(bs: seq<Booking>, b: Booking, busId: int)
    ensures BookedSeats(bs + [b], busId) == BookedSeats(bs, busId) + SeatsOn(b, busId)
  {
    assert (bs + [b])[..|bs|] == bs;
  }

  /** Booking `b` references no bus id at or above `bound`. */
  predicate RefersBelow(b: Booking, bound: int) {
    b.busId.Some? ==> b.busId.value < bound
  }

  /** A bus id no booking references has no seats booked on it. */
  lemma {:induction false} BookedSeatsOfUnusedId(bs: seq<Booking>, bound: int, busId: int)
    requires forall i :: 0 <= i < |bs| ==> RefersBelow(bs[i], bound)
    requires busId >= bound
    ensures BookedSeats(bs, busId) == 0
  {
    if bs != [] {
      BookedSeatsOfUnusedId(bs[..|bs| - 1], bound, busId);
    }
  }

  /** `b` with its reference to bus `busId` cleared. */
  function Unlink(b: Booking, busId: int): Booking {
    if b.busId == Some(busId) then b.(busId := None) else b
  }

  /**
   * The bookings after the ORM deletes bus `busId`: with no delete cascade
   * declared, each booking of that bus stays, with its bus reference nulled.
   */
  function Detach(bs: seq<Booking>, busId: int): (r: seq<Booking>)
    ensures |r| == |bs|
    ensures forall i :: 0 <= i < |bs| ==> r[i] == Unlink(bs[i], busId)
  {
    if bs == [] then [] else Detach(bs[..|bs| - 1], busId) + [Unlink(bs[|bs| - 1], busId)]
  }

  /** Detaching bus `busId` frees all its seats and leaves every other bus's count as it was. */
  lemma {:induction false} DetachBookedSeats(bs: seq<Booking>, busId: int, other: int)
    ensures BookedSeats(Detach(bs, busId), other) == if other == busId then 0 else BookedSeats(bs, other)
  {
    if bs != [] {
      var n := |bs| - 1;
      DetachBookedSeats(bs[..n], busId, other);
      assert Detach(bs, busId)[..n] == Detach(bs[..n], busId);
    }
  }

  /**
   * `max(0, total - booked)`, the available seats an edit recomputes: never
   * negative, exactly the free capacity when the bus is not oversold, and
   * never above a non-negative total.
   */
  function RecomputedAvailable(total: int, booked: int): (r: int)
    ensures r >= 0
    ensures total >= booked ==> r == total - booked
    ensures total < booked ==> r == 0
    ensures 0 <= booked && 0 <= total ==> r <= total
  {
    if total - booked > 0 then total - booked else 0
  }

  /** `m` with the buses of `bs` added, in order, under the ids `start`, `start + 1`, ... */
  function WithBuses(m: map<int, Bus>, start: int, bs: seq<Bus>): map<int, Bus> {
    if bs == [] then m else WithBuses(m, start, bs[..|bs| - 1])[start + |bs| - 1 := bs[|bs| - 1]]
  }

  /**
   * Adding `bs` under ids above every existing key adds exactly one bus per
   * element: the old entries stay, and the bus at `start + k` is `bs[k]`.
   */
  lemma {:induction false} WithBusesContents(m: map<int, Bus>, start: int, bs: seq<Bus>)
    requires forall id :: id in m ==> id < start
    ensures |WithBuses(m, start, bs)| == |m| + |bs|
    ensures forall id :: id in WithBuses(m, start, bs) <==> id in m || start <= id < start + |bs|
    ensures forall id :: id in m ==> WithBuses(m, start, bs)[id] == m[id]
    ensures forall k :: 0 <= k < |bs| ==> WithBuses(m, start, bs)[start + k] == bs[k]
  {
    if bs != [] {
      var n := |bs| - 1;
      WithBusesContents(m, start, bs[..n]);
      assert start + n !in WithBuses(m, start, bs[..n]);
    }
  }

  /** Buses added under ids no booking references keep every bus balanced when each is balanced with nothing booked. */
  lemma WithBusesBalanced(m: map<int, Bus>, start: int, bs: seq<Bus>, bookings: seq<Booking>)
    requires forall id :: id in m ==> id < start
    requires forall i :: 0 <= i < |bookings| ==> RefersBelow(bookings[i], start)
    requires forall id :: id in m ==> Balanced(m[id], BookedSeats(bookings, id))
    requires forall k :: 0 <= k < |bs| ==> Balanced(bs[k], 0)
    ensures forall id :: id in WithBuses(m, start, bs) ==> Balanced(WithBuses(m, start, bs)[id], BookedSeats(bookings, id))
  {
    WithBusesContents(m, start, bs);
    forall id | id in WithBuses(m, start, bs)
      ensures Balanced(WithBuses(m, start, bs)[id], BookedSeats(bookings, id))
    {
      if id !in m {
        BookedSeatsOfUnusedId(bookings, start, id);
        assert WithBuses(m, start, bs)[id] == bs[id - start];
      }
    }
  }

  /** The accounting identity: a bus's available seats are its total less the seats booked on it. */
  ghost predicate Accounted(b: Bus, booked: int) {
    b.availableSeats == b.totalSeats - booked
  }

  /** The accounting identity together with `0 <= available <= total`. */
  ghost predicate Balanced(b: Bus, booked: int) {
    Accounted(b, booked) && 0 <= b.availableSeats <= b.totalSeats
  }

  class Ledger {
    var users: map<int, User>
    var buses: map<int, Bus>
    var bookings: seq<Booking>
    // the next id each AUTOINCREMENT key hands out
    var nextUserId: int
    var nextBusId: int
    var nextBookingId: int

    /** Keys are unique and below their counters; booking ids grow in insertion order. */
    ghost predicate Valid()
      reads this
    {
      && UniqueUsernames(users)
      && (forall id :: id in users ==> id < nextUserId)
      && (forall id :: id in buses ==> id < nextBusId)
      && (forall i :: 0 <= i < |bookings| ==> RefersBelow(bookings[i], nextBusId))
      && (forall i :: 0 <= i < |bookings| ==> bookings[i].id < nextBookingId)
      && (forall i, j :: 0 <= i < j < |bookings| ==> bookings[i].id < bookings[j].id)
    }

    ghost predicate AllAccounted()
      reads this
    {
      forall id :: id in buses ==> Accounted(buses[id], BookedSeats(bookings, id))
    }

    ghost predicate AllBalanced()
      reads this
    {
      forall id :: id in buses ==> Balanced(buses[id], BookedSeats(bookings, id))
    }

    constructor ()
      ensures Valid() && AllBalanced()
      ensures users == map[] && buses == map[] && bookings == []
    {
      users, buses, bookings := map[], map[], [];
      nextUserId, nextBusId, nextBookingId := 1, 1, 1;
    }

    /** INSERT into `users`, refused by the UNIQUE constraint when the username is taken. */
    method InsertUser(u: User) returns (r: Result<int, Error>)
      requires Valid()
      modifies this
      ensures Valid()
      ensures r.Err? <==> UsernameTaken(old(users), u.username)
      ensures r.Err? ==> r.error == DuplicateUsername && unchanged(this)
      ensures r.Ok? ==> r.value == old(nextUserId) && r.value !in old(users) && users == old(users)[r.value := u]
      ensures buses == old(buses) && bookings == old(bookings)
    {
      if UsernameTaken(users, u.username) {
        return Err(DuplicateUsername);
      }
      r := Ok(nextUserId);
      users := users[nextUserId := u];
      nextUserId := nextUserId + 1;
    }

    /** INSERT into `buses` under a fresh id, on which no booking has been made. */
    method InsertBus(b: Bus) returns (id: int)
      requires Valid()
      modifies this
      ensures Valid()
      ensures id == old(nextBusId) && id !in old(buses)
      ensures buses == old(buses)[id := b] && nextBusId == id + 1
      ensures users == old(users) && bookings == old(bookings)
      ensures BookedSeats(bookings, id) == 0
      ensures old(AllAccounted()) && Accounted(b, 0) ==> AllAccounted()
      ensures old(AllBalanced()) && Balanced(b, 0) ==> AllBalanced()
    {
      id := nextBusId;
      BookedSeatsOfUnusedId(bookings, nextBusId, id);
      buses := buses[id := b];
      nextBusId := nextBusId + 1;
    }

    /** INSERT of several bus rows in one commit, in order, one fresh id per row. */
    method InsertBuses(bs: seq<Bus>)
      requires Valid()
      modifies this
      ensures Valid()
      ensures nextBusId == old(nextBusId) + |bs|
      ensures buses == WithBuses(old(buses), old(nextBusId), bs)
      ensures users == old(users) && bookings == old(bookings)
      ensures old(AllBalanced()) && (forall k :: 0 <= k < |bs| ==> Balanced(bs[k], 0)) ==> AllBalanced()
    {
      ghost var start := nextBusId;
      var i := 0;
      while i < |bs|
        invariant 0 <= i <= |bs|
        invariant Valid()
        invariant nextBusId == start + i
        invariant buses == WithBuses(old(buses), start, bs[..i])
        invariant users == old(users) && bookings == old(bookings)
      {
        var id := InsertBus(bs[i]);
        assert bs[..i + 1][..i] == bs[..i];
        i := i + 1;
      }
      assert bs[..|bs|] == bs;
      if old(AllBalanced()) && forall k :: 0 <= k < |bs| ==> Balanced(bs[k], 0) {
        WithBusesBalanced(old(buses), start, bs, bookings);
      }
    }

    /**
     * UPDATE of bus `busId`'s fields, with its available seats recomputed as
     * `max(0, total - Σ seats of its bookings)`; its `extra` column is kept.
     */
    method ReviseBus(busId: int, name: string, route: string, total: int, fare: int, departTime: Option<string>)
      requires Valid() && busId in buses
      modifies this
      ensures Valid()
      ensures buses == old(buses)[busId := Bus(name, route, total,
                RecomputedAvailable(total, BookedSeats(bookings, busId)), fare, departTime, old(buses[busId].extra))]
      ensures users == old(users) && bookings == old(bookings) && nextBusId == old(nextBusId)
      ensures old(AllBalanced()) && total >= BookedSeats(bookings, busId) ==> AllBalanced()
    {
      var booked := BookedSeats(bookings, busId);
      var available := RecomputedAvailable(total, booked);
      assert old(AllBalanced()) ==> Balanced(buses[busId], booked);
      buses := buses[busId := Bus(name, route, total, available, fare, departTime, buses[busId].extra)];
    }

    /** ORM delete of bus `busId`: the row goes, its bookings stay with their bus reference nulled. */
    method RemoveBusDetaching(busId: int)
      requires Valid()
      modifies this
      ensures Valid()
      ensures buses == old(buses) - {busId}
      ensures bookings == Detach(old(bookings), busId)
      ensures users == old(users) && nextBusId == old(nextBusId)
      ensures old(AllAccounted()) ==> AllAccounted()
      ensures old(AllBalanced()) ==> AllBalanced()
    {
      var detached := Detach(bookings, busId);
      forall id | id in buses - {busId}
        ensures BookedSeats(detached, id) == BookedSeats(bookings, id)
      {
        DetachBookedSeats(bookings, busId, id);
      }
      buses := buses - {busId};
      bookings := detached;
    }

    /** SQL `DELETE FROM buses WHERE id = ?`: only the bus row goes; bookings keep the stale id. */
    method RemoveBusRow(busId: int)
      requires Valid()
      modifies this
      ensures Valid()
      ensures buses == old(buses) - {busId}
      ensures users == old(users) && bookings == old(bookings) && nextBusId == old(nextBusId)
      ensures old(AllAccounted()) ==> AllAccounted()
      ensures old(AllBalanced()) ==> AllBalanced()
    {
      buses := buses - {busId};
    }

    /**
     * The booking step every front end performs once its own checks pass:
     * take `seats` from bus `busId`'s available seats and append one booking
     * of that bus. The accounting identity survives any seat count; the full
     * balance survives a count in `[0, available]`.
     */
    method Reserve(busId: int, seats: int, userId: int, passengerName: string,
                   passengerPhone: Option<string>, bookedAt: Option<string>) returns (bookingId: int)
      requires Valid() && busId in buses
      modifies this
      ensures Valid()
      ensures bookingId == old(nextBookingId)
      ensures buses == old(buses)[busId := old(buses[busId]).(availableSeats := old(buses[busId].availableSeats) - seats)]
      ensures bookings == old(bookings) + [Booking(bookingId, userId, Some(busId), seats, bookedAt, passengerName, passengerPhone)]
      ensures users == old(users) && nextBusId == old(nextBusId)
      ensures BookedSeats(bookings, busId) == old(BookedSeats(bookings, busId)) + seats
      ensures old(AllAccounted()) ==> AllAccounted()
      ensures old(AllBalanced()) && 0 <= seats <= old(buses[busId].availableSeats) ==> AllBalanced()
    {
      var b := Booking(nextBookingId, userId, Some(busId), seats, bookedAt, passengerName, passengerPhone);
      forall id
        ensures BookedSeats(bookings + [b], id) == BookedSeats(bookings, id) + SeatsOn(b, id)
      {
        BookedSeatsAppend(bookings, b, id);
      }
      buses := buses[busId := buses[busId].(availableSeats := buses[busId].availableSeats - seats)];
      bookings := bookings + [b];
      bookingId := nextBookingId;
      nextBookingId := nextBookingId + 1;
    }
  }
}
